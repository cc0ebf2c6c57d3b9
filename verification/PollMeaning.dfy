/** What one poll of one record does, in the numbers it is about: the statistics of the guest, the
    limits of the daemon and the sizes it asks for. */
module PollMeaning {
  import opened Machine
  import opened Vm
  import opened Balloon
  import opened TargetTheorems
  import opened PollTheorems

  /** What a guest has left: what it can use or, if it does not say, what it does not use. */
  function Spare(s: MemStat): u64 { if s.usable != 0 then s.usable else s.unused }

  /** The guest has delivered its size, its total and something about what it has left. */
  predicate HasStatistics(s: MemStat) {
    s.actualBalloon > 0 && s.available > 0 && (s.usable > 0 || s.unused > 0)
  }

  // ---------- Usage ----------

  /** Less than 30% of the total is used. */
  predicate LowUse(s: MemStat) {
    Spare(s) <= s.available && 100 * (s.available - Spare(s)) < 30 * s.available
  }

  /** More than 50% of the total is used, or the guest reports more left than it has. */
  predicate HighUse(s: MemStat) {
    Spare(s) > s.available || 100 * (s.available - Spare(s)) > 50 * s.available
  }

  /** The wrapping difference is the used memory, and more than the total where it wraps. */
  lemma UsedMeaning(s: MemStat)
    ensures Spare(s) <= s.available ==> Used(s) == s.available - Spare(s)
    ensures Spare(s) > s.available ==> Used(s) > s.available
  {
    var d: int := s.available - Spare(s);
    assert Used(s) == ToU64(d);
    if d >= 0 {
      InRangeUnchanged(d);
    } else {
      WrapTurns(d, 1);
      InRangeUnchanged(d + TWO64);
    }
  }

  lemma UsageMeaning(s: MemStat)
    ensures UsageOf(s).Below? <==> LowUse(s)
    ensures s.available > 0 ==> (UsageOf(s).Above? <==> HighUse(s))
  {
    UsedMeaning(s);
  }

  /** An idle running guest that shows its full memory, delivers statistics and may be ballooned. */
  predicate LookedAt(v: Vm) {
    && !v.ballooning && v.state == 1 && !v.lockall && !v.enableFpr
    && HasStatistics(v.memstat) && v.memory <= v.currentMem
  }

  lemma MainStepLooks(v: Vm, pct: Percents, answer: bool, usage: Usage)
    ensures var t := MainStep(v, pct, answer).events;
            && (Looked(usage) in t <==> !v.lockall && !v.enableFpr && !v.ballooning && v.state == 1
                                        && StatOk(v.memstat) && usage == UsageOf(v.memstat))
            && Pressure !in t
  {
    if v.ballooning {
      BusyStepLooks(v, answer);
    }
  }

  lemma BusyStepLooks(v: Vm, answer: bool)
    ensures forall e | e in BusyStep(v, answer).events :: !e.Looked? && !e.Pressure?
  {
  }

  lemma StatisticsAreOk(s: MemStat)
    ensures HasStatistics(s) <==> StatOk(s)
  {
  }

  lemma DecideLooks(v: Vm, pct: Percents, answer: bool, usage: Usage)
    ensures var t := Decide(v, pct, answer).events;
            && (Looked(usage) in t <==> LookedAt(v) && usage == UsageOf(v.memstat))
            && (Pressure in t <==> !v.ballooning && v.state == 1 && HasStatistics(v.memstat) && v.memory <= v.currentMem
                                   && v.needBalloonFlag == 0 && UsageOf(v.memstat).Above?)
  {
    var d := Detect(v);
    var p := RecordPressure(d.vm);
    StatisticsAreOk(v.memstat);
    MainStepLooks(p.vm, pct, answer, usage);
    assert Decide(v, pct, answer).events == d.events + p.events + MainStep(p.vm, pct, answer).events;
  }

  /** A poll counts a low usage exactly below 30%, and a high one exactly above 50%, of a guest it
      looks at. */
  lemma PollClassifies(v: Vm, pct: Percents, answer: bool)
    ensures var t := Decide(v, pct, answer).events;
            && (Looked(Below) in t <==> LookedAt(v) && LowUse(v.memstat))
            && (Looked(Above) in t <==> LookedAt(v) && HighUse(v.memstat))
            && (Pressure in t <==> !v.ballooning && v.state == 1 && HasStatistics(v.memstat) && v.memory <= v.currentMem
                                   && v.needBalloonFlag == 0 && HighUse(v.memstat))
  {
    UsageMeaning(v.memstat);
    DecideLooks(v, pct, answer, Below);
    DecideLooks(v, pct, answer, Above);
  }

  // ---------- An idle guest ----------

  /** The counter after a look at the usage. */
  function NextCount(v: Vm): int {
    if HighUse(v.memstat) then 1
    else if LowUse(v.memstat) && v.needBalloonFlag > 0 then v.needBalloonFlag + 1
    else v.needBalloonFlag
  }

  lemma CountMeaning(v: Vm)
    requires v.memstat.available > 0
    ensures Count(v.needBalloonFlag, UsageOf(v.memstat)) == NextCount(v)
    ensures IsDue(v) <==> NextCount(v) >= 20
  {
    UsageMeaning(v.memstat);
  }

  /** The request for an inflate, and the record after it. */
  lemma RequestsOfInflate(v: Vm, pct: Percents, answer: bool)
    requires LookedAt(v) && IsDue(v)
    ensures var o, b := DoBallooning(v, pct, answer), TargetOf(v, pct);
            && Requests(v.domid, o.events) == (if b > 0 then [Request(v.domid, b, answer)] else [])
            && o.vm == v.(needBalloonFlag := 0, balloonTarget := b, ballooning := b > 0 && answer,
                          ballooningDown := v.ballooningDown || (b > 0 && answer))
  {
    RequestsOfFew(v.domid, DoBallooning(v, pct, answer).events);
  }

  lemma RequestsOfLook(v: Vm, pct: Percents, answer: bool)
    requires LookedAt(v) && !IsDue(v)
    ensures var o := DoBallooning(v, pct, answer);
            && Requests(v.domid, o.events) == []
            && o.vm == v.(needBalloonFlag := Count(v.needBalloonFlag, UsageOf(v.memstat)))
  {
    RequestsOfFew(v.domid, DoBallooning(v, pct, answer).events);
  }

  /** The pass before the main loop can only arm the counter, which the look then does anyway. */
  lemma PressureFirst(v: Vm)
    requires LookedAt(v)
    ensures Detect(v).vm == v
    ensures var w := RecordPressure(v).vm;
            && (w == v || (w == v.(needBalloonFlag := 1) && HighUse(v.memstat)))
            && LookedAt(w) && NextCount(w) == NextCount(v)
  {
    UsageMeaning(v.memstat);
  }

  /** A guest that is looked at: its usage is counted, and at a count of twenty it is asked to
      inflate to the target. */
  lemma LookedAtPoll(v: Vm, pct: Percents, answer: bool)
    requires LookedAt(v)
    ensures var o, n := Decide(v, pct, answer), NextCount(v);
            var b, r := o.vm.balloonTarget, Requests(v.domid, o.events);
            if n < 20 then r == [] && o.vm == v.(needBalloonFlag := n)
            else
              && b == TargetOf(v, pct)
              && r == (if b > 0 then [Request(v.domid, b, answer)] else [])
              && o.vm == v.(needBalloonFlag := 0, balloonTarget := b, ballooning := b > 0 && answer,
                            ballooningDown := v.ballooningDown || (b > 0 && answer))
  {
    PressureFirst(v);
    var w := RecordPressure(Detect(v).vm).vm;
    OnlyMainStepRequests(v, w, pct, answer);
    CountMeaning(w);
    assert MainStep(w, pct, answer) == DoBallooning(w, pct, answer);
    if IsDue(w) { RequestsOfInflate(w, pct, answer); } else { RequestsOfLook(w, pct, answer); }
  }

  /** The memory and its guarantee fit the arithmetic. */
  predicate SizesFit(v: Vm) {
    0 <= v.memory <= MEMORY_LIMIT && Spare(v.memstat) <= v.memory && v.minGuarantee < TWO63
  }

  /** The least size that keeps the scaled demand, the configured share, 1 GiB and the guarantee, each
      capped by the memory; only memory the guest has left is taken. */
  ghost predicate LeastSufficient(target: int, v: Vm, pct: Percents) {
    && Sufficient(target, v.memory, Spare(v.memstat), v.minGuarantee, pct)
    && (forall t :: Sufficient(t, v.memory, Spare(v.memstat), v.minGuarantee, pct) ==> target <= t)
    && 0 <= v.memory - target <= Spare(v.memstat)
  }

  lemma TargetMeaning(v: Vm, pct: Percents)
    requires SizesFit(v) && pct.Loadable()
    ensures LeastSufficient(TargetOf(v, pct), v, pct)
  {
    TargetIsLeastSufficient(v.memory, v.memstat, v.minGuarantee, pct);
    TargetReclaimsOnlyFreeMemory(v.memory, v.memstat, v.minGuarantee, pct);
  }

  /** What an inflate asks for. */
  lemma InflateAsksForTheLeast(v: Vm, pct: Percents, answer: bool, i: nat)
    requires SizesFit(v) && pct.Loadable()
    ensures var t := Decide(v, pct, answer).events;
            i < |t| && t[i].Inflate? ==> LeastSufficient(t[i].target, v, pct)
  {
    InflateNeedsFullMemory(v, pct, answer, i);
    TargetMeaning(v, pct);
  }

  /** An idle guest is found squeezed exactly if it delivers statistics and shows less than its
      memory. */
  lemma SqueezedIff(v: Vm, pct: Percents, answer: bool)
    ensures Squeezed in Decide(v, pct, answer).events
       <==> !v.ballooning && HasStatistics(v.memstat) && v.memory > v.currentMem
  {
    var d := Detect(v);
    var p := RecordPressure(d.vm);
    StatisticsAreOk(v.memstat);
    MainStepNeverSqueezes(p.vm, pct, answer);
    assert Decide(v, pct, answer).events == d.events + p.events + MainStep(p.vm, pct, answer).events;
  }

  lemma MainStepNeverSqueezes(v: Vm, pct: Percents, answer: bool)
    ensures Squeezed !in MainStep(v, pct, answer).events
  {
  }

  // ---------- Giving back ----------

  /** The whole memory of a guest; of one without a proper size, 1 GiB. */
  function Whole(memory: i64): u64 { if memory >= 0 then memory else 1048576 }

  /** The first step back stops 2 MiB short of it, in unsigned arithmetic. */
  function AlmostWhole(memory: i64): u64 {
    if Whole(memory) >= 2048 then Whole(memory) - 2048 else Whole(memory) + 0x1_0000_0000_0000_0000 - 2048
  }

  lemma BackMeaning(memory: i64)
    ensures BackBase(memory) == Whole(memory) && GiveBackTarget(memory) == AlmostWhole(memory)
  {
  }

  /** The sample before the one now to be taken. */
  function Previous(v: Vm): i64 { v.currentActualBalloon[1 - v.balloonI] }

  /** Less than 1 MiB above the target. */
  predicate AtTarget(v: Vm) { v.balloonTarget <= v.memstat.actualBalloon < v.balloonTarget + 1024 }

  /** Less than 300 MiB away from the last sample. */
  predicate Slow(v: Vm) { -307200 < v.memstat.actualBalloon - Previous(v) < 307200 }

  /** A guest in an episode that reports a size. */
  predicate InEpisode(v: Vm) {
    && v.ballooning && !v.lockall && !v.enableFpr
    && 0 < v.memstat.actualBalloon < TWO63 && v.memory >= 0 && v.balloonTarget >= 0 && Previous(v) >= 0
  }

  /** The memory is asked back: it is owed, or the inflate is done, or it is too slow. */
  predicate GivesBack(v: Vm) {
    v.incompleteBalloon || (v.ballooningDown && (AtTarget(v) || Slow(v)))
  }

  /** The record with the sample of this poll, if one is taken. */
  function Sampled(v: Vm): Vm
    requires v.memstat.actualBalloon < TWO63
  {
    if v.incompleteBalloon || !v.ballooningDown || AtTarget(v) then v
    else v.(currentActualBalloon := v.currentActualBalloon[v.balloonI := v.memstat.actualBalloon],
            balloonI := 1 - v.balloonI, needBalloonFlag := if Slow(v) then 1 else v.needBalloonFlag)
  }

  lemma GapMeaning(v: Vm)
    requires InEpisode(v)
    ensures Gap(Record(v.currentActualBalloon, v.balloonI, v.memstat.actualBalloon)) < LOW_BALLOON_SIZE_KB <==> Slow(v)
  {
    var a: int, p: int := v.memstat.actualBalloon, Previous(v);
    InRangeUnchanged(a);
    InRangeUnchanged(a - p);
    InRangeUnchanged(p - a);
    var ring := Record(v.currentActualBalloon, v.balloonI, v.memstat.actualBalloon);
    assert ring == if v.balloonI == 0 then [a, p] else [p, a];
  }

  /** The speed test, both ways: an inflating guest away from its target is stopped exactly if it
      moved by less than 300 MiB since the last sample. */
  lemma StoppedIffSlow(v: Vm)
    requires InEpisode(v) && v.ballooningDown && !v.incompleteBalloon && !AtTarget(v)
    ensures BalloonCheck(v).verdict.BackFirst? <==> -307200 < v.memstat.actualBalloon - Previous(v) < 307200
    ensures BalloonCheck(v).vm == Sampled(v)
  {
    WindowsAreExact(v);
    GapMeaning(v);
    InRangeUnchanged(v.memstat.actualBalloon);
  }

  lemma CheckMeaning(v: Vm)
    requires InEpisode(v)
    ensures var c, left := BalloonCheck(v), v.memory - v.memstat.actualBalloon;
            && (c.verdict.BackFirst? <==> GivesBack(v))
            && (c.verdict.BackRest? <==> !v.incompleteBalloon && !v.ballooningDown && 1024 <= left <= 2048)
            && c.vm == if v.incompleteBalloon || v.ballooningDown then Sampled(v)
                       else v.(ballooning := !(0 <= left < 1024))
  {
    WindowsAreExact(v);
    if v.ballooningDown && !v.incompleteBalloon && !AtTarget(v) { StoppedIffSlow(v); }
  }

  lemma OnlyRequest(domid: i32, t: Trace, e: Event)
    requires |t| <= 1 && (t != [] ==> !t[0].IsRequest())
    ensures Requests(domid, t) == [] && Requests(domid, t + [e]) == RequestOf(domid, e)
  {
    RequestsOfFew(domid, t);
    RequestsOfFew(domid, t + [e]);
  }

  lemma CheckEvents(v: Vm)
    ensures var t := BalloonCheck(v).events; |t| <= 1 && (t != [] ==> !t[0].IsRequest())
    ensures BalloonCheck(v).vm.memory == v.memory
  {
  }

  lemma BusyRequests(v: Vm, answer: bool)
    ensures Requests(v.domid, BusyStep(v, answer).events)
         == match BalloonCheck(v).verdict
            case Wait => []
            case BackFirst => [Request(v.domid, GiveBackTarget(v.memory), answer)]
            case BackRest => [Request(v.domid, BackBase(v.memory), answer)]
  {
    var c := BalloonCheck(v);
    CheckEvents(v);
    OnlyRequest(v.domid, c.events, GiveBack(GiveBackTarget(v.memory), v.memory, answer));
    OnlyRequest(v.domid, c.events, Restore(BackBase(v.memory), v.memory, answer));
  }

  lemma BusyPollIsMainStep(v: Vm, pct: Percents, answer: bool)
    requires InEpisode(v)
    ensures Decide(v, pct, answer).vm == BusyStep(v, answer).vm
    ensures Requests(v.domid, Decide(v, pct, answer).events) == Requests(v.domid, BusyStep(v, answer).events)
  {
    assert Detect(v).vm == v && RecordPressure(v).vm == v;
    OnlyMainStepRequests(v, v, pct, answer);
    assert MainStep(v, pct, answer) == BusyStep(v, answer);
  }

  /** The first step back: it is asked for whenever memory is owed or an inflate is over. An accepted
      one ends the inflate, a refused one is remembered. */
  lemma GivesBackPoll(v: Vm, pct: Percents, answer: bool)
    requires InEpisode(v) && GivesBack(v)
    ensures Requests(v.domid, Decide(v, pct, answer).events) == [Request(v.domid, AlmostWhole(v.memory), answer)]
    ensures var w := Sampled(v);
            Decide(v, pct, answer).vm
            == if answer then w.(ballooningDown := false, incompleteBalloon := false,
                                 currentActualBalloon := [0, 0], balloonI := 0)
               else w.(incompleteBalloon := true)
  {
    BusyPollIsMainStep(v, pct, answer);
    BusyRequests(v, answer);
    CheckMeaning(v);
    BackMeaning(v.memory);
  }

  /** An inflate that goes on. */
  lemma InflatingPoll(v: Vm, pct: Percents, answer: bool)
    requires InEpisode(v) && !GivesBack(v) && v.ballooningDown
    ensures Requests(v.domid, Decide(v, pct, answer).events) == [] && Decide(v, pct, answer).vm == Sampled(v)
  {
    BusyPollIsMainStep(v, pct, answer);
    BusyRequests(v, answer);
    CheckMeaning(v);
  }

  /** The second step back is asked for from 2 MiB down to 1 MiB below the memory; closer than that the
      guest is whole. */
  lemma ReturningPoll(v: Vm, pct: Percents, answer: bool)
    requires InEpisode(v) && !v.incompleteBalloon && !v.ballooningDown
    ensures var left := v.memory - v.memstat.actualBalloon;
            && Requests(v.domid, Decide(v, pct, answer).events)
               == (if 1024 <= left <= 2048 then [Request(v.domid, Whole(v.memory), answer)] else [])
            && Decide(v, pct, answer).vm == v.(ballooning := !(0 <= left < 1024))
  {
    BusyPollIsMainStep(v, pct, answer);
    BusyRequests(v, answer);
    CheckMeaning(v);
    BackMeaning(v.memory);
  }

  // ---------- The rest ----------

  lemma FirstStepAtOnce(v: Vm, answer: bool)
    requires v.ballooning && v.incompleteBalloon && v.memstat.actualBalloon > 0
    ensures BusyStep(v, answer)
         == Outcome(AfterGiveBack(v, answer), [GiveBack(GiveBackTarget(v.memory), v.memory, answer)])
  {
    assert [] + [GiveBack(GiveBackTarget(v.memory), v.memory, answer)]
        == [GiveBack(GiveBackTarget(v.memory), v.memory, answer)];
  }

  /** A guest that is found squeezed is asked back in the same poll, unless it may not be ballooned;
      then that stays owed. */
  lemma SqueezedPoll(v: Vm, pct: Percents, answer: bool)
    requires !v.ballooning && HasStatistics(v.memstat) && v.memory > v.currentMem
    ensures var o, w := Decide(v, pct, answer), v.(ballooning := true, incompleteBalloon := true);
            var r := Requests(v.domid, o.events);
            if v.lockall || v.enableFpr then r == [] && o.vm == w
            else
              && r == [Request(v.domid, AlmostWhole(v.memory), answer)]
              && o.vm == (if answer then w.(ballooningDown := false, incompleteBalloon := false,
                                            currentActualBalloon := [0, 0], balloonI := 0) else w)
  {
    var w := v.(ballooning := true, incompleteBalloon := true);
    StatisticsAreOk(v.memstat);
    assert Detect(v).vm == w && RecordPressure(w).vm == w;
    OnlyMainStepRequests(v, w, pct, answer);
    BackMeaning(v.memory);
    FirstStepAtOnce(w, answer);
    RequestsOfFew(v.domid, MainStep(w, pct, answer).events);
  }

  /** Every other guest is left alone: an idle one that is not looked at, apart from remembering
      that it was under pressure, and one in an episode that may not be ballooned or shows no
      size. */
  lemma QuietPoll(v: Vm, pct: Percents, answer: bool)
    requires if v.ballooning then v.lockall || v.enableFpr || v.memstat.actualBalloon == 0
             else !LookedAt(v) && !(HasStatistics(v.memstat) && v.memory > v.currentMem)
    ensures var o := Decide(v, pct, answer);
            && Requests(v.domid, o.events) == []
            && o.vm == if Pressure in o.events then v.(needBalloonFlag := 1) else v
  {
    var w := RecordPressure(v).vm;
    StatisticsAreOk(v.memstat);
    assert Detect(v).vm == v;
    OnlyMainStepRequests(v, w, pct, answer);
    DecideLooks(v, pct, answer, Above);
    assert MainStep(w, pct, answer) == Outcome(w, []);
  }
}
