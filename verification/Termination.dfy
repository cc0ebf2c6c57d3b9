/** An episode of one guest from the first inflate to the end. It ends; it can end before the guest
    was offered its whole memory, and then begins again; and in the end the last request the
    hypervisor accepted is for the whole memory. */
module Termination {
  import opened Machine
  import opened Vm
  import opened Balloon
  import opened Automaton
  import opened TraceTheorems
  import opened PollTheorems

  /** A record together with the size its hypervisor last accepted. */
  datatype Cycle = Cycle(vm: Vm, goal: int)

  /** What a poll finds: fresh statistics, and the answer to a request it may make. */
  datatype Tick = Tick(stat: MemStat, answer: bool)

  function NewGoal(goal: int, t: Trace): int {
    if t == [] then goal
    else if t[|t| - 1].Accepted() then t[|t| - 1].target
    else NewGoal(goal, t[..|t| - 1])
  }

  /** The goal is the target of the last accepted request. */
  predicate GoalOf(t: Trace, goal: int) { LastAccepted(t) != [] && LastAccepted(t)[0].target == goal }

  lemma {:induction false} GoalIsLast(goal: int, t: Trace)
    ensures NewGoal(goal, t) == if LastAccepted(t) != [] then LastAccepted(t)[0].target else goal
  {
    if t != [] {
      GoalIsLast(goal, t[..|t| - 1]);
    }
  }

  lemma GoalGrows(t: Trace, goal: int, u: Trace)
    requires GoalOf(t, goal)
    ensures GoalOf(t + u, NewGoal(goal, u))
  {
    GoalIsLast(goal, u);
    LastAcceptedConcat(t, u);
  }

  /** The record a poll decides on. */
  function Refreshed(v: Vm, s: MemStat): Vm {
    v.(memstat := s, currentMem := ToI64(s.actualBalloon))
  }

  function Poll(c: Cycle, t: Tick, pct: Percents): Cycle {
    var o := Decide(Refreshed(c.vm, t.stat), pct, t.answer);
    Cycle(o.vm, NewGoal(c.goal, o.events))
  }

  function Run(c: Cycle, ticks: seq<Tick>, pct: Percents): Cycle
    decreases |ticks|
  {
    if ticks == [] then c else Run(Poll(c, ticks[0], pct), ticks[1..], pct)
  }

  function Refusals(ticks: seq<Tick>): nat {
    if ticks == [] then 0 else (if ticks[0].answer then 0 else 1) + Refusals(ticks[1..])
  }

  /** At least 1 KiB toward the accepted size, and not past it. */
  predicate Moves(a: int, b: int, goal: int) {
    if a < goal then a < b <= goal else if a > goal then goal <= b < a else b == a
  }

  /** What a guest may do between two polls: while inflating it never grows, while returning it
      moves. If the daemon believes that the guest is back, it moves on and reports valid
      statistics. */
  predicate Cooperative(c: Cycle, s: MemStat) {
    var a, b := c.vm.memstat.actualBalloon, s.actualBalloon;
    && 0 < b <= c.vm.memory
    && match PhaseOf(c.vm)
       case Idle => Moves(a, b, c.goal) && StatOk(s)
       case Inflating => b <= a
       case MustReturn => true
       case Returning => Moves(a, b, c.goal)
  }

  predicate Idling(c: Cycle) { PhaseOf(c.vm).Idle? }

  /** Back, and asked for the whole memory. */
  predicate Restored(c: Cycle) { Idling(c) && c.goal == c.vm.memory }

  /** The guest cooperates until the daemon believes that it is back. */
  predicate CooperativeRun(c: Cycle, ticks: seq<Tick>, pct: Percents)
    decreases |ticks|
  {
    ticks == [] || Idling(c)
    || (Cooperative(c, ticks[0].stat) && CooperativeRun(Poll(c, ticks[0], pct), ticks[1..], pct))
  }

  /** The guest cooperates until it is settled. */
  predicate CooperativeOn(c: Cycle, ticks: seq<Tick>, pct: Percents)
    decreases |ticks|
  {
    ticks == [] || Restored(c)
    || (Cooperative(c, ticks[0].stat) && CooperativeOn(Poll(c, ticks[0], pct), ticks[1..], pct))
  }

  function LastSample(v: Vm): int { v.currentActualBalloon[1 - v.balloonI] }

  /** A record in an episode, or between an end that came too early and the next beginning. */
  predicate Live(c: Cycle) {
    var v, a := c.vm, c.vm.memstat.actualBalloon;
    && BACK_RESERVED_KB <= v.memory && 0 < a <= v.memory && !v.lockall && !v.enableFpr
    && match PhaseOf(v)
       case Idle => c.goal == v.memory - BACK_RESERVED_KB < a
       case Inflating => v.balloonTarget >= 0 && (LastSample(v) == 0 || LastSample(v) == a)
       case MustReturn => true
       case Returning => c.goal == v.memory || c.goal == v.memory - BACK_RESERVED_KB
  }

  /** A record in the middle of an episode. */
  predicate Busy(c: Cycle) { Live(c) && !Idling(c) }

  const LAST_POLLS: int := BACK_RESERVED_KB + 2

  /** Polls the rest can take as long as requests are accepted. */
  function Bound(c: Cycle): int {
    var v, a := c.vm, c.vm.memstat.actualBalloon;
    match PhaseOf(v)
    case Idle => a - c.goal + LAST_POLLS
    case Inflating =>
      v.memory + 2 * LAST_POLLS + 1 + (if LastSample(v) == 0 then 1 + v.memory / LOW_BALLOON_SIZE_KB
                                       else LastSample(v) / LOW_BALLOON_SIZE_KB)
    case MustReturn => v.memory + 2 * LAST_POLLS
    case Returning =>
      if c.goal == v.memory then v.memory - a + 1
      else if a < c.goal then c.goal - a + LAST_POLLS
      else a - c.goal + LAST_POLLS
  }

  /** Polls a refusal can cost. */
  function Setback(c: Cycle): int { c.vm.memory + 2 * LAST_POLLS + 1 }

  /** It is over, or fewer polls remain than before, except for what a refusal costs. */
  predicate Advanced(c: Cycle, d: Cycle, answer: bool) {
    && d.vm.memory == c.vm.memory
    && (Restored(d) || (Live(d) && Bound(d) < Bound(c) + if answer then 0 else Setback(c)))
  }

  // ---------- One poll ----------

  lemma BusyPollIsMainStep(c: Cycle, t: Tick, pct: Percents)
    requires c.vm.ballooning
    ensures var m := MainStep(Refreshed(c.vm, t.stat), pct, t.answer);
            Poll(c, t, pct) == Cycle(m.vm, NewGoal(c.goal, m.events))
  {
    var v := Refreshed(c.vm, t.stat);
    var m := MainStep(v, pct, t.answer);
    assert Detect(v) == Outcome(v, []) && RecordPressure(v) == Outcome(v, []);
    assert Decide(v, pct, t.answer).events == [] + [] + m.events == m.events;
  }

  lemma GoalAfter(goal: int, t: Trace, e: Event)
    ensures NewGoal(goal, t + [e]) == if e.Accepted() then e.target else NewGoal(goal, t)
  {
    assert (t + [e])[..|t|] == t;
  }

  /** What a poll that asks for the first step back leads to. */
  predicate AskedBack(c: Cycle, t: Tick, d: Cycle) {
    && d.vm.memory == c.vm.memory && d.vm.memstat == t.stat && Busy(d)
    && (if t.answer then PhaseOf(d.vm).Returning? && d.goal == c.vm.memory - BACK_RESERVED_KB
        else PhaseOf(d.vm).MustReturn?)
  }

  lemma GivingBack(c: Cycle, t: Tick, pct: Percents)
    requires Busy(c) && Cooperative(c, t.stat) && BalloonCheck(Refreshed(c.vm, t.stat)).verdict.BackFirst?
    ensures AskedBack(c, t, Poll(c, t, pct))
  {
    BusyPollIsMainStep(c, t, pct);
    var k := BalloonCheck(Refreshed(c.vm, t.stat));
    var back := GiveBack(GiveBackTarget(k.vm.memory), k.vm.memory, t.answer);
    GoalAfter(c.goal, k.events, back);
    assert MainStep(Refreshed(c.vm, t.stat), pct, t.answer) == GiveBackStep(k, t.answer);
    GiveBackTargetIsBelowMemory(c.vm.memory);
  }

  lemma AskedBackAdvances(c: Cycle, t: Tick, d: Cycle)
    requires Live(c) && Cooperative(c, t.stat) && !PhaseOf(c.vm).Returning? && AskedBack(c, t, d)
    ensures Advanced(c, d, t.answer) && Live(d)
  {
  }

  /** A speed test that is passed cost the guest at least 300 MiB. */
  lemma SpeedTestPassed(v: Vm)
    requires !SpeedTest(v).verdict.BackFirst? && 0 < v.memstat.actualBalloon < TWO63
    requires LastSample(v) == 0 || LastSample(v) >= v.memstat.actualBalloon
    ensures var w, a := SpeedTest(v).vm, v.memstat.actualBalloon;
            && LastSample(w) == a
            && (LastSample(v) != 0 ==> a <= LastSample(v) - LOW_BALLOON_SIZE_KB)
  {
    var a: int, p: int := v.memstat.actualBalloon, LastSample(v);
    InRangeUnchanged(a);
    InRangeUnchanged(a - p);
    InRangeUnchanged(p - a);
    var ring := Record(v.currentActualBalloon, v.balloonI, a);
    assert ring == if v.balloonI == 0 then [a, p] else [p, a];
  }

  lemma InflatingWaits(c: Cycle, t: Tick, pct: Percents)
    requires Busy(c) && PhaseOf(c.vm).Inflating? && Cooperative(c, t.stat)
    requires !BalloonCheck(Refreshed(c.vm, t.stat)).verdict.BackFirst?
    ensures Poll(c, t, pct).vm == SpeedTest(Refreshed(c.vm, t.stat)).vm
    ensures !SpeedTest(Refreshed(c.vm, t.stat)).verdict.BackFirst?
  {
    BusyPollIsMainStep(c, t, pct);
  }

  lemma FewerPollsLeft(c: Cycle, d: Cycle)
    requires Busy(c) && PhaseOf(c.vm).Inflating? && Busy(d) && PhaseOf(d.vm).Inflating?
    requires d.vm.memory == c.vm.memory && LastSample(d.vm) == d.vm.memstat.actualBalloon
    requires LastSample(c.vm) != 0 ==> LastSample(d.vm) <= LastSample(c.vm) - LOW_BALLOON_SIZE_KB
    ensures Bound(d) < Bound(c)
  {
  }

  lemma InflatingAdvances(c: Cycle, t: Tick, pct: Percents)
    requires Busy(c) && PhaseOf(c.vm).Inflating? && Cooperative(c, t.stat)
    ensures var d := Poll(c, t, pct);
            Advanced(c, d, t.answer) && Busy(d) && (!PhaseOf(d.vm).Inflating? ==> AskedBack(c, t, d))
  {
    var v := Refreshed(c.vm, t.stat);
    if BalloonCheck(v).verdict.BackFirst? {
      GivingBack(c, t, pct);
      AskedBackAdvances(c, t, Poll(c, t, pct));
    } else {
      InflatingWaits(c, t, pct);
      SpeedTestPassed(v);
      FewerPollsLeft(c, Poll(c, t, pct));
    }
  }

  lemma MustReturnAdvances(c: Cycle, t: Tick, pct: Percents)
    requires Busy(c) && PhaseOf(c.vm).MustReturn? && Cooperative(c, t.stat)
    ensures Advanced(c, Poll(c, t, pct), t.answer) && AskedBack(c, t, Poll(c, t, pct))
  {
    GivingBack(c, t, pct);
    AskedBackAdvances(c, t, Poll(c, t, pct));
  }

  /** A guest that is returning: it is taken for returned, asked for the rest, or waited for. */
  lemma ReturningPoll(c: Cycle, t: Tick, pct: Percents)
    requires Busy(c) && PhaseOf(c.vm).Returning? && 0 < t.stat.actualBalloon <= c.vm.memory
    ensures var d, left := Poll(c, t, pct), c.vm.memory - t.stat.actualBalloon;
            && d.vm == Refreshed(c.vm, t.stat).(ballooning := left >= LOW_WATER_MARK)
            && d.goal == if LOW_WATER_MARK <= left <= BACK_RESERVED_KB && t.answer then c.vm.memory else c.goal
  {
    BusyPollIsMainStep(c, t, pct);
    var v := Refreshed(c.vm, t.stat);
    WindowsAreExact(v.(balloonTarget := 0));
    var m := MainStep(v, pct, t.answer);
    var left: int := v.memory - t.stat.actualBalloon;
    if left < LOW_WATER_MARK {
      GoalAfter(c.goal, [], Done(v.memory, t.stat.actualBalloon));
      assert m.events == [] + [Done(v.memory, t.stat.actualBalloon)];
    } else if left <= BACK_RESERVED_KB {
      GoalAfter(c.goal, [], Restore(v.memory, v.memory, t.answer));
      assert m.events == [] + [Restore(v.memory, v.memory, t.answer)];
    }
  }

  lemma ReturningAdvances(c: Cycle, t: Tick, pct: Percents)
    requires Busy(c) && PhaseOf(c.vm).Returning? && Cooperative(c, t.stat)
    ensures Advanced(c, Poll(c, t, pct), t.answer)
  {
    ReturningPoll(c, t, pct);
  }

  /** A guest that was believed back too early is found squeezed and asked back again. */
  lemma EarlyGuestIsAskedBack(c: Cycle, t: Tick, pct: Percents)
    requires Live(c) && Idling(c) && Cooperative(c, t.stat)
    ensures AskedBack(c, t, Poll(c, t, pct))
  {
    var v := Refreshed(c.vm, t.stat);
    InRangeUnchanged(t.stat.actualBalloon);
    var w := v.(ballooning := true, incompleteBalloon := true);
    assert Detect(v) == Outcome(w, [Squeezed]) && RecordPressure(w) == Outcome(w, []);
    var back := GiveBack(GiveBackTarget(v.memory), v.memory, t.answer);
    assert BalloonCheck(w) == Check(BackFirst, w, []);
    assert MainStep(w, pct, t.answer) == Outcome(AfterGiveBack(w, t.answer), [] + [back]);
    assert Decide(v, pct, t.answer).events == [Squeezed] + [back];
    GoalAfter(c.goal, [Squeezed], back);
    GoalAfter(c.goal, [], Squeezed);
    assert [] + [Squeezed] == [Squeezed];
    GiveBackTargetIsBelowMemory(c.vm.memory);
  }

  /** Every cooperative poll advances. */
  lemma PollAdvances(c: Cycle, t: Tick, pct: Percents)
    requires Live(c) && Cooperative(c, t.stat)
    ensures Advanced(c, Poll(c, t, pct), t.answer)
  {
    match PhaseOf(c.vm) {
      case Idle =>
        EarlyGuestIsAskedBack(c, t, pct);
        AskedBackAdvances(c, t, Poll(c, t, pct));
      case Inflating => InflatingAdvances(c, t, pct);
      case MustReturn => MustReturnAdvances(c, t, pct);
      case Returning => ReturningAdvances(c, t, pct);
    }
  }

  // ---------- Whole runs ----------

  lemma RunStep(c: Cycle, ticks: seq<Tick>, pct: Percents, k: nat)
    requires k < |ticks|
    ensures Run(c, ticks[..k + 1], pct) == Run(Poll(c, ticks[0], pct), ticks[1..][..k], pct)
  {
    assert ticks[..k + 1][1..] == ticks[1..][..k];
  }

  /** Enough polls: the bound, and what every refusal can cost. */
  predicate LongEnough(c: Cycle, ticks: seq<Tick>) {
    |ticks| >= Bound(c) + Refusals(ticks) * Setback(c)
  }

  lemma Paid(length: int, before: int, after: int, refusals: nat, price: int, answer: bool)
    requires length >= before + (refusals + if answer then 0 else 1) * price
    requires after < before + if answer then 0 else price
    ensures length - 1 >= after + refusals * price
  {
    assert (refusals + 1) * price == refusals * price + price;
  }

  lemma StillLongEnough(c: Cycle, ticks: seq<Tick>, d: Cycle)
    requires ticks != [] && LongEnough(c, ticks) && Live(d) && Advanced(c, d, ticks[0].answer) && !Restored(d)
    ensures LongEnough(d, ticks[1..])
  {
    Paid(|ticks|, Bound(c), Bound(d), Refusals(ticks[1..]), Setback(c), ticks[0].answer);
  }

  /** Whatever happens in between, in the end the last accepted request is for the whole memory:
      however often the hypervisor refuses, as long as it is often enough that it does not. */
  lemma {:induction false} EpisodeSettles(c: Cycle, ticks: seq<Tick>, pct: Percents) returns (n: nat)
    requires Live(c) && CooperativeOn(c, ticks, pct) && LongEnough(c, ticks)
    ensures n <= |ticks| && Restored(Run(c, ticks[..n], pct))
    decreases |ticks|
  {
    var d := OneMorePoll(c, ticks, pct);
    if Restored(d) {
      n := 1;
      RunStep(c, ticks, pct, 0);
    } else {
      var k := EpisodeSettles(d, ticks[1..], pct);
      RunStep(c, ticks, pct, k);
      n := k + 1;
    }
  }

  lemma OneMorePoll(c: Cycle, ticks: seq<Tick>, pct: Percents) returns (d: Cycle)
    requires Live(c) && CooperativeOn(c, ticks, pct) && LongEnough(c, ticks)
    ensures ticks != [] && d == Poll(c, ticks[0], pct) && Cooperative(c, ticks[0].stat)
    ensures !Restored(d) ==> Live(d) && CooperativeOn(d, ticks[1..], pct) && LongEnough(d, ticks[1..])
  {
    BoundIsPositive(c, ticks);
    d := Poll(c, ticks[0], pct);
    PollAdvances(c, ticks[0], pct);
    if !Restored(d) { StillLongEnough(c, ticks, d); }
  }

  lemma BoundIsPositive(c: Cycle, ticks: seq<Tick>)
    requires Live(c) && LongEnough(c, ticks)
    ensures Bound(c) > 0 && ticks != []
  {
    assert Refusals(ticks) * Setback(c) >= 0;
  }

  /** The guest is taken for returned although only the first step back was accepted. */
  predicate EarlyNow(c: Cycle, s: MemStat) {
    && PhaseOf(c.vm).Returning? && c.goal == c.vm.memory - BACK_RESERVED_KB
    && c.vm.memory - s.actualBalloon < LOW_WATER_MARK
  }

  /** That happens at the end of the episode. */
  predicate Early(c: Cycle, ticks: seq<Tick>, pct: Percents)
    decreases |ticks|
  {
    ticks != [] && !Idling(c)
    && (EarlyNow(c, ticks[0].stat) || Early(Poll(c, ticks[0], pct), ticks[1..], pct))
  }

  /** Every episode ends, and when it does the last accepted request is for the whole memory exactly
      if it does not end early. */
  lemma {:induction false} EpisodeEnds(c: Cycle, ticks: seq<Tick>, pct: Percents) returns (n: nat)
    requires Busy(c) && CooperativeRun(c, ticks, pct) && LongEnough(c, ticks)
    ensures n <= |ticks| && Idling(Run(c, ticks[..n], pct))
    ensures Run(c, ticks[..n], pct).goal == c.vm.memory <==> !Early(c, ticks, pct)
    decreases |ticks|
  {
    BoundIsPositive(c, ticks);
    var t := ticks[0];
    var d := Poll(c, t, pct);
    PollAdvances(c, t, pct);
    RunStep(c, ticks, pct, 0);
    IdlingAfter(c, t, pct);
    if Idling(d) {
      n := 1;
      assert Run(d, ticks[1..][..0], pct) == d;
    } else {
      StillLongEnough(c, ticks, d);
      var k := EpisodeEnds(d, ticks[1..], pct);
      RunStep(c, ticks, pct, k);
      n := k + 1;
    }
  }

  /** One poll ends an episode only from the last phase, and early or with the whole memory. */
  lemma IdlingAfter(c: Cycle, t: Tick, pct: Percents)
    requires Busy(c) && Cooperative(c, t.stat)
    ensures var d := Poll(c, t, pct);
            && (EarlyNow(c, t.stat) ==> Idling(d))
            && (Idling(d) ==> (d.goal == c.vm.memory <==> !EarlyNow(c, t.stat)))
  {
    match PhaseOf(c.vm) {
      case Inflating => InflatingAdvances(c, t, pct);
      case MustReturn => MustReturnAdvances(c, t, pct);
      case Returning => ReturningPoll(c, t, pct);
    }
  }

  // ---------- When an episode ends early ----------

  /** Far enough below its memory, or already asked for all of it. */
  predicate Clear(c: Cycle) {
    PhaseOf(c.vm).Returning?
    && (c.goal == c.vm.memory || c.vm.memstat.actualBalloon <= c.vm.memory - LOW_WATER_MARK + 1)
  }

  lemma {:induction false} ClearIsNotEarly(c: Cycle, ticks: seq<Tick>, pct: Percents)
    requires Busy(c) && Clear(c) && CooperativeRun(c, ticks, pct)
    ensures !Early(c, ticks, pct)
    decreases |ticks|
  {
    if ticks != [] {
      ReturningPoll(c, ticks[0], pct);
      ReturningAdvances(c, ticks[0], pct);
      if !Idling(Poll(c, ticks[0], pct)) {
        ClearIsNotEarly(Poll(c, ticks[0], pct), ticks[1..], pct);
      }
    }
  }

  predicate CanEndEarly(c: Cycle, ticks: seq<Tick>, pct: Percents) {
    CooperativeRun(c, ticks, pct) && Early(c, ticks, pct)
  }

  /** Once the first step back was accepted, the episode of some cooperative guest ends early
      exactly when it is at most 1022 KiB below its memory then. */
  lemma EarlyEndIff(c: Cycle, pct: Percents)
    requires Busy(c) && PhaseOf(c.vm).Returning? && c.goal == c.vm.memory - BACK_RESERVED_KB
    ensures (exists ticks :: CanEndEarly(c, ticks, pct))
       <==> c.vm.memory - c.vm.memstat.actualBalloon <= LOW_WATER_MARK - 2
  {
    if c.vm.memory - c.vm.memstat.actualBalloon <= LOW_WATER_MARK - 2 {
      var t := Tick(c.vm.memstat.(actualBalloon := c.vm.memstat.actualBalloon - 1), true);
      assert [t][1..] == [];
      assert CanEndEarly(c, [t], pct);
    } else {
      forall ticks ensures !CanEndEarly(c, ticks, pct) {
        if CooperativeRun(c, ticks, pct) { ClearIsNotEarly(c, ticks, pct); }
      }
    }
  }

  /** Until memory is given back, the guest is at least 1 MiB below its memory. */
  predicate Deflated(c: Cycle, ticks: seq<Tick>, pct: Percents)
    decreases |ticks|
  {
    ticks == [] || PhaseOf(c.vm).Returning? || Idling(c)
    || (ticks[0].stat.actualBalloon <= c.vm.memory - LOW_WATER_MARK
        && Deflated(Poll(c, ticks[0], pct), ticks[1..], pct))
  }

  /** The episode of a guest that did deflate does not end early. */
  lemma {:induction false} DeflatedIsNotEarly(c: Cycle, ticks: seq<Tick>, pct: Percents)
    requires Busy(c) && CooperativeRun(c, ticks, pct) && Deflated(c, ticks, pct)
    requires PhaseOf(c.vm).Returning? ==> Clear(c)
    ensures !Early(c, ticks, pct)
    decreases |ticks|
  {
    if Clear(c) {
      ClearIsNotEarly(c, ticks, pct);
    } else if ticks != [] {
      if PhaseOf(c.vm).Inflating? {
        InflatingAdvances(c, ticks[0], pct);
      } else {
        MustReturnAdvances(c, ticks[0], pct);
      }
      DeflatedIsNotEarly(Poll(c, ticks[0], pct), ticks[1..], pct);
    }
  }

  /** An accepted inflate starts an episode to which all this applies. */
  lemma InflateStartsEpisode(t: Trace, v: Vm, pct: Percents)
    requires Explains(t, v) && !v.lockall && !v.enableFpr && pct.Loadable()
    requires BACK_RESERVED_KB <= v.memory && 0 < v.memstat.actualBalloon <= v.memory
    requires PhaseOf(v).Idle? && PhaseOf(Decide(v, pct, true).vm).Inflating?
    ensures var w := Decide(v, pct, true).vm;
            Busy(Cycle(w, TargetOf(v, pct))) && w.memory == v.memory && w.memstat == v.memstat
  {
    SpeedTestMeaning(t);
  }

  // ---------- Guests ----------

  /** The statistics of a guest that uses a tenth of what it has. */
  function StatOf(size: u64): MemStat { MemStat(size, 1000, 0, 900, 0) }

  /** The size a guest that does just what is asked of it has next. */
  function Obeyed(c: Cycle): (b: u64)
    requires Live(c) && c.vm.memory > BACK_RESERVED_KB
    ensures Cooperative(c, StatOf(b))
  {
    var a := c.vm.memstat.actualBalloon;
    var moving := PhaseOf(c.vm).Returning? || Idling(c);
    if moving && a < c.goal then a + 1 else if moving && a > c.goal then a - 1 else a
  }

  lemma ObeyedPoll(c: Cycle, answer: bool, pct: Percents) returns (t: Tick, d: Cycle)
    requires Live(c) && c.vm.memory > BACK_RESERVED_KB
    ensures t == Tick(StatOf(t.stat.actualBalloon), answer) && Cooperative(c, t.stat) && d == Poll(c, t, pct)
    ensures !Restored(d) ==> Live(d) && d.vm.memory == c.vm.memory
  {
    t := Tick(StatOf(Obeyed(c)), answer);
    d := Poll(c, t, pct);
    PollAdvances(c, t, pct);
  }

  predicate Answered(ticks: seq<Tick>, answers: seq<bool>) {
    |ticks| == |answers|
    && forall i | 0 <= i < |ticks| :: ticks[i] == Tick(StatOf(ticks[i].stat.actualBalloon), answers[i])
  }

  lemma AnsweredOneMore(t: Tick, rest: seq<Tick>, answers: seq<bool>)
    requires answers != [] && Answered(rest, answers[1..]) && t == Tick(StatOf(t.stat.actualBalloon), answers[0])
    ensures Answered([t] + rest, answers) && ([t] + rest)[1..] == rest
  {
  }

  /** Cooperative guests exist: from every state, for all answers, there is a run of a guest that
      cooperates. */
  lemma {:induction false} CooperativeRunsExist(c: Cycle, answers: seq<bool>, pct: Percents) returns (ticks: seq<Tick>)
    requires Live(c) && c.vm.memory > BACK_RESERVED_KB
    ensures Answered(ticks, answers) && CooperativeOn(c, ticks, pct) && CooperativeRun(c, ticks, pct)
    decreases |answers|
  {
    ticks := [];
    if answers != [] {
      var t, d := ObeyedPoll(c, answers[0], pct);
      var rest;
      if Restored(d) {
        rest := seq(|answers| - 1, i requires 0 <= i < |answers| - 1 => Tick(t.stat, answers[i + 1]));
      } else {
        rest := CooperativeRunsExist(d, answers[1..], pct);
      }
      AnsweredOneMore(t, rest, answers);
      ticks := [t] + rest;
    }
  }

  /** A guest that does not shrink is found slow at the second sample at the latest. */
  lemma SecondSampleIsSlow(c: Cycle, t: Tick, pct: Percents)
    requires Busy(c) && PhaseOf(c.vm).Inflating? && t == Tick(c.vm.memstat, true)
    requires PhaseOf(Poll(c, t, pct).vm).Inflating?
    ensures !PhaseOf(Poll(Poll(c, t, pct), t, pct).vm).Inflating?
  {
    var d := Poll(c, t, pct);
    InflatingAdvances(c, t, pct);
    SameAfterWait(c, t, pct);
    if BalloonCheck(Refreshed(d.vm, t.stat)).verdict.BackFirst? {
      GivingBack(d, t, pct);
    } else {
      InflatingWaits(d, t, pct);
      SpeedTestPassed(Refreshed(d.vm, t.stat));
    }
  }

  lemma SameAfterWait(c: Cycle, t: Tick, pct: Percents)
    requires Busy(c) && PhaseOf(c.vm).Inflating? && t == Tick(c.vm.memstat, true)
    requires PhaseOf(Poll(c, t, pct).vm).Inflating?
    ensures var v := Poll(c, t, pct).vm;
            v.memory == c.vm.memory && v.memstat == c.vm.memstat && LastSample(v) == t.stat.actualBalloon
  {
    if BalloonCheck(Refreshed(c.vm, t.stat)).verdict.BackFirst? {
      GivingBack(c, t, pct);
    } else {
      InflatingWaits(c, t, pct);
      SpeedTestPassed(Refreshed(c.vm, t.stat));
    }
  }

  /** The guest is taken for returned after exactly these polls, with 2 MiB not given back. */
  predicate EndsEarly(c: Cycle, ticks: seq<Tick>, pct: Percents) {
    && Early(c, ticks, pct) && Idling(Run(c, ticks, pct))
    && Run(c, ticks, pct).goal == c.vm.memory - BACK_RESERVED_KB
  }

  lemma EarlyBefore(c: Cycle, t: Tick, rest: seq<Tick>, pct: Percents)
    requires !Idling(c) && Poll(c, t, pct).vm.memory == c.vm.memory && EndsEarly(Poll(c, t, pct), rest, pct)
    ensures EndsEarly(c, [t] + rest, pct)
    ensures Cooperative(c, t.stat) && CooperativeRun(Poll(c, t, pct), rest, pct) ==> CooperativeRun(c, [t] + rest, pct)
  {
    assert ([t] + rest)[1..] == rest;
  }

  /** A guest that was asked back while it had its full memory, and is still less than 1 MiB below. */
  lemma LastTick(c: Cycle, d: Cycle, t: Tick, last: Tick, pct: Percents)
    requires AskedBack(c, t, d) && t.answer && t.stat.actualBalloon == c.vm.memory
    requires c.vm.memory - LOW_WATER_MARK < last.stat.actualBalloon <= c.vm.memory
    ensures EndsEarly(d, [last], pct)
    ensures last.stat.actualBalloon == c.vm.memory - 1 ==> CooperativeRun(d, [last], pct)
  {
    assert [last][1..] == [];
    ReturningPoll(d, last, pct);
    assert Run(d, [last], pct) == Poll(d, last, pct);
  }

  /** The episode of a guest that does not shrink ends early, with every request accepted, whether it
      stays where it is or moves by just 1 KiB in the end: this follows every accepted inflate of a
      record whose guest shows its full memory. */
  lemma UnmovedGuestEndsEarly(t: Trace, v: Vm, pct: Percents, last: Tick) returns (ticks: seq<Tick>)
    requires Explains(t, v) && !v.lockall && !v.enableFpr && pct.Loadable()
    requires BACK_RESERVED_KB <= v.memory == v.memstat.actualBalloon
    requires PhaseOf(v).Idle? && PhaseOf(Decide(v, pct, true).vm).Inflating?
    requires v.memory - LOW_WATER_MARK < last.stat.actualBalloon <= v.memory && last.answer
    ensures var c := Cycle(Decide(v, pct, true).vm, TargetOf(v, pct));
            && Busy(c) && EndsEarly(c, ticks, pct)
            && (last.stat.actualBalloon == v.memory - 1 ==> CooperativeRun(c, ticks, pct))
    ensures 2 <= |ticks| <= 3 && ticks[|ticks| - 1] == last
    ensures forall i | 0 <= i < |ticks| - 1 :: ticks[i] == Tick(v.memstat, true)
  {
    InflateStartsEpisode(t, v, pct);
    var c, same := Cycle(Decide(v, pct, true).vm, TargetOf(v, pct)), Tick(v.memstat, true);
    var d := Poll(c, same, pct);
    InflatingAdvances(c, same, pct);
    if PhaseOf(d.vm).Inflating? {
      SecondSampleIsSlow(c, same, pct);
      SameAfterWait(c, same, pct);
      InflatingAdvances(d, same, pct);
      LastTick(d, Poll(d, same, pct), same, last, pct);
      EarlyBefore(d, same, [last], pct);
      EarlyBefore(c, same, [same] + [last], pct);
      ticks := [same] + ([same] + [last]);
    } else {
      LastTick(c, d, same, last, pct);
      EarlyBefore(c, same, [last], pct);
      ticks := [same] + [last];
    }
  }
}
