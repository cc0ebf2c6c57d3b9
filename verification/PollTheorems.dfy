/** What one poll of one record can and cannot do. */
module PollTheorems {
  import opened Machine
  import opened Vm
  import opened Balloon
  import opened Automaton
  import opened TraceTheorems

  // ---------- Phases ----------

  datatype Phase = Idle | Inflating | MustReturn | Returning

  function PhaseOf(v: Vm): Phase {
    if !v.ballooning then Idle
    else if v.incompleteBalloon then MustReturn
    else if v.ballooningDown then Inflating
    else Returning
  }

  /** An inflating guest is never dropped, and memory on its way back is never taken again. */
  predicate Edge(p: Phase, q: Phase) {
    match p
    case Idle => true
    case Inflating => q != Idle
    case MustReturn => q == MustReturn || q == Returning
    case Returning => q == Returning || q == Idle
  }

  lemma MainStepPhase(v: Vm, pct: Percents, answer: bool)
    requires v.ballooningDown || v.incompleteBalloon ==> v.ballooning
    ensures Edge(PhaseOf(v), PhaseOf(MainStep(v, pct, answer).vm))
  {
  }

  /** Every poll of every reachable record moves along an edge. */
  lemma PollFollowsEdge(t: Trace, v: Vm, pct: Percents, answer: bool)
    requires Explains(t, v)
    ensures Edge(PhaseOf(v), PhaseOf(Decide(v, pct, answer).vm))
  {
    EpisodeSafety(t);
    if v.ballooning {
      assert Detect(v).vm == v && RecordPressure(v).vm == v;
      MainStepPhase(v, pct, answer);
    }
  }

  // ---------- Requests ----------

  /** Events that send nothing do not show among the requests. */
  lemma {:induction false} SilentPrefix(domid: i32, a: Trace, b: Trace)
    requires Requests(domid, a) == []
    ensures Requests(domid, a + b) == Requests(domid, b)
  {
    if b == [] {
      assert a + b == a;
    } else {
      var p := b[..|b| - 1];
      SilentPrefix(domid, a, p);
      assert (a + b)[..|a + b| - 1] == a + p;
    }
  }

  /** What the main loop may send for one record. */
  ghost predicate Modest(r: seq<Request>, v: Vm, answer: bool) {
    && |r| <= 1
    && (r != [] ==> v.memstat.actualBalloon != 0 && !v.lockall && !v.enableFpr)
    && (r != [] ==> r[0].domid == v.domid && r[0].accepted == answer)
  }

  lemma RequestsOfFew(domid: i32, t: Trace)
    requires |t| <= 1 || (|t| == 2 && !t[0].IsRequest())
    ensures Requests(domid, t) == if t == [] then [] else RequestOf(domid, t[|t| - 1])
  {
    if |t| > 0 {
      assert Requests(domid, t[..|t| - 1]) == [] by {
        if |t| == 2 {
          assert t[..1] == [t[0]] && t[..1][..0] == [];
        }
      }
    }
  }

  /** A step ends with its request, if it makes one. */
  ghost predicate EndsWithRequest(t: Trace, answer: bool) {
    && (|t| <= 1 || (|t| == 2 && !t[0].IsRequest()))
    && (t != [] && t[|t| - 1].IsRequest() ==> t[|t| - 1].accepted == answer)
  }

  lemma BusyStepEvents(v: Vm, answer: bool)
    ensures EndsWithRequest(BusyStep(v, answer).events, answer)
  {
  }

  lemma MainStepEvents(v: Vm, pct: Percents, answer: bool)
    ensures var e := MainStep(v, pct, answer).events;
            && EndsWithRequest(e, answer)
            && (e != [] && e[|e| - 1].IsRequest() ==> v.memstat.actualBalloon != 0 && !v.lockall && !v.enableFpr)
  {
    BusyStepEvents(v, answer);
  }

  lemma MainStepRequests(v: Vm, pct: Percents, answer: bool)
    ensures Modest(Requests(v.domid, MainStep(v, pct, answer).events), v, answer)
  {
    MainStepEvents(v, pct, answer);
    RequestsOfFew(v.domid, MainStep(v, pct, answer).events);
  }

  lemma FirstPassesAreSilent(v: Vm)
    ensures Requests(v.domid, Detect(v).events + RecordPressure(Detect(v).vm).events) == []
  {
    var e := Detect(v).events + RecordPressure(Detect(v).vm).events;
    assert |e| <= 2 && forall i | 0 <= i < |e| :: !e[i].IsRequest();
    RequestsOfFew(v.domid, e);
  }

  /** Only the main loop sends requests: the passes before it are silent. */
  lemma OnlyMainStepRequests(v: Vm, w: Vm, pct: Percents, answer: bool)
    requires w == RecordPressure(Detect(v).vm).vm
    ensures Requests(v.domid, Decide(v, pct, answer).events) == Requests(v.domid, MainStep(w, pct, answer).events)
    ensures Decide(v, pct, answer).vm == MainStep(w, pct, answer).vm
  {
    FirstPassesAreSilent(v);
    var silent, rest := Detect(v).events + RecordPressure(Detect(v).vm).events, MainStep(w, pct, answer).events;
    SilentPrefix(v.domid, silent, rest);
    DecideEvents(v, w, pct, answer);
  }

  lemma DecideEvents(v: Vm, w: Vm, pct: Percents, answer: bool)
    requires w == RecordPressure(Detect(v).vm).vm
    ensures var silent := Detect(v).events + RecordPressure(Detect(v).vm).events;
            Decide(v, pct, answer) == Outcome(MainStep(w, pct, answer).vm, silent + MainStep(w, pct, answer).events)
  {
  }

  lemma FirstPassesKeep(v: Vm)
    ensures var w := RecordPressure(Detect(v).vm).vm;
            w.memstat == v.memstat && w.lockall == v.lockall && w.enableFpr == v.enableFpr && w.domid == v.domid
  {
  }

  /** At most one request is sent to a record in one poll, and none on stale or missing
      statistics, or to a record that must not be ballooned. */
  lemma PollRequests(v: Vm, pct: Percents, answer: bool)
    ensures Modest(Requests(v.domid, Decide(v, pct, answer).events), v, answer)
  {
    var w := RecordPressure(Detect(v).vm).vm;
    FirstPassesKeep(v);
    OnlyMainStepRequests(v, w, pct, answer);
    MainStepRequests(w, pct, answer);
  }

  /** An inflate is requested only from an idle, running guest that has its full memory. */
  lemma InflateNeedsFullMemory(v: Vm, pct: Percents, answer: bool, i: nat)
    ensures var t := Decide(v, pct, answer).events;
            i < |t| && t[i].Inflate? ==>
              && !v.ballooning && v.state == RUNNING && v.currentMem >= v.memory
              && t[i].target == TargetOf(v, pct) > 0 && t[i].currentMem == v.currentMem && t[i].memory == v.memory
  {
  }

  // ---------- Unsigned windows ----------

  /** The unsigned tests of the balloon check are the intended windows: at most 1 MiB above the
      target, less than 1 MiB or at most 2 MiB below the memory. */
  lemma WindowsAreExact(v: Vm)
    requires v.memory >= 0 && v.memstat.actualBalloon < TWO63 && v.balloonTarget >= 0
    ensures var a, m, b := v.memstat.actualBalloon, v.memory, v.balloonTarget;
            && (SubU(a, b) < LOW_WATER_MARK <==> b <= a < b + LOW_WATER_MARK)
            && (SubU(m, a) < LOW_WATER_MARK <==> 0 <= m - a < LOW_WATER_MARK)
            && (SubU(m, a) <= BACK_RESERVED_KB <==> 0 <= m - a <= BACK_RESERVED_KB)
  {
    UnsignedWindow(v.memstat.actualBalloon, v.balloonTarget, LOW_WATER_MARK);
    UnsignedWindow(v.memory, v.memstat.actualBalloon, LOW_WATER_MARK);
    UnsignedWindow(v.memory, v.memstat.actualBalloon, BACK_RESERVED_KB);
  }

  /** The first step back stays below the memory, as intended, exactly from 2 MiB on; for a
      smaller memory the subtraction wraps and asks for nearly 2^64 KiB. */
  lemma GiveBackTargetIsBelowMemory(memory: i64)
    requires memory >= 0
    ensures GiveBackTarget(memory) <= memory <==> memory >= BACK_RESERVED_KB
    ensures memory >= BACK_RESERVED_KB ==> GiveBackTarget(memory) == memory - BACK_RESERVED_KB
    ensures memory < BACK_RESERVED_KB ==> GiveBackTarget(memory) > TWO64 - BACK_RESERVED_KB - 1
  {
  }
}
