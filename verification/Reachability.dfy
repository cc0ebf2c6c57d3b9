/** Concrete runs of the daemon: each phase of a record is reached, and each edge between phases is
    taken by a poll of some run. */
module Reachability {
  import opened Machine
  import opened Vm
  import opened Balloon
  import opened Automaton
  import opened TargetTheorems
  import opened TraceTheorems
  import opened PollTheorems
  import opened Passes
  import opened ListSpec
  import opened RefreshSpec
  import opened Daemon
  import D = DaemonTheorems
  import T = Termination
  import L = Lineage
  import X = ExitTheorems
  import E = ExitSection

  const DOMID: i32 := 7
  const FULL: u64 := 2097152

  /** Statistics of a running guest that uses a tenth of what it has. */
  function Facts(current: u64, maximum: u64): Stats {
    Stats(DOMID, [Param(StateState, RUNNING, 0), Param(BalloonCurrent, 0, current), Param(BalloonMaximum, 0, maximum),
                  Param(BalloonAvailable, 0, 1000), Param(BalloonUsable, 0, 900)])
  }

  function Informed(v: Vm, current: u64, maximum: u64): Vm {
    v.(state := RUNNING, memory := ToI64(maximum), currentMem := ToI64(current),
       memstat := MemStat(current, 1000, 0, 900, 0), enableFpr := false)
  }

  lemma FactsAreApplied(v: Vm, current: u64, maximum: u64)
    ensures var ps := Facts(current, maximum).params;
            ApplyParams(Clear(v), ps, |ps|) == Informed(v, current, maximum)
  {
    var ps, w := Facts(current, maximum).params, Clear(v);
    var a := w.(state := RUNNING);
    assert ApplyParams(w, ps, 1) == a;
    var b := a.(currentMem := ToI64(current), memstat := a.memstat.(actualBalloon := current));
    assert ApplyParams(w, ps, 2) == b;
    var c := b.(memory := ToI64(maximum));
    assert ApplyParams(w, ps, 3) == c;
    var d := c.(memstat := c.memstat.(available := 1000));
    assert ApplyParams(w, ps, 4) == d;
  }

  lemma FactsInform(v: Vm, current: u64, maximum: u64)
    requires v.domid == DOMID
    ensures RefreshOne(v, Delivered([Facts(current, maximum)])) == Informed(v, current, maximum)
  {
    var ss := [Facts(current, maximum)];
    var ps := ss[0].params;
    NewsMerge(ss, 1, DOMID);
    assert NewsOf(ss, 1, DOMID) == NewsIn(ps, |ps|);
    ParamsOverwrite(Clear(v), ps, |ps|);
    FactsAreApplied(v, current, maximum);
  }

  /** A hypervisor that gives this answer to the first request. */
  ghost function First(answer: bool): Oracle { if answer then iset{0} else iset{} }

  /** The balloon thread's turn: a refresh and a decision. */
  ghost function Turn(current: u64, maximum: u64, answer: bool): seq<Action> {
    [Collect(Delivered([Facts(current, maximum)])), Decision(First(answer), 0)]
  }

  function Turned(e: Entry, current: u64, maximum: u64, answer: bool, pct: Percents): Entry {
    Decided(e.(vm := Informed(e.vm, current, maximum), seen := true), pct, answer)
  }

  lemma TurnOfOne(actions: seq<Action>, pct: Percents, e: Entry, current: u64, maximum: u64, answer: bool)
    requires Run(actions, pct).entries == [e] && e.vm.domid == DOMID
    ensures Run(actions + Turn(current, maximum, answer), pct).entries == [Turned(e, current, maximum, answer, pct)]
  {
    var turn := Turn(current, maximum, answer);
    FactsInform(e.vm, current, maximum);
    RunOneMore(actions, turn[0], pct);
    var w := Informed(e.vm, current, maximum);
    assert Run(actions + [turn[0]], pct).entries == [e.(vm := w, seen := true)];
    RunOneMore(actions + [turn[0]], turn[1], pct);
    assert actions + [turn[0]] + [turn[1]] == actions + turn;
    assert VmsOf([e.(vm := w, seen := true)]) == [w];
    assert (0 in First(answer)) == answer;
  }

  /** A record nothing is configured for. */
  predicate Plain(v: Vm) { v.domid == DOMID && !v.lockall && v.minGuarantee == 0 && v.refcount == 1 }

  lemma LowPoll(v: Vm, flag: int, pct: Percents)
    requires Plain(v) && ControlOf(v) == Start.(flag := flag) && 0 < flag < NEED_BALLOON_CHECK_TIMES - 1
    ensures var w := Decide(Informed(v, FULL, FULL), pct, true).vm;
            Plain(w) && ControlOf(w) == Start.(flag := flag + 1)
  {
    InRangeUnchanged(FULL);
  }

  /** `n` polls of a guest with little use. */
  lemma {:induction false} LowRun(n: nat, pct: Percents) returns (actions: seq<Action>, e: Entry)
    requires n < NEED_BALLOON_CHECK_TIMES - 1
    ensures Run(actions, pct).entries == [e] && Plain(e.vm) && ControlOf(e.vm) == Start.(flag := n + 1)
  {
    if n == 0 {
      var add := Add(DOMID, Probe(true, true, Some("vm"), 0, Some(Info(0, 0, 0))));
      e := Entry(WithInfo(NewVm(DOMID).(domname := "vm"), Info(0, 0, 0)), [], true, 0, false);
      actions := [] + [add];
      RunOneMore([], add, pct);
    } else {
      var before, d := LowRun(n - 1, pct);
      TurnOfOne(before, pct, d, FULL, FULL, true);
      LowPoll(d.vm, n, pct);
      actions, e := before + Turn(FULL, FULL, true), Turned(d, FULL, FULL, true, pct);
    }
  }

  /** One low poll short of inflating: the next one does, if the request is accepted. */
  lemma DuePoll(v: Vm, pct: Percents, answer: bool)
    requires Plain(v) && ControlOf(v) == Start.(flag := NEED_BALLOON_CHECK_TIMES - 1) && pct.Loadable()
    ensures var w := Decide(Informed(v, FULL, FULL), pct, answer).vm;
            && Plain(w) && w.balloonTarget == TargetOf(Informed(v, FULL, FULL), pct) <= FULL
            && PhaseOf(w) == (if answer then Inflating else Idle)
            && (answer ==> T.GoalOf(Decide(Informed(v, FULL, FULL), pct, answer).events, w.balloonTarget))
            && w.currentActualBalloon == [0, 0] && w.balloonI == 0
  {
    InRangeUnchanged(FULL);
    var w := Informed(v, FULL, FULL);
    TargetIsLeastSufficient(w.memory, w.memstat, w.minGuarantee, pct);
    TargetReclaimsOnlyFreeMemory(w.memory, w.memstat, w.minGuarantee, pct);
    assert Detect(w).vm == w && RecordPressure(w).vm == w;
    assert UsageOf(w.memstat) == Below;
    if answer {
      var e := Decide(w, pct, answer).events;
      assert e == [Looked(Below), Inflate(TargetOf(w, pct), w.currentMem, w.memory, true)];
    }
  }

  /** A guest found squeezed is asked back. */
  lemma SqueezedPoll(v: Vm, pct: Percents, answer: bool)
    requires Plain(v) && PhaseOf(v).Idle?
    ensures var w := Decide(Informed(v, 1, FULL), pct, answer).vm;
            Plain(w) && PhaseOf(w) == (if answer then Returning else MustReturn)
  {
    InRangeUnchanged(FULL);
  }

  /** Each phase is reached. */
  lemma PhaseIsReached(p: Phase, pct: Percents) returns (actions: seq<Action>, e: Entry)
    requires pct.Loadable()
    ensures Run(actions, pct).entries == [e] && Plain(e.vm) && PhaseOf(e.vm) == p
    ensures p.Idle? ==> ControlOf(e.vm) == Start.(flag := NEED_BALLOON_CHECK_TIMES - 1)
    ensures p.Inflating? ==>
              e.vm.balloonTarget <= FULL && e.vm.currentActualBalloon == [0, 0] && e.vm.balloonI == 0
  {
    var before, d := LowRun(NEED_BALLOON_CHECK_TIMES - 2, pct);
    match p {
      case Idle => actions, e := before, d;
      case Inflating =>
        DuePoll(d.vm, pct, true);
        TurnOfOne(before, pct, d, FULL, FULL, true);
        actions, e := before + Turn(FULL, FULL, true), Turned(d, FULL, FULL, true, pct);
      case _ =>
        SqueezedPoll(d.vm, pct, p.Returning?);
        TurnOfOne(before, pct, d, 1, FULL, p.Returning?);
        actions, e := before + Turn(1, FULL, p.Returning?), Turned(d, 1, FULL, p.Returning?, pct);
    }
  }

  lemma InflatingPoll(v: Vm, pct: Percents, answer: bool)
    requires Plain(v) && PhaseOf(v).Inflating? && v.balloonTarget <= FULL
    requires v.currentActualBalloon == [0, 0] && v.balloonI == 0
    ensures PhaseOf(Decide(Informed(v, 2 * FULL, 2 * FULL), pct, answer).vm) == Inflating
    ensures PhaseOf(Decide(Informed(v, 1, FULL), pct, answer).vm) == if answer then Returning else MustReturn
  {
    BusyPoll(Informed(v, 2 * FULL, 2 * FULL), pct, answer);
    BusyPoll(Informed(v, 1, FULL), pct, answer);
    InRangeUnchanged(2 * FULL);
  }

  lemma BusyPoll(v: Vm, pct: Percents, answer: bool)
    requires v.ballooning
    ensures Decide(v, pct, answer).vm == MainStep(v, pct, answer).vm
  {
  }

  lemma BackPoll(v: Vm, pct: Percents, answer: bool)
    requires Plain(v)
    ensures PhaseOf(v).MustReturn? ==>
              PhaseOf(Decide(Informed(v, 1, FULL), pct, answer).vm) == if answer then Returning else MustReturn
    ensures PhaseOf(v).Returning? ==> PhaseOf(Decide(Informed(v, 1, FULL), pct, answer).vm) == Returning
    ensures PhaseOf(v).Returning? ==> PhaseOf(Decide(Informed(v, FULL, FULL), pct, answer).vm) == Idle
  {
    InRangeUnchanged(FULL);
    if v.ballooning {
      BusyPoll(Informed(v, 1, FULL), pct, answer);
      BusyPoll(Informed(v, FULL, FULL), pct, answer);
    }
  }

  /** What the statistics and the answer have to be to go from one phase to another. */
  function Current(p: Phase, q: Phase): u64 {
    if p.Idle? then (if q.Idle? || q.Inflating? then FULL else 1)
    else if p.Inflating? then (if q.Inflating? then 2 * FULL else 1)
    else if p.Returning? && q.Idle? then FULL else 1
  }

  function Maximum(p: Phase, q: Phase): u64 { if p == q == Inflating then 2 * FULL else FULL }

  function Answered(p: Phase, q: Phase): bool { !(q.MustReturn? || (p == q == Idle)) }

  /** The edges are exact: each one is a turn of the balloon thread in some run. */
  lemma EdgeIsTaken(p: Phase, q: Phase, pct: Percents)
      returns (actions: seq<Action>, turn: seq<Action>, e: Entry, f: Entry)
    requires Edge(p, q) && pct.Loadable()
    ensures |turn| == 2 && turn[0].Collect? && turn[1].Decision?
    ensures Run(actions, pct).entries == [e] && Run(actions + turn, pct).entries == [f]
    ensures PhaseOf(e.vm) == p && PhaseOf(f.vm) == q
  {
    actions, e := PhaseIsReached(p, pct);
    var current, maximum, answer := Current(p, q), Maximum(p, q), Answered(p, q);
    turn, f := Turn(current, maximum, answer), Turned(e, current, maximum, answer, pct);
    TurnOfOne(actions, pct, e, current, maximum, answer);
    match p {
      case Idle => if current == FULL { DuePoll(e.vm, pct, answer); } else { SqueezedPoll(e.vm, pct, answer); }
      case Inflating => InflatingPoll(e.vm, pct, answer);
      case _ => BackPoll(e.vm, pct, answer);
    }
  }

  /** Turns of the balloon thread that find these statistics and get these answers. */
  ghost function Turns(ticks: seq<T.Tick>): seq<Action> {
    if ticks == [] then [] else TurnFor(ticks[0]) + Turns(ticks[1..])
  }

  ghost function TurnFor(t: T.Tick): seq<Action> { Turn(t.stat.actualBalloon, FULL, t.answer) }

  /** A running record that shows what such statistics say. */
  predicate Shows(e: Entry, goal: int) {
    && e.vm.domid == DOMID && e.vm.state == RUNNING && e.vm.memory == FULL && !e.vm.enableFpr
    && T.GoalOf(e.trace, goal)
  }

  lemma TurnIsPoll(e: Entry, goal: int, t: T.Tick, pct: Percents)
    requires Shows(e, goal) && t.stat == T.StatOf(t.stat.actualBalloon)
    ensures var f, c := Turned(e, t.stat.actualBalloon, FULL, t.answer, pct), T.Poll(T.Cycle(e.vm, goal), t, pct);
            f.vm == c.vm && Shows(f, c.goal)
  {
    InRangeUnchanged(FULL);
    var v := T.Refreshed(e.vm, t.stat);
    assert Informed(e.vm, t.stat.actualBalloon, FULL) == v;
    T.GoalGrows(e.trace, goal, Decide(v, pct, t.answer).events);
    D.DecideKeeps(v, pct, t.answer);
  }

  /** Polling the record of the list and polling the stand-alone record are the same. */
  lemma {:induction false} TurnsArePolls(actions: seq<Action>, pct: Percents, e: Entry, goal: int, ticks: seq<T.Tick>)
      returns (f: Entry)
    requires Run(actions, pct).entries == [e] && Shows(e, goal)
    requires forall i | 0 <= i < |ticks| :: ticks[i].stat == T.StatOf(ticks[i].stat.actualBalloon)
    ensures Run(actions + Turns(ticks), pct).entries == [f]
    ensures var c := T.Run(T.Cycle(e.vm, goal), ticks, pct); f.vm == c.vm && Shows(f, c.goal)
    decreases |ticks|
  {
    if ticks == [] {
      f := e;
      assert actions + Turns(ticks) == actions;
    } else {
      var t := ticks[0];
      var g := OneTurn(actions, pct, e, goal, t);
      f := TurnsArePolls(actions + TurnFor(t), pct, g, T.Poll(T.Cycle(e.vm, goal), t, pct).goal, ticks[1..]);
      Associative(actions, TurnFor(t), Turns(ticks[1..]));
    }
  }

  lemma OneTurn(actions: seq<Action>, pct: Percents, e: Entry, goal: int, t: T.Tick) returns (f: Entry)
    requires Run(actions, pct).entries == [e] && Shows(e, goal) && t.stat == T.StatOf(t.stat.actualBalloon)
    ensures Run(actions + TurnFor(t), pct).entries == [f]
    ensures T.Poll(T.Cycle(e.vm, goal), t, pct).vm == f.vm && Shows(f, T.Poll(T.Cycle(e.vm, goal), t, pct).goal)
  {
    TurnOfOne(actions, pct, e, t.stat.actualBalloon, FULL, t.answer);
    TurnIsPoll(e, goal, t, pct);
    f := Turned(e, t.stat.actualBalloon, FULL, t.answer, pct);
  }

  /** The beginning of an episode, and the record it began from. */
  lemma EpisodeBegins(pct: Percents) returns (actions: seq<Action>, e: Entry, t: Trace, v: Vm)
    requires pct.Loadable()
    ensures Run(actions, pct).entries == [e] && Shows(e, e.vm.balloonTarget) && e.vm.memstat == T.StatOf(FULL)
    ensures Explains(t, v) && Plain(v) && !v.enableFpr && v.memory == FULL && v.memstat == T.StatOf(FULL)
    ensures PhaseOf(v).Idle? && e.vm == Decide(v, pct, true).vm && PhaseOf(e.vm).Inflating?
    ensures e.vm.balloonTarget == TargetOf(v, pct)
  {
    var before, d := PhaseIsReached(Idle, pct);
    t, v := d.trace, Informed(d.vm, FULL, FULL);
    D.RunIsOk(before, pct);
    assert D.EntryOk(d, Run(before, pct).latest);
    InRangeUnchanged(FULL);
    DuePoll(d.vm, pct, true);
    TurnOfOne(before, pct, d, FULL, FULL, true);
    actions, e := before + Turn(FULL, FULL, true), Turned(d, FULL, FULL, true, pct);
    D.DecideKeeps(v, pct, true);
    LastAcceptedConcat(d.trace, Decide(v, pct, true).events);
  }

  /** A run in which an episode ends early: the guest does not shrink, all requests are accepted, and
      in the end the record is idle while the last accepted request is for 2 MiB less than the
      memory. */
  lemma EarlyEndIsReached(pct: Percents, size: u64)
      returns (actions: seq<Action>, more: seq<Action>, e: Entry, f: Entry)
    requires pct.Loadable() && FULL - LOW_WATER_MARK < size <= FULL
    ensures Run(actions, pct).entries == [e] && PhaseOf(e.vm).Inflating? && e.vm.memstat == T.StatOf(FULL)
    ensures Run(actions + more, pct).entries == [f] && PhaseOf(f.vm).Idle? && f.vm.memstat == T.StatOf(size)
    ensures f.vm.memory == FULL && T.GoalOf(f.trace, FULL - BACK_RESERVED_KB)
    ensures |more| <= 6
  {
    var t, v;
    actions, e, t, v := EpisodeBegins(pct);
    var ticks := T.UnmovedGuestEndsEarly(t, v, pct, T.Tick(T.StatOf(size), true));
    f := TurnsArePolls(actions, pct, e, e.vm.balloonTarget, ticks);
    more := Turns(ticks);
    ShortTurns(ticks);
    LastStat(T.Cycle(e.vm, e.vm.balloonTarget), ticks, pct);
  }

  lemma {:induction false} ShortTurns(ticks: seq<T.Tick>)
    ensures |Turns(ticks)| == 2 * |ticks|
  {
    if ticks != [] {
      ShortTurns(ticks[1..]);
    }
  }

  /** A run ends with the statistics of its last poll. */
  lemma {:induction false} LastStat(c: T.Cycle, ticks: seq<T.Tick>, pct: Percents)
    requires ticks != []
    ensures var v := T.Run(c, ticks, pct).vm;
            v.memstat == ticks[|ticks| - 1].stat && v.memory == c.vm.memory
    decreases |ticks|
  {
    D.DecideKeeps(T.Refreshed(c.vm, ticks[0].stat), pct, ticks[0].answer);
    if |ticks| > 1 {
      LastStat(T.Poll(c, ticks[0], pct), ticks[1..], pct);
    } else {
      assert T.Run(c, ticks, pct) == T.Poll(c, ticks[0], pct);
    }
  }

  // ---------- Exit after a rebuild ----------

  lemma QuietSection(actions: seq<Action>, a: Action, pct: Percents, domid: i32)
    requires !a.Decision?
    ensures X.AcceptedLast(actions + [a], pct, domid) == X.AcceptedLast(actions, pct, domid)
    ensures Run(actions + [a], pct) == After(Run(actions, pct), a, pct)
  {
    RunOneMore(actions, a, pct);
    var t := L.EventsFrom(actions, pct, domid, 0);
    assert (actions + [a])[..|actions|] == actions && (actions + [a])[|actions|] == a;
    assert t + [] == t;
  }

  /** A run after which an inflate is the last accepted request, and its record. */
  lemma InflateIsLast(pct: Percents) returns (actions: seq<Action>, e: Entry)
    requires pct.Loadable()
    ensures Run(actions, pct).entries == [e] && Plain(e.vm)
    ensures X.AcceptedLast(actions, pct, DOMID) != [] && X.AcceptedLast(actions, pct, DOMID)[0].Inflate?
  {
    actions, e := PhaseIsReached(Inflating, pct);
    var i := L.WasAdded(actions, pct, 0);
    L.TraceSince(actions, pct, i, 0);
    X.AcceptedFrom(actions, pct, DOMID, i);
    D.EveryHistoryIsSafe(actions, pct, 0);
  }

  /** A rebuild forgets an accepted inflate: the exit section leaves the squeezed guest alone. */
  lemma RebuiltGuestIsNotAskedBack(pct: Percents) returns (actions: seq<Action>, e: Entry)
    requires pct.Loadable()
    ensures Run(actions, pct).entries == [e] && e.vm.domid == DOMID && X.AcceptedLast(actions, pct, DOMID) != []
    ensures X.AcceptedLast(actions, pct, DOMID)[0].Inflate?
    ensures forall r | E.BackRequests(e.vm, r) :: r == []
  {
    var before, d := InflateIsLast(pct);
    QuietSection(before, ReleaseAll, pct, DOMID);
    var released := before + [ReleaseAll];
    assert Kept(d, true) == [] && FreeEntries([d], 1) == [];
    assert FreeEntries([d], 0) == [];
    var add := Add(DOMID, Probe(true, true, Some("vm"), 0, Some(Info(0, 0, 0))));
    QuietSection(released, add, pct, DOMID);
    actions := released + [add];
    e := Entry(WithInfo(NewVm(DOMID).(domname := "vm"), Info(0, 0, 0)), [], true, 0, false);
  }
}
