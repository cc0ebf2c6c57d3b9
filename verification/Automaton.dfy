/** The controller of one record as an automaton over its events. `Legal` traces are the
    language of the automaton, and `DecideIsLegal` shows that every poll of every record, with
    any statistics and any answer, extends a legal trace to a legal trace and leaves the
    record in the state the trace determines. */
module Automaton {
  import opened Machine
  import opened Vm
  import opened Balloon

  /** The part of a record that only the controller writes. */
  datatype Control = Control(
    ballooning: bool,
    down: bool,
    incomplete: bool,
    flag: int,
    ring: Ring,
    index: Slot)

  const Start := Control(false, false, false, 1, [0, 0], 0)

  function ControlOf(v: Vm): Control {
    Control(v.ballooning, v.ballooningDown, v.incompleteBalloon, v.needBalloonFlag,
            v.currentActualBalloon, v.balloonI)
  }

  /** When an event can happen, including what its data must satisfy. */
  predicate Enabled(c: Control, e: Event) {
    match e
    case Squeezed => !c.ballooning
    case Pressure => !c.ballooning && c.flag == 0
    case Looked(usage) => !c.ballooning && c.flag < NEED_BALLOON_CHECK_TIMES
    case Inflate(target, currentMem, memory, _) =>
      !c.ballooning && c.flag >= NEED_BALLOON_CHECK_TIMES && target > 0 && currentMem >= memory
    case NoTarget => !c.ballooning && c.flag >= NEED_BALLOON_CHECK_TIMES
    case Sample(actual, slow) =>
      && c.ballooning && c.down && !c.incomplete && actual != 0
      && slow == (Gap(Record(c.ring, c.index, actual)) < LOW_BALLOON_SIZE_KB)
    case GiveBack(target, memory, _) =>
      && c.ballooning && (c.incomplete || c.down)
      && -TWO63 <= memory < TWO63 && target == GiveBackTarget(memory)
    case Restore(target, memory, _) =>
      && c.ballooning && !c.incomplete && !c.down
      && -TWO63 <= memory < TWO63 && target == BackBase(memory)
    case Done(memory, actual) =>
      && c.ballooning && !c.incomplete && !c.down && actual != 0
      && -TWO63 <= memory < TWO63 && SubU(memory, actual) < LOW_WATER_MARK
  }

  function Next(c: Control, e: Event): Control {
    match e
    case Squeezed => c.(ballooning := true, incomplete := true)
    case Pressure => c.(flag := 1)
    case Looked(usage) => c.(flag := Count(c.flag, usage))
    case Inflate(_, _, _, accepted) =>
      if accepted then c.(flag := 0, ballooning := true, down := true) else c.(flag := 0)
    case NoTarget => c.(flag := 0)
    case Sample(actual, slow) =>
      c.(ring := Record(c.ring, c.index, actual), index := (c.index + 1) % 2,
         flag := if slow then 1 else c.flag)
    case GiveBack(_, _, accepted) =>
      if accepted then c.(down := false, incomplete := false, ring := [0, 0], index := 0)
      else c.(incomplete := true)
    case Restore(_, _, _) => c
    case Done(_, _) => c.(ballooning := false)
  }

  /** The control state a trace determines. */
  function Replay(t: Trace): Control {
    if t == [] then Start else Next(Replay(t[..|t| - 1]), t[|t| - 1])
  }

  /** Nothing is due: the counter is below its limit and the last event is not a slow sample. */
  predicate Settled(t: Trace) {
    && Replay(t).flag < NEED_BALLOON_CHECK_TIMES
    && (t == [] || !(t[|t| - 1].Sample? && t[|t| - 1].slow))
  }

  /** A full counter is followed by inflating, a slow sample by giving back. */
  predicate Due(t: Trace, e: Event) {
    if Replay(t).flag >= NEED_BALLOON_CHECK_TIMES then e.Inflate? || e.NoTarget? else e.GiveBack?
  }

  predicate Allowed(t: Trace, e: Event) {
    Enabled(Replay(t), e) && (Settled(t) || Due(t, e))
  }

  predicate Legal(t: Trace) {
    t == [] || (Legal(t[..|t| - 1]) && Allowed(t[..|t| - 1], t[|t| - 1]))
  }

  /** A record and the events it has produced since it was created. */
  ghost predicate Explains(t: Trace, v: Vm) {
    Legal(t) && Settled(t) && ControlOf(v) == Replay(t)
  }

  lemma Push(t: Trace, e: Event)
    ensures Replay(t + [e]) == Next(Replay(t), e)
    ensures Legal(t + [e]) <==> Legal(t) && Allowed(t, e)
  {
    assert (t + [e])[..|t|] == t;
  }

  lemma NewVmIsExplained(domid: i32)
    ensures Explains([], NewVm(domid))
  {
  }

  /** Replaying `events` from the trace `t` explains the record the step produced. */
  ghost predicate Extends(t: Trace, o: Outcome) {
    Explains(t + o.events, o.vm)
  }

  lemma DetectIsLegal(t: Trace, v: Vm)
    requires Explains(t, v)
    ensures Extends(t, Detect(v))
  {
    if Detect(v).events == [] { assert t + [] == t; } else { Push(t, Squeezed); }
  }

  lemma PressureIsLegal(t: Trace, v: Vm)
    requires Explains(t, v)
    ensures Extends(t, RecordPressure(v))
  {
    if RecordPressure(v).events == [] { assert t + [] == t; } else { Push(t, Pressure); }
  }

  /** Looking at the usage is legal and moves the counter the way the record's moves. */
  lemma LookIsLegal(t: Trace, v: Vm)
    requires Explains(t, v) && !v.ballooning
    ensures var u := t + [Looked(UsageOf(v.memstat))];
            && Legal(u)
            && Replay(u) == ControlOf(v).(flag := Count(v.needBalloonFlag, UsageOf(v.memstat)))
            && (Settled(u) <==> !IsDue(v))
  {
    Push(t, Looked(UsageOf(v.memstat)));
  }

  /** What has become due is legal and settles the trace. */
  lemma DueIsLegal(u: Trace, e: Event)
    requires Legal(u) && !Replay(u).ballooning && Replay(u).flag >= NEED_BALLOON_CHECK_TIMES
    requires e.NoTarget? || (e.Inflate? && e.target > 0 && e.currentMem >= e.memory)
    ensures Legal(u + [e]) && Settled(u + [e]) && Replay(u + [e]) == Next(Replay(u), e)
  {
    Push(u, e);
  }

  lemma DoBallooningIsLegal(t: Trace, v: Vm, pct: Percents, answer: bool)
    requires Explains(t, v) && !v.ballooning
    requires StatOk(v.memstat) ==> v.memory <= v.currentMem
    ensures Extends(t, DoBallooning(v, pct, answer))
  {
    assert t + [] == t;
    var looked, target := Looked(UsageOf(v.memstat)), Planned(v, pct).balloonTarget;
    LookIsLegal(t, v);
    if StatOk(v.memstat) && IsDue(v) {
      var request := if target <= 0 then NoTarget else Inflate(target, v.currentMem, v.memory, answer);
      DueIsLegal(t + [looked], request);
      assert t + [looked, request] == t + [looked] + [request];
      assert DoBallooning(v, pct, answer).events == [looked, request];
    }
  }

  /** A sample is legal and moves the control state the way the speed test moves the record. */
  lemma SpeedTestIsLegal(t: Trace, v: Vm)
    requires Explains(t, v) && v.ballooning && v.ballooningDown && !v.incompleteBalloon
    requires v.memstat.actualBalloon != 0
    ensures var c := SpeedTest(v);
            && |c.events| == 1 && Legal(t + c.events)
            && ControlOf(c.vm) == Replay(t + c.events)
            && c.vm.memory == v.memory
            && (c.verdict.Wait? ==> Settled(t + c.events))
            && (Settled(t + c.events) || Due(t + c.events, GiveBack(0, 0, true)))
  {
    Push(t, SpeedTest(v).events[0]);
  }

  lemma GiveBackIsLegal(t: Trace, c: Check, answer: bool)
    requires Legal(t + c.events) && ControlOf(c.vm) == Replay(t + c.events)
    requires c.vm.ballooning && (c.vm.incompleteBalloon || c.vm.ballooningDown)
    requires c.vm.needBalloonFlag < NEED_BALLOON_CHECK_TIMES
    ensures Extends(t, GiveBackStep(c, answer))
  {
    var back := GiveBack(GiveBackTarget(c.vm.memory), c.vm.memory, answer);
    Push(t + c.events, back);
    assert t + (c.events + [back]) == t + c.events + [back];
  }

  lemma CheckIsLegal(t: Trace, v: Vm)
    requires Explains(t, v) && v.ballooning && v.memstat.actualBalloon != 0
    ensures var c := BalloonCheck(v);
            && Legal(t + c.events) && ControlOf(c.vm) == Replay(t + c.events)
            && (!c.verdict.BackFirst? ==> Settled(t + c.events))
            && (c.verdict.BackFirst? ==> c.vm.ballooning && (c.vm.incompleteBalloon || c.vm.ballooningDown))
            && c.vm.needBalloonFlag < NEED_BALLOON_CHECK_TIMES
  {
    assert t + [] == t;
    if !v.incompleteBalloon && v.ballooningDown {
      SpeedTestIsLegal(t, v);
    } else {
      Push(t, Done(v.memory, v.memstat.actualBalloon));
    }
  }

  lemma MainStepIsLegal(t: Trace, v: Vm, pct: Percents, answer: bool)
    requires Explains(t, v)
    requires StatOk(v.memstat) && !v.ballooning ==> v.memory <= v.currentMem
    ensures Extends(t, MainStep(v, pct, answer))
  {
    assert t + [] == t;
    if !v.lockall && !v.enableFpr {
      if !v.ballooning {
        DoBallooningIsLegal(t, v, pct, answer);
      } else if v.memstat.actualBalloon != 0 {
        var c := BalloonCheck(v);
        CheckIsLegal(t, v);
        match c.verdict {
          case BackFirst => GiveBackIsLegal(t, c, answer);
          case BackRest => Push(t, Restore(BackBase(v.memory), v.memory, answer));
          case Wait =>
        }
      }
    }
  }

  /** After the first pass an idle record with valid statistics has its full memory. */
  lemma DetectGuards(v: Vm)
    ensures var w := RecordPressure(Detect(v).vm).vm;
            StatOk(w.memstat) && !w.ballooning ==> w.memory <= w.currentMem
  {
  }

  lemma Chain(t: Trace, a: Trace, b: Trace, o: Outcome)
    requires Extends(t + a + b, o)
    ensures Extends(t, Outcome(o.vm, a + b + o.events))
  {
    assert t + a + b + o.events == t + (a + b + o.events);
  }

  /** Every poll extends a legal trace to a legal trace. */
  lemma DecideIsLegal(t: Trace, v: Vm, pct: Percents, answer: bool)
    requires Explains(t, v)
    ensures Extends(t, Decide(v, pct, answer))
  {
    var d := Detect(v);
    DetectIsLegal(t, v);
    var p := RecordPressure(d.vm);
    PressureIsLegal(t + d.events, d.vm);
    DetectGuards(v);
    MainStepIsLegal(t + d.events + p.events, p.vm, pct, answer);
    Chain(t, d.events, p.events, MainStep(p.vm, pct, answer));
  }
}
