/** One poll of one record: the specification the list passes of `Controller` are proved
    against, and about which every whole-run theorem is stated. */
module Balloon {
  import opened Machine
  import opened Vm

  const LOWER_LIMIT := 30
  const UPPER_LIMIT := 50
  const NEED_BALLOON_CHECK_TIMES := 20
  const LOW_BALLOON_SIZE_KB := 300 * 1024
  const TARGET_RESERVED_KB: int := 1024 * 1024
  const BACK_RESERVED_KB: int := 2 * 1024
  const LOW_WATER_MARK := 1024

  predicate StatOk(s: MemStat) {
    s.actualBalloon != 0 && s.available != 0 && (s.usable != 0 || s.unused != 0)
  }

  function Free(s: MemStat): u64 { if s.usable != 0 then s.usable else s.unused }

  function Used(s: MemStat): u64 { SubU(s.available, Free(s)) }

  /** The usage percentage is compared exactly; the daemon divides in `float`. */
  function UsageOf(s: MemStat): Usage {
    if 100 * Used(s) > UPPER_LIMIT * s.available then Above
    else if 100 * Used(s) < LOWER_LIMIT * s.available then Below
    else Between
  }

  /** `x * percent / 100` in signed 64-bit arithmetic. */
  function Percent(x: i64, percent: int): i64 { ToI64(DivC(ToI64(x * percent), 100)) }

  /** The lower bounds are applied as signed maxima, the memory as an unsigned minimum. */
  function Bounded(memory: i64, demand: i64, share: i64, guarantee: i64): i64 {
    ToI64(Min(Max(Max(Max(demand, TARGET_RESERVED_KB), share), guarantee), memory))
  }

  /** The size an inflating guest is asked to shrink to, in machine arithmetic. */
  function Target(memory: i64, total: u64, used: u64, minGuarantee: u64, pct: Percents): i64 {
    Bounded(memory, Percent(ToI64(SubU(memory, total) + used), pct.used),
            Percent(memory, pct.total), ToI64(minGuarantee))
  }

  function TargetOf(v: Vm, pct: Percents): i64 {
    Target(v.memory, v.memstat.available, Used(v.memstat), v.minGuarantee, pct)
  }

  /** The full size a guest is given back. */
  function BackBase(memory: i64): u64 { if memory >= 0 then memory else TARGET_RESERVED_KB }

  /** The first step of giving memory back stops short of the full size. */
  function GiveBackTarget(memory: i64): u64 { SubU(BackBase(memory), BACK_RESERVED_KB) }

  /** First pass: an idle guest below its memory, such as one restored from a snapshot taken
      while it was ballooning, is marked for giving back. */
  function Detect(v: Vm): Outcome {
    if StatOk(v.memstat) && !v.ballooning && v.memory > v.currentMem then
      Outcome(v.(ballooning := true, incompleteBalloon := true), [Squeezed])
    else
      Outcome(v, [])
  }

  /** Third pass: remember that a running guest has been under pressure. */
  function RecordPressure(v: Vm): Outcome {
    if v.state == RUNNING && StatOk(v.memstat) && v.needBalloonFlag == 0 && !v.ballooning
       && UsageOf(v.memstat).Above?
    then Outcome(v.(needBalloonFlag := 1), [Pressure])
    else Outcome(v, [])
  }

  function Count(flag: int, usage: Usage): int {
    if usage.Above? then 1
    else if usage.Below? && flag > 0 then flag + 1
    else flag
  }

  function AfterInflate(v: Vm, answer: bool): Vm {
    if answer then v.(ballooning := true, ballooningDown := true) else v
  }

  /** The nineteenth low poll since the record was armed makes inflating due. */
  predicate IsDue(v: Vm) {
    Count(v.needBalloonFlag, UsageOf(v.memstat)) >= NEED_BALLOON_CHECK_TIMES
  }

  /** The record with its counter advanced and, when inflating is due, its target set. */
  function Planned(v: Vm, pct: Percents): Vm {
    if IsDue(v) then v.(needBalloonFlag := 0, balloonTarget := TargetOf(v, pct))
    else v.(needBalloonFlag := Count(v.needBalloonFlag, UsageOf(v.memstat)))
  }

  function DoBallooning(v: Vm, pct: Percents, answer: bool): Outcome {
    if !StatOk(v.memstat) then Outcome(v, []) else
      var w := Planned(v, pct);
      var looked := Looked(UsageOf(v.memstat));
      if !IsDue(v) then Outcome(w, [looked])
      else if w.balloonTarget <= 0 then Outcome(w, [looked, NoTarget])
      else Outcome(AfterInflate(w, answer), [looked, Inflate(w.balloonTarget, v.currentMem, v.memory, answer)])
  }

  datatype Verdict = Wait | BackFirst | BackRest

  datatype Check = Check(verdict: Verdict, vm: Vm, events: Trace)

  /** `labs` of the difference of the two samples. */
  function Gap(ring: Ring): int {
    var a: int := ring[0];
    var b: int := ring[1];
    Abs(ToI64(a - b))
  }

  function Record(ring: Ring, slot: Slot, actual: u64): Ring { ring[slot := ToI64(actual)] }

  function SpeedTest(v: Vm): Check {
    var actual := v.memstat.actualBalloon;
    var ring := Record(v.currentActualBalloon, v.balloonI, actual);
    var w := v.(currentActualBalloon := ring, balloonI := (v.balloonI + 1) % 2);
    if Gap(ring) < LOW_BALLOON_SIZE_KB then
      Check(BackFirst, w.(needBalloonFlag := 1), [Sample(actual, true)])
    else
      Check(Wait, w, [Sample(actual, false)])
  }

  function BalloonCheck(v: Vm): Check {
    var left := SubU(v.memory, v.memstat.actualBalloon);
    if v.incompleteBalloon then Check(BackFirst, v, [])
    else if v.ballooningDown then
      if SubU(v.memstat.actualBalloon, v.balloonTarget) < LOW_WATER_MARK then Check(BackFirst, v, [])
      else SpeedTest(v)
    else if left < LOW_WATER_MARK then
      Check(Wait, v.(ballooning := false), [Done(v.memory, v.memstat.actualBalloon)])
    else if left <= BACK_RESERVED_KB then Check(BackRest, v, [])
    else Check(Wait, v, [])
  }

  function AfterGiveBack(v: Vm, answer: bool): Vm {
    if !answer then v.(incompleteBalloon := true)
    else v.(ballooningDown := false, balloonI := 0, currentActualBalloon := [0, 0], incompleteBalloon := false)
  }

  function GiveBackStep(c: Check, answer: bool): Outcome {
    Outcome(AfterGiveBack(c.vm, answer),
            c.events + [GiveBack(GiveBackTarget(c.vm.memory), c.vm.memory, answer)])
  }

  /** A ballooning record: wait, or give back in one of the two steps. */
  function BusyStep(v: Vm, answer: bool): Outcome {
    var c := BalloonCheck(v);
    match c.verdict
    case Wait => Outcome(c.vm, c.events)
    case BackFirst => GiveBackStep(c, answer)
    case BackRest => Outcome(c.vm, c.events + [Restore(BackBase(v.memory), v.memory, answer)])
  }

  /** Fourth pass: the body of the main loop for one record. */
  function MainStep(v: Vm, pct: Percents, answer: bool): Outcome {
    if v.lockall || v.enableFpr then Outcome(v, [])
    else if !v.ballooning then
      if v.state == RUNNING then DoBallooning(v, pct, answer) else Outcome(v, [])
    else if v.memstat.actualBalloon == 0 then Outcome(v, [])
    else BusyStep(v, answer)
  }

  /** The whole decision phase for one record. */
  function Decide(v: Vm, pct: Percents, answer: bool): Outcome {
    var d := Detect(v);
    var p := RecordPressure(d.vm);
    var m := MainStep(p.vm, pct, answer);
    Outcome(m.vm, d.events + p.events + m.events)
  }
}
