/** The record the daemon keeps for each virtual machine, as a value, and the events a poll
    of one record can produce. `VmList` holds the mutable records; this is their abstraction. */
module Vm {
  import opened Machine

  const RUNNING := 1

  /** Guest memory statistics, all in KiB; zero means "not delivered". */
  datatype MemStat = MemStat(
    actualBalloon: u64,
    available: u64,
    unused: u64,
    usable: u64,
    rss: u64)

  const NoStat := MemStat(0, 0, 0, 0, 0)

  /** The two most recent balloon sizes, written alternately. */
  type Ring = s: seq<i64> | |s| == 2 witness [0, 0]
  type Slot = i: int | 0 <= i < 2

  datatype Vm = Vm(
    domid: i32,
    domname: string,
    memory: i64,
    currentMem: i64,
    memstat: MemStat,
    minGuarantee: u64,
    enableFpr: bool,
    lockall: bool,
    state: int,
    balloonTarget: i64,
    currentActualBalloon: Ring,
    ballooning: bool,
    needBalloonFlag: int,
    balloonI: Slot,
    ballooningDown: bool,
    incompleteBalloon: bool,
    refcount: int)

  /** A record as `NewVM` fills it: everything zero except the armed flag and the reference
      the list holds. */
  function NewVm(domid: i32): Vm {
    Vm(domid, "", 0, 0, NoStat, 0, false, false, 0, 0, [0, 0], false, 1, 0, false, false, 1)
  }

  /** The two percentages a configuration file can set. */
  datatype Percents = Percents(used: int, total: int) {
    predicate Loadable() { 120 <= used <= 10000 && 0 <= total <= 100 }
  }

  datatype Usage = Above | Between | Below

  /** What one poll of one record can do, in order. `Inflate`, `GiveBack` and `Restore` are
      requests to the hypervisor together with its answer. */
  datatype Event =
    | Squeezed                                             // found idle below its memory
    | Pressure                                             // armed by RecordPressure
    | Looked(usage: Usage)                                 // DoBallooning classified the usage
    | Inflate(target: int, currentMem: int, memory: int, accepted: bool)
    | NoTarget                                             // inflating was due, the target is empty
    | Sample(actual: u64, slow: bool)                      // speed test; slow stops the balloon
    | GiveBack(target: int, memory: int, accepted: bool)   // first step back
    | Restore(target: int, memory: int, accepted: bool)    // second step back
    | Done(memory: int, actual: u64)                       // back at full size
  {
    predicate IsRequest() { Inflate? || GiveBack? || Restore? }
    predicate Accepted() { IsRequest() && accepted }
    predicate Inflated() { Inflate? && accepted }
    predicate GaveBack() { GiveBack? && accepted }
    /** Events that restart the hysteresis counter at one. */
    predicate Arms() { Pressure? || (Sample? && slow) || (Looked? && usage.Above?) }
  }

  type Trace = seq<Event>

  /** A record after a step, and what the step did. */
  datatype Outcome = Outcome(vm: Vm, events: Trace)

  /** The requests among the events of one record, as the hypervisor sees them. */
  datatype Request = Request(domid: i32, target: int, accepted: bool)

  function RequestOf(domid: i32, e: Event): seq<Request> {
    if e.IsRequest() then [Request(domid, e.target, e.accepted)] else []
  }

  function Requests(domid: i32, t: Trace): seq<Request> {
    if t == [] then [] else Requests(domid, t[..|t| - 1]) + RequestOf(domid, t[|t| - 1])
  }
}
