/** The mutable record of a virtual machine, a node of the intrusive list, and the hypervisor
    its requests go to. */
module Records {
  import opened Machine
  import opened Vm

  class VmInfo {
    const domid: i32
    var domname: string
    var memory: i64
    var currentMem: i64
    var memstat: MemStat
    var minGuarantee: u64
    var enableFpr: bool
    var lockall: bool
    var state: int
    var balloonTarget: i64
    var currentActualBalloon: Ring
    var ballooning: bool
    var needBalloonFlag: int
    var balloonI: Slot
    var ballooningDown: bool
    var incompleteBalloon: bool
    var refcount: int
    /** The list links: a null `prev` stands for the list head. */
    var next: VmInfo?
    var prev: VmInfo?
    /** False once the record has been freed; a freed record must not be read. */
    ghost var live: bool

    ghost function Abs(): Vm
      reads this`domname, this`memory, this`currentMem, this`memstat, this`minGuarantee, this`enableFpr,
            this`lockall, this`state, this`balloonTarget, this`currentActualBalloon, this`ballooning,
            this`needBalloonFlag, this`balloonI, this`ballooningDown, this`incompleteBalloon, this`refcount
    {
      Vm(domid, domname, memory, currentMem, memstat, minGuarantee, enableFpr, lockall, state,
         balloonTarget, currentActualBalloon, ballooning, needBalloonFlag, balloonI,
         ballooningDown, incompleteBalloon, refcount)
    }

    /** `NewVM`. */
    constructor (domid: i32)
      ensures Abs() == NewVm(domid)
      ensures live && next == null && prev == null
    {
      this.domid := domid;
      domname := "";
      memory, currentMem, memstat := 0, 0, NoStat;
      minGuarantee, enableFpr, lockall, state := 0, false, false, 0;
      balloonTarget, currentActualBalloon, balloonI := 0, [0, 0], 0;
      ballooning, ballooningDown, incompleteBalloon := false, false, false;
      needBalloonFlag := 1;
      refcount := 1;
      next, prev := null, null;
      live := true;
    }

    /** Following a link reads the record, which must not have been freed. */
    function Next(): VmInfo?
      requires live
      reads this
    {
      next
    }

    /** Taking or dropping a reference. */
    method AddRef(d: int)
      modifies this`refcount
      ensures refcount == old(refcount) + d
      ensures Abs() == old(Abs()).(refcount := old(refcount) + d)
    {
      refcount := refcount + d;
    }

    /** `FreeVM`. */
    method Free()
      requires live
      modifies this`live
      ensures !live
      ensures Abs() == old(Abs())
    {
      live := false;
    }
  }

  /** The end of the requests: it accepts the n-th one exactly when `n` is in `oracle`, so an
      arbitrary set stands for an arbitrary behaviour. */
  class Hypervisor {
    const oracle: iset<nat>
    var served: nat
    ghost var log: seq<Request>

    constructor (oracle: iset<nat>)
      ensures this.oracle == oracle && served == 0 && log == []
    {
      this.oracle := oracle;
      served := 0;
      log := [];
    }

    /** Since the given state exactly these requests were sent. */
    ghost predicate Sent(servedBefore: nat, logBefore: seq<Request>, requests: seq<Request>)
      reads this
    {
      served == servedBefore + |requests| && log == logBefore + requests
    }

    method SetVmBalloonTarget(v: VmInfo, newTarget: u64) returns (ret: int)
      requires v.live
      modifies this
      ensures ret == if old(served) in oracle then 0 else -1
      ensures served == old(served) + 1
      ensures log == old(log) + [Request(v.domid, newTarget, old(served) in oracle)]
    {
      ret := if served in oracle then 0 else -1;
      log := log + [Request(v.domid, newTarget, served in oracle)];
      served := served + 1;
    }
  }
}
