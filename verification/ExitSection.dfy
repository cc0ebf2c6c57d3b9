/** What the daemon does to the guests before it exits. */
module ExitSection {
  import opened Machine
  import opened Vm
  import opened Records
  import opened VmList
  import B = Balloon

  const SET_BALLOON_MAX := 10

  /** The same request again and again, until it is accepted or the tries are used up. */
  ghost predicate TriedUntilAccepted(r: seq<Request>, domid: i32, target: int) {
    && 1 <= |r| <= SET_BALLOON_MAX
    && (forall j | 0 <= j < |r| :: r[j].domid == domid && r[j].target == target)
    && (forall j | 0 <= j < |r| - 1 :: !r[j].accepted)
    && (r[|r| - 1].accepted || |r| == SET_BALLOON_MAX)
  }

  /** The requests made for one record: a ballooning one is given its whole memory back. */
  ghost predicate BackRequests(v: Vm, r: seq<Request>) {
    if v.ballooning then TriedUntilAccepted(r, v.domid, B.BackBase(v.memory)) else r == []
  }

  /** In numbers: the memory of the guest, or 1 GiB if it has no proper size, is asked for up to ten
      times, and never again once it was accepted. */
  lemma BackMeaning(v: Vm, r: seq<Request>)
    ensures BackRequests(v, r) <==>
              && (r != [] <==> v.ballooning)
              && (forall j | 0 <= j < |r| ::
                    && r[j].domid == v.domid && r[j].target == (if v.memory >= 0 then v.memory else 1048576)
                    && (r[j].accepted ==> j == |r| - 1))
              && (r != [] ==> |r| <= 10 && (r[|r| - 1].accepted || |r| == 10))
  {
  }

  /** The requests got the answers of the hypervisor from the `n`-th on. */
  ghost predicate Answered(r: seq<Request>, n: nat, oracle: iset<nat>) {
    forall j | 0 <= j < |r| :: r[j].accepted <==> n + j in oracle
  }

  lemma AnsweredConcat(a: seq<Request>, b: seq<Request>, n: nat, oracle: iset<nat>)
    requires Answered(a, n, oracle) && Answered(b, n + |a|, oracle)
    ensures Answered(a + b, n, oracle)
  {
    forall j | 0 <= j < |a + b| ensures (a + b)[j].accepted <==> n + j in oracle {
      if j >= |a| { assert (a + b)[j] == b[j - |a|]; }
    }
  }

  function Flat(chunks: seq<seq<Request>>): seq<Request> {
    if chunks == [] then [] else Flat(chunks[..|chunks| - 1]) + chunks[|chunks| - 1]
  }

  lemma FlatPush(chunks: seq<seq<Request>>, c: seq<Request>, log: seq<Request>)
    ensures log + Flat(chunks + [c]) == log + Flat(chunks) + c
    ensures Flat(chunks + [c]) == Flat(chunks) + c
  {
    assert (chunks + [c])[..|chunks|] == chunks;
  }

  /** The tries for one record. */
  method BalloonBackOne(v: VmInfo, hv: Hypervisor) returns (ghost r: seq<Request>)
    requires v.live
    modifies hv
    ensures BackRequests(v.Abs(), r) && Answered(r, old(hv.served), hv.oracle)
    ensures hv.Sent(old(hv.served), old(hv.log), r)
  {
    r := [];
    if v.ballooning {
      var balloonTarget: u64 := if v.memory >= 0 then v.memory else B.TARGET_RESERVED_KB;
      var i := 0;
      while i < SET_BALLOON_MAX
        invariant 0 <= i == |r| <= SET_BALLOON_MAX
        invariant forall j | 0 <= j < |r| :: r[j] == Request(v.domid, balloonTarget, false)
        invariant hv.Sent(old(hv.served), old(hv.log), r) && Answered(r, old(hv.served), hv.oracle)
      {
        ghost var accepted := hv.served in hv.oracle;
        var ret := hv.SetVmBalloonTarget(v, balloonTarget);
        r := r + [Request(v.domid, balloonTarget, accepted)];
        if ret == 0 {
          return;
        }
        i := i + 1;
      }
    }
  }

  /** The next record. */
  method BalloonBackNext(v: VmInfo, hv: Hypervisor, ghost chunks: seq<seq<Request>>,
                         ghost served: nat, ghost log: seq<Request>)
    returns (ghost r: seq<Request>)
    requires v.live && hv.Sent(served, log, Flat(chunks)) && Answered(Flat(chunks), served, hv.oracle)
    modifies hv
    ensures BackRequests(v.Abs(), r)
    ensures hv.Sent(served, log, Flat(chunks + [r])) && Answered(Flat(chunks + [r]), served, hv.oracle)
  {
    r := BalloonBackOne(v, hv);
    FlatPush(chunks, r, log);
    AnsweredConcat(Flat(chunks), r, served, hv.oracle);
  }

  /** `BalloonBackVmMem`: every listed ballooning record, and no other, is given back. */
  method BalloonBackVmMem(l: List, hv: Hypervisor) returns (ghost chunks: seq<seq<Request>>)
    requires l.Valid()
    modifies hv
    ensures |chunks| == |l.spine| && forall k | 0 <= k < |chunks| :: BackRequests(l.Vms()[k], chunks[k])
    ensures hv.Sent(old(hv.served), old(hv.log), Flat(chunks)) && Answered(Flat(chunks), old(hv.served), hv.oracle)
  {
    chunks := [];
    ghost var s := l.spine;
    var v := l.first;
    while v != null
      invariant |chunks| <= |s|
      invariant v == if |chunks| < |s| then s[|chunks|] else null
      invariant forall k | 0 <= k < |chunks| :: BackRequests(s[k].Abs(), chunks[k])
      invariant hv.Sent(old(hv.served), old(hv.log), Flat(chunks)) && Answered(Flat(chunks), old(hv.served), hv.oracle)
      decreases |s| - |chunks|
    {
      ghost var r := BalloonBackNext(v, hv, chunks, old(hv.served), old(hv.log));
      chunks := chunks + [r];
      v := v.Next();
    }
  }
}
