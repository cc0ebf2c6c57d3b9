/** The decision section of the balloon thread and the exit section, as loops over the links. */
module BalloonThread {
  import opened Machine
  import opened Vm
  import opened Records
  import opened VmList
  import opened Passes
  import opened ListSpec
  import opened Controller

  /** The next record of the main loop, of which only its value matters. */
  method BalloonTurn(hv: Hypervisor, pct: Percents, v: VmInfo, ghost before: seq<Vm>,
                     ghost done: seq<Vm>, ghost sent: seq<Request>, ghost n: nat, ghost log: seq<Request>)
    returns (ghost w: Vm, ghost sent': seq<Request>)
    requires |done| < |before| && v.live && v.Abs() == before[|done|] && hv.Sent(n, log, sent)
    requires MainProgress(before, pct, hv.oracle, n, done, sent, |done|, hv.served)
    modifies hv, v`needBalloonFlag, v`balloonTarget, v`ballooning, v`ballooningDown,
             v`currentActualBalloon, v`balloonI, v`incompleteBalloon
    ensures v.Abs() == w && hv.Sent(n, log, sent')
    ensures MainProgress(before, pct, hv.oracle, n, done + [w], sent', |done| + 1, hv.served)
  {
    ghost var done', m';
    done', sent', m' := MainLoopStep(before, pct, hv.oracle, n, done, sent, |done|, hv.served);
    w := done'[|done|];
    Associative(log, sent, sent'[|sent|..]);
    BalloonOne(v, hv, pct);
    assert hv.served == m';
  }

  method BalloonNext(hv: Hypervisor, pct: Percents, v: VmInfo, ghost s: seq<VmInfo>, ghost before: seq<Vm>,
                     ghost done: seq<Vm>, ghost sent: seq<Request>, ghost n: nat, ghost log: seq<Request>)
    returns (ghost done': seq<Vm>, ghost sent': seq<Request>)
    requires Distinct(s) && Passed(s, before, done) && |done| < |s| && v == s[|done|] && v.live
    requires hv.Sent(n, log, sent)
    requires MainProgress(before, pct, hv.oracle, n, done, sent, |done|, hv.served)
    modifies hv, v`needBalloonFlag, v`balloonTarget, v`ballooning, v`ballooningDown,
             v`currentActualBalloon, v`balloonI, v`incompleteBalloon
    ensures |done'| == |done| + 1 && Passed(s, before, done')
    ensures hv.Sent(n, log, sent')
    ensures MainProgress(before, pct, hv.oracle, n, done', sent', |done'|, hv.served)
  {
    ghost var w;
    w, sent' := BalloonTurn(hv, pct, v, before, done, sent, n, log);
    done' := done + [w];
  }

  /** Fourth pass. */
  method BalloonMainLoop(l: List, hv: Hypervisor, pct: Percents, ghost before: seq<Vm>,
                         ghost n: nat, ghost log: seq<Request>)
    returns (ghost done: seq<Vm>, ghost sent: seq<Request>)
    requires l.Valid() && Passed(l.spine, before, []) && hv.Sent(n, log, [])
    modifies hv, l.spine`needBalloonFlag, l.spine`balloonTarget, l.spine`ballooning, l.spine`ballooningDown,
             l.spine`currentActualBalloon, l.spine`balloonI, l.spine`incompleteBalloon
    ensures |done| == |before| && Passed(l.spine, before, done)
    ensures hv.Sent(n, log, sent)
    ensures Pass(done, sent) == MainLoop(before, pct, hv.oracle, n)
  {
    done, sent := [], [];
    ghost var s := l.spine;
    var v := l.first;
    while v != null
      invariant Passed(s, before, done)
      invariant v == if |done| < |s| then s[|done|] else null
      invariant hv.Sent(n, log, sent)
      invariant MainProgress(before, pct, hv.oracle, n, done, sent, |done|, hv.served)
      decreases |s| - |done|
    {
      done, sent := BalloonNext(hv, pct, v, s, before, done, sent, n, log);
      v := v.Next();
    }
    assert l.spine == s;
    MainLoopDone(before, pct, hv.oracle, n, done, sent, |done|, hv.served);
  }

  method DetectNext(v: VmInfo, ghost s: seq<VmInfo>, ghost before: seq<Vm>, ghost done: seq<Vm>)
    returns (ghost done': seq<Vm>)
    requires Mapped(Detected, before, done)
    requires Distinct(s) && Passed(s, before, done) && |done| < |s| && v == s[|done|] && v.live
    modifies v`ballooning, v`incompleteBalloon
    ensures |done'| == |done| + 1 && Passed(s, before, done')
    ensures Mapped(Detected, before, done')
  {
    done' := MapStep(Detected, before, done);
    assert v.Abs() == before[|done|];
    MarkSqueezed(v);
  }

  method PressureNext(v: VmInfo, ghost s: seq<VmInfo>, ghost before: seq<Vm>, ghost done: seq<Vm>)
    returns (ghost done': seq<Vm>)
    requires Mapped(Pressed, before, done)
    requires Distinct(s) && Passed(s, before, done) && |done| < |s| && v == s[|done|] && v.live
    modifies v`needBalloonFlag
    ensures |done'| == |done| + 1 && Passed(s, before, done')
    ensures Mapped(Pressed, before, done')
  {
    done' := MapStep(Pressed, before, done);
    assert v.Abs() == before[|done|];
    if v.state == RUNNING {
      RecordPressure(v);
    }
  }

  /** First pass. */
  method DetectPass(l: List, ghost before: seq<Vm>) returns (ghost done: seq<Vm>)
    requires l.Valid() && Passed(l.spine, before, [])
    modifies l.spine`ballooning, l.spine`incompleteBalloon
    ensures |done| == |before| && Passed(l.spine, before, done)
    ensures done == DetectAll(before)
  {
    done := [];
    ghost var s := l.spine;
    var v := l.first;
    while v != null
      invariant Passed(s, before, done)
      invariant v == if |done| < |s| then s[|done|] else null
      invariant Mapped(Detected, before, done)
      decreases |s| - |done|
    {
      done := DetectNext(v, s, before, done);
      v := v.Next();
    }
    MapDone(Detected, before, done);
  }

  /** Second pass: looks for a ballooning record, to no effect. */
  method ScanPass(l: List)
    requires l.Valid()
  {
    var v := l.first;
    ghost var k := 0;
    while v != null && !v.ballooning
      invariant 0 <= k <= |l.spine| && v == if k < |l.spine| then l.spine[k] else null
      decreases |l.spine| - k
    {
      v := v.Next();
      k := k + 1;
    }
  }

  /** Third pass. */
  method PressurePass(l: List, ghost before: seq<Vm>) returns (ghost done: seq<Vm>)
    requires l.Valid() && Passed(l.spine, before, [])
    modifies l.spine`needBalloonFlag
    ensures |done| == |before| && Passed(l.spine, before, done)
    ensures done == PressureAll(before)
  {
    done := [];
    ghost var s := l.spine;
    var v := l.first;
    while v != null
      invariant Passed(s, before, done)
      invariant v == if |done| < |s| then s[|done|] else null
      invariant Mapped(Pressed, before, done)
      decreases |s| - |done|
    {
      done := PressureNext(v, s, before, done);
      v := v.Next();
    }
    MapDone(Pressed, before, done);
  }

  method DetectSqueezed(l: List)
    requires l.Valid()
    modifies l.spine`ballooning, l.spine`incompleteBalloon
    ensures l.Valid() && l.Vms() == DetectAll(old(l.Vms()))
  {
    ghost var done := DetectPass(l, l.Vms());
  }

  method RecordPressures(l: List)
    requires l.Valid()
    modifies l.spine`needBalloonFlag
    ensures l.Valid() && l.Vms() == PressureAll(old(l.Vms()))
  {
    ghost var done := PressurePass(l, l.Vms());
  }

  method Balloon(l: List, hv: Hypervisor, pct: Percents, ghost before: seq<Vm>) returns (ghost p: Pass)
    requires l.Valid() && l.Vms() == before
    modifies hv, l.spine`needBalloonFlag, l.spine`balloonTarget, l.spine`ballooning, l.spine`ballooningDown,
             l.spine`currentActualBalloon, l.spine`balloonI, l.spine`incompleteBalloon
    ensures l.Valid() && p == MainLoop(before, pct, hv.oracle, old(hv.served))
    ensures l.Vms() == p.vms && hv.Sent(old(hv.served), old(hv.log), p.requests)
  {
    ghost var done, sent := BalloonMainLoop(l, hv, pct, before, hv.served, hv.log);
    p := Pass(done, sent);
  }

  /** The passes before the main loop. */
  method Prepare(l: List)
    requires l.Valid()
    modifies l.spine`ballooning, l.spine`incompleteBalloon, l.spine`needBalloonFlag
    ensures l.Valid() && l.Vms() == PressureAll(DetectAll(old(l.Vms())))
  {
    DetectSqueezed(l);
    ScanPass(l);
    RecordPressures(l);
  }

  /** The section of the balloon thread under the list lock: all passes, one after the other. */
  method DecisionSection(l: List, hv: Hypervisor, pct: Percents)
    requires l.Valid()
    modifies hv, l.spine`needBalloonFlag, l.spine`balloonTarget, l.spine`ballooning, l.spine`ballooningDown,
             l.spine`currentActualBalloon, l.spine`balloonI, l.spine`incompleteBalloon
    ensures l.Valid()
    ensures var p := DecisionPhase(old(l.Vms()), pct, hv.oracle, old(hv.served));
            l.Vms() == p.vms && hv.Sent(old(hv.served), old(hv.log), p.requests)
  {
    Prepare(l);
    ghost var p := Balloon(l, hv, pct, l.Vms());
  }
}
