/** The balloon thread on the mutable records: the passes of one poll, statement by statement,
    proved against the steps of `Balloon` and the passes of `Passes`. */
module Controller {
  import opened Machine
  import opened Vm
  import opened Records
  import B = Balloon
  import P = PollTheorems

  /** `CheckVmMemoryStat`. */
  method CheckVmMemoryStat(v: VmInfo) returns (ret: int)
    requires v.live
    ensures ret == if B.StatOk(v.memstat) then 0 else -1
  {
    if v.memstat.actualBalloon == 0 || v.memstat.available == 0 {
      return -1;
    }
    if v.memstat.usable == 0 && v.memstat.unused == 0 {
      return -1;
    }
    return 0;
  }

  /** The usage percentage of `RecordPressure` and `DoBallooning`, compared exactly. */
  method GuestUsage(v: VmInfo) returns (guestTotal: u64, guestUsed: u64)
    requires v.live
    ensures guestTotal == v.memstat.available && guestUsed == B.Used(v.memstat)
  {
    guestTotal := v.memstat.available;
    if v.memstat.usable != 0 {
      guestUsed := SubU(guestTotal, v.memstat.usable);
    } else {
      guestUsed := SubU(guestTotal, v.memstat.unused);
    }
  }

  /** The body of the first pass. */
  method MarkSqueezed(v: VmInfo)
    requires v.live
    modifies v`ballooning, v`incompleteBalloon
    ensures v.Abs() == B.Detect(old(v.Abs())).vm
  {
    var ret := CheckVmMemoryStat(v);
    if ret < 0 {
      return;
    }
    if !v.ballooning && v.memory > v.currentMem {
      v.ballooning := true;
      v.incompleteBalloon := true;
    }
  }

  /** `RecordPressure`, called for running records only. */
  method RecordPressure(v: VmInfo)
    requires v.live && v.state == RUNNING
    modifies v`needBalloonFlag
    ensures v.Abs() == B.RecordPressure(old(v.Abs())).vm
  {
    var ret := CheckVmMemoryStat(v);
    if ret < 0 {
      return;
    }
    var guestTotal, guestUsed := GuestUsage(v);
    if v.needBalloonFlag == 0 && !v.ballooning {
      if 100 * guestUsed > B.UPPER_LIMIT * guestTotal {
        v.needBalloonFlag := 1;
      }
    }
  }

  /** The hysteresis counter of `DoBallooning`. */
  method CountUsage(v: VmInfo, guestTotal: u64, guestUsed: u64)
    requires guestTotal == v.memstat.available && guestUsed == B.Used(v.memstat)
    modifies v`needBalloonFlag
    ensures v.needBalloonFlag == B.Count(old(v.needBalloonFlag), B.UsageOf(v.memstat))
  {
    if 100 * guestUsed > B.UPPER_LIMIT * guestTotal {
      v.needBalloonFlag := 1;
    } else if 100 * guestUsed < B.LOWER_LIMIT * guestTotal && v.needBalloonFlag > 0 {
      v.needBalloonFlag := v.needBalloonFlag + 1;
    }
  }

  /** The target computation of `DoBallooning`. */
  method ComputeTarget(v: VmInfo, guestTotal: u64, guestUsed: u64, pct: Percents)
    modifies v`balloonTarget
    ensures v.balloonTarget == B.Target(v.memory, guestTotal, guestUsed, v.minGuarantee, pct)
  {
    v.balloonTarget := ToI64(SubU(v.memory, guestTotal) + guestUsed);
    v.balloonTarget := Max(ToI64(DivC(ToI64(v.balloonTarget * pct.used), 100)), B.TARGET_RESERVED_KB);
    v.balloonTarget := Max(v.balloonTarget, ToI64(DivC(ToI64(v.memory * pct.total), 100)));
    v.balloonTarget := Max(v.balloonTarget, ToI64(v.minGuarantee));
    v.balloonTarget := ToI64(Min(v.balloonTarget, v.memory));
  }

  method RequestInflate(v: VmInfo, hv: Hypervisor)
    requires v.live && v.balloonTarget > 0
    modifies hv, v`ballooning, v`ballooningDown
    ensures var answer := old(hv.served) in hv.oracle;
            && v.Abs() == B.AfterInflate(old(v.Abs()), answer)
            && hv.Sent(old(hv.served), old(hv.log), [Request(v.domid, v.balloonTarget, answer)])
  {
    var ret := hv.SetVmBalloonTarget(v, v.balloonTarget);
    if ret == 0 {
      v.ballooning := true;
      v.ballooningDown := true;
    }
  }

  /** Counting and the target, up to the request. */
  method PlanInflate(v: VmInfo, pct: Percents) returns (due: bool)
    requires v.live
    modifies v`needBalloonFlag, v`balloonTarget
    ensures v.Abs() == B.Planned(old(v.Abs()), pct)
    ensures due == B.IsDue(old(v.Abs()))
  {
    var guestTotal, guestUsed := GuestUsage(v);
    CountUsage(v, guestTotal, guestUsed);
    due := v.needBalloonFlag >= B.NEED_BALLOON_CHECK_TIMES;
    if due {
      v.needBalloonFlag := 0;
      ComputeTarget(v, guestTotal, guestUsed, pct);
    }
  }

  method DoBallooning(v: VmInfo, hv: Hypervisor, pct: Percents)
    requires v.live
    modifies hv, v`needBalloonFlag, v`balloonTarget, v`ballooning, v`ballooningDown
    ensures var o := B.DoBallooning(old(v.Abs()), pct, old(hv.served) in hv.oracle);
            && v.Abs() == o.vm
            && hv.Sent(old(hv.served), old(hv.log), Requests(v.domid, o.events))
  {
    P.RequestsOfFew(v.domid, B.DoBallooning(v.Abs(), pct, hv.served in hv.oracle).events);
    var ret := CheckVmMemoryStat(v);
    if ret < 0 {
      return;
    }
    var due := PlanInflate(v, pct);
    if due && v.balloonTarget > 0 {
      RequestInflate(v, hv);
    }
  }

  function Code(verdict: B.Verdict): int {
    match verdict
    case Wait => 0
    case BackFirst => -1
    case BackRest => -2
  }

  method BalloonCheck(v: VmInfo) returns (ret: int)
    requires v.live
    modifies v`currentActualBalloon, v`balloonI, v`needBalloonFlag, v`ballooning
    ensures var c := B.BalloonCheck(old(v.Abs()));
            v.Abs() == c.vm && ret == Code(c.verdict)
  {
    if v.incompleteBalloon {
      return -1;
    }
    if v.ballooningDown {
      if SubU(v.memstat.actualBalloon, v.balloonTarget) < B.LOW_WATER_MARK {
        return -1;
      }
      v.currentActualBalloon := v.currentActualBalloon[v.balloonI := ToI64(v.memstat.actualBalloon)];
      v.balloonI := (v.balloonI + 1) % 2;
      if B.Gap(v.currentActualBalloon) < B.LOW_BALLOON_SIZE_KB {
        v.needBalloonFlag := 1;
        return -1;
      }
    } else if SubU(v.memory, v.memstat.actualBalloon) < B.LOW_WATER_MARK {
      v.ballooning := false;
    } else if SubU(v.memory, v.memstat.actualBalloon) <= B.BACK_RESERVED_KB {
      return -2;
    }
    return 0;
  }

  /** The first step back: refused requests are tried again later. */
  method GiveBackStep(v: VmInfo, hv: Hypervisor)
    requires v.live
    modifies hv, v`ballooningDown, v`currentActualBalloon, v`balloonI, v`incompleteBalloon
    ensures var answer := old(hv.served) in hv.oracle;
            && v.Abs() == B.AfterGiveBack(old(v.Abs()), answer)
            && hv.Sent(old(hv.served), old(hv.log), [Request(v.domid, B.GiveBackTarget(v.memory), answer)])
  {
    var balloonBackTarget: u64 := if v.memory >= 0 then v.memory else B.TARGET_RESERVED_KB;
    balloonBackTarget := SubU(balloonBackTarget, B.BACK_RESERVED_KB);
    var setBalloonRet := hv.SetVmBalloonTarget(v, balloonBackTarget);
    if setBalloonRet < 0 {
      v.incompleteBalloon := true;
      return;
    }
    v.ballooningDown := false;
    v.balloonI := 0;
    v.currentActualBalloon := [0, 0];
    if v.incompleteBalloon {
      v.incompleteBalloon := false;
    }
  }

  method BalloonBusy(v: VmInfo, hv: Hypervisor)
    requires v.live
    modifies hv, v`needBalloonFlag, v`ballooning, v`ballooningDown,
             v`currentActualBalloon, v`balloonI, v`incompleteBalloon
    ensures var o := B.BusyStep(old(v.Abs()), old(hv.served) in hv.oracle);
            && v.Abs() == o.vm
            && hv.Sent(old(hv.served), old(hv.log), Requests(v.domid, o.events))
  {
    P.BusyStepEvents(v.Abs(), hv.served in hv.oracle);
    P.RequestsOfFew(v.domid, B.BusyStep(v.Abs(), hv.served in hv.oracle).events);
    var ret := BalloonCheck(v);
    if ret == -1 {
      GiveBackStep(v, hv);
    } else if ret == -2 {
      var balloonBackTarget: u64 := if v.memory >= 0 then v.memory else B.TARGET_RESERVED_KB;
      var setBalloonRet := hv.SetVmBalloonTarget(v, balloonBackTarget);
    }
  }

  /** The loop body of `BalloonMainLoop`. */
  method BalloonOne(v: VmInfo, hv: Hypervisor, pct: Percents)
    requires v.live
    modifies hv, v`needBalloonFlag, v`balloonTarget, v`ballooning, v`ballooningDown,
             v`currentActualBalloon, v`balloonI, v`incompleteBalloon
    ensures var o := B.MainStep(old(v.Abs()), pct, old(hv.served) in hv.oracle);
            && v.Abs() == o.vm
            && hv.Sent(old(hv.served), old(hv.log), Requests(v.domid, o.events))
  {
    if v.lockall || v.enableFpr {
      return;
    }
    if !v.ballooning {
      if v.state == RUNNING {
        DoBallooning(v, hv, pct);
      }
      return;
    }
    if v.memstat.actualBalloon == 0 {
      return;
    }
    BalloonBusy(v, hv);
  }
}
