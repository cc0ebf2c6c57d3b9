/** The statistics refresh on the mutable list. */
module StatsRefresh {
  import opened Machine
  import opened Vm
  import opened Records
  import opened VmList
  import opened ListSpec
  import S = RefreshSpec
  import D = Driver

  /** One parameter: the chain of name comparisons in `GetOneDomainStats`. */
  method TakeParam(v: VmInfo, p: S.Param)
    requires v.live
    modifies v`state, v`currentMem, v`memory, v`memstat, v`enableFpr
    ensures v.Abs() == S.ApplyParam(old(v.Abs()), p)
  {
    match p.field {
      case StateState => v.state := ToI16(p.i);
      case BalloonCurrent =>
        v.currentMem := ToI64(p.ul);
        v.memstat := v.memstat.(actualBalloon := p.ul);
      case BalloonMaximum => v.memory := ToI64(p.ul);
      case BalloonAvailable => v.memstat := v.memstat.(available := p.ul);
      case BalloonUsable => v.memstat := v.memstat.(usable := p.ul);
      case BalloonUnused => v.memstat := v.memstat.(unused := p.ul);
      case BalloonRss => v.memstat := v.memstat.(rss := p.ul);
      case BalloonDiskCaches =>
        if p.ul % 2 == 1 {
          v.enableFpr := true;
        }
      case Other =>
    }
  }

  method TakeParams(v: VmInfo, ps: seq<S.Param>)
    requires v.live
    modifies v`state, v`currentMem, v`memory, v`memstat, v`enableFpr
    ensures v.Abs() == S.ApplyParams(old(v.Abs()), ps, |ps|)
  {
    var i := 0;
    while i < |ps|
      invariant 0 <= i <= |ps|
      invariant v.Abs() == S.ApplyParams(old(v.Abs()), ps, i)
    {
      TakeParam(v, ps[i]);
      i := i + 1;
    }
  }

  /** The record at place `k` of the list. */
  method TakeAt(l: List, v: VmInfo, ghost k: nat, ps: seq<S.Param>)
    requires l.Valid() && k < |l.spine| && l.spine[k] == v
    modifies v`state, v`currentMem, v`memory, v`memstat, v`enableFpr
    ensures l.Valid()
    ensures l.Vms() == old(l.Vms())[k := S.ApplyParams(old(l.Vms())[k], ps, |ps|)]
  {
    TakeParams(v, ps);
    l.VmsWith(k);
  }

  /** `GetOneDomainStats`. */
  method GetOneDomainStats(l: List, s: S.Stats)
    requires l.Valid()
    modifies l.spine`state, l.spine`currentMem, l.spine`memory, l.spine`memstat, l.spine`enableFpr
    ensures l.Valid() && l.Vms() == S.ApplyStats(old(l.Vms()), s)
  {
    var v, k := D.FindByDomid(l, s.domid);
    if v != null {
      TakeAt(l, v, k, s.params);
    }
  }

  method ClearNext(v: VmInfo, ghost s: seq<VmInfo>, ghost before: seq<Vm>, ghost done: seq<Vm>)
    returns (ghost done': seq<Vm>)
    requires Distinct(s) && Passed(s, before, done) && |done| < |s| && v == s[|done|] && v.live
    requires Mapped(S.Clear, before, done)
    modifies v`memstat, v`enableFpr
    ensures |done'| == |done| + 1 && Passed(s, before, done')
    ensures Mapped(S.Clear, before, done')
  {
    done' := MapStep(S.Clear, before, done);
    assert v.Abs() == before[|done|];
    v.memstat := v.memstat.(actualBalloon := 0);
    v.memstat := v.memstat.(available := 0);
    v.memstat := v.memstat.(usable := 0);
    v.memstat := v.memstat.(unused := 0);
    v.memstat := v.memstat.(rss := 0);
    v.enableFpr := false;
  }

  /** `ClearAllDomainStats`. */
  method ClearAllDomainStats(l: List, ghost before: seq<Vm>) returns (ghost done: seq<Vm>)
    requires l.Valid() && Passed(l.spine, before, [])
    modifies l.spine`memstat, l.spine`enableFpr
    ensures |done| == |before| && Passed(l.spine, before, done)
    ensures done == S.ClearAll(before)
  {
    done := [];
    ghost var s := l.spine;
    var v := l.first;
    while v != null
      invariant Passed(s, before, done)
      invariant v == if |done| < |s| then s[|done|] else null
      invariant Mapped(S.Clear, before, done)
      decreases |s| - |done|
    {
      done := ClearNext(v, s, before, done);
      v := v.Next();
    }
    MapDone(S.Clear, before, done);
  }

  method ClearStats(l: List)
    requires l.Valid()
    modifies l.spine`memstat, l.spine`enableFpr
    ensures l.Valid() && l.Vms() == S.ClearAll(old(l.Vms()))
  {
    ghost var done := ClearAllDomainStats(l, l.Vms());
  }

  /** The list is intact and its records have these values. */
  ghost predicate Shows(l: List, now: seq<Vm>)
    reads l, l.spine
  {
    l.Valid() && Passed(l.spine, now, [])
  }

  method TakeNext(l: List, stats: seq<S.Stats>, i: nat, ghost course: seq<seq<Vm>>)
    requires |course| == |stats| + 1 && i < |stats| && Shows(l, course[i])
    requires forall j | 0 <= j < |stats| :: S.IsStep(stats, course, j)
    modifies l.spine`state, l.spine`currentMem, l.spine`memory, l.spine`memstat, l.spine`enableFpr
    ensures Shows(l, course[i + 1])
  {
    assert l.Vms() == course[i] && S.IsStep(stats, course, i);
    GetOneDomainStats(l, stats[i]);
  }

  method TakeStats(l: List, stats: seq<S.Stats>, ghost course: seq<seq<Vm>>)
    requires |course| == |stats| + 1 && Shows(l, course[0])
    requires forall j | 0 <= j < |stats| :: S.IsStep(stats, course, j)
    modifies l.spine`state, l.spine`currentMem, l.spine`memory, l.spine`memstat, l.spine`enableFpr
    ensures Shows(l, course[|stats|])
  {
    var i := 0;
    while i < |stats|
      invariant 0 <= i <= |stats| && Shows(l, course[i])
    {
      TakeNext(l, stats, i, course);
      i := i + 1;
    }
  }

  /** `GetAllDomainsStats`. */
  method GetAllDomainsStats(l: List, answer: S.Answer)
    requires l.Valid()
    modifies l.spine`state, l.spine`currentMem, l.spine`memory, l.spine`memstat, l.spine`enableFpr
    ensures l.Valid() && l.Vms() == S.Refresh(old(l.Vms()), answer)
  {
    if answer.NotConnected? {
      return;
    }
    ClearStats(l);
    if answer.Failed? {
      return;
    }
    ghost var course := S.CourseExists(l.Vms(), answer.stats);
    TakeStats(l, answer.stats, course);
    assert l.Vms() == course[|answer.stats|];
  }
}
