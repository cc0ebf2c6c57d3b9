/** The statistics refresh on values: every record is cleared, then the records libvirt delivers
    are folded into the list, parameter by parameter. */
module RefreshSpec {
  import opened Machine
  import opened Vm
  import opened ListSpec

  /** The parameter names the daemon compares with; `Other` is any name it ignores. */
  datatype Field =
    | StateState | BalloonCurrent | BalloonMaximum | BalloonAvailable
    | BalloonUsable | BalloonUnused | BalloonRss | BalloonDiskCaches | Other

  /** A typed parameter with the two views of its value the daemon reads. */
  datatype Param = Param(field: Field, i: i32, ul: u64)

  datatype Stats = Stats(domid: i32, params: seq<Param>)

  /** What a request for all statistics came to. */
  datatype Answer = NotConnected | Failed | Delivered(stats: seq<Stats>)

  function Clear(v: Vm): Vm { v.(memstat := NoStat, enableFpr := false) }

  function ApplyParam(v: Vm, p: Param): Vm {
    match p.field
    case StateState => v.(state := ToI16(p.i))
    case BalloonCurrent => v.(currentMem := ToI64(p.ul), memstat := v.memstat.(actualBalloon := p.ul))
    case BalloonMaximum => v.(memory := ToI64(p.ul))
    case BalloonAvailable => v.(memstat := v.memstat.(available := p.ul))
    case BalloonUsable => v.(memstat := v.memstat.(usable := p.ul))
    case BalloonUnused => v.(memstat := v.memstat.(unused := p.ul))
    case BalloonRss => v.(memstat := v.memstat.(rss := p.ul))
    case BalloonDiskCaches => if p.ul % 2 == 1 then v.(enableFpr := true) else v
    case Other => v
  }

  /** The first `n` parameters applied in order. */
  function ApplyParams(v: Vm, ps: seq<Param>, n: nat): Vm
    requires n <= |ps|
  {
    if n == 0 then v else ApplyParam(ApplyParams(v, ps, n - 1), ps[n - 1])
  }

  /** The record of a domain takes the statistics; those of unknown domains are ignored. */
  function ApplyStats(vms: seq<Vm>, s: Stats): seq<Vm> {
    var k := FirstDomid(vms, s.domid);
    if k < |vms| then vms[k := ApplyParams(vms[k], s.params, |s.params|)] else vms
  }

  function ApplyFirst(vms: seq<Vm>, ss: seq<Stats>, n: nat): seq<Vm>
    requires n <= |ss|
  {
    if n == 0 then vms else ApplyStats(ApplyFirst(vms, ss, n - 1), ss[n - 1])
  }

  /** Record `j` takes the list from one state of a course to the next. */
  predicate IsStep(ss: seq<Stats>, course: seq<seq<Vm>>, j: nat) {
    j + 1 < |course| && j < |ss| && course[j + 1] == ApplyStats(course[j], ss[j])
  }

  /** The states the list goes through while the records are folded in. */
  predicate IsCourse(vms: seq<Vm>, ss: seq<Stats>, course: seq<seq<Vm>>) {
    && |course| == |ss| + 1 && course[0] == vms && course[|ss|] == ApplyFirst(vms, ss, |ss|)
    && forall j | 0 <= j < |ss| :: IsStep(ss, course, j)
  }

  lemma CourseExists(vms: seq<Vm>, ss: seq<Stats>) returns (course: seq<seq<Vm>>)
    ensures IsCourse(vms, ss, course)
  {
    course := seq(|ss| + 1, n requires 0 <= n <= |ss| => ApplyFirst(vms, ss, n));
    forall j | 0 <= j < |ss| ensures IsStep(ss, course, j) {
      assert course[j + 1] == ApplyStats(course[j], ss[j]);
    }
  }

  function ClearAll(vms: seq<Vm>): seq<Vm> { MapAll(Clear, vms) }

  /** `GetAllDomainsStats`: without a connection nothing happens, and a failed request leaves
      every record cleared. */
  function Refresh(vms: seq<Vm>, answer: Answer): seq<Vm> {
    match answer
    case NotConnected => vms
    case Failed => ClearAll(vms)
    case Delivered(ss) => ApplyFirst(ClearAll(vms), ss, |ss|)
  }

  // ---------- What the refresh means ----------

  /** The last of the first `n` parameters with a name. */
  function LastIn(ps: seq<Param>, n: nat, f: Field): Option<Param>
    requires n <= |ps|
  {
    if n == 0 then None
    else if ps[n - 1].field == f then Some(ps[n - 1])
    else LastIn(ps, n - 1, f)
  }

  /** The last parameter with a name that was delivered for a domain. */
  function LastOf(ss: seq<Stats>, n: nat, domid: i32, f: Field): Option<Param>
    requires n <= |ss|
  {
    if n == 0 then None
    else
      var here := LastIn(ss[n - 1].params, |ss[n - 1].params|, f);
      if ss[n - 1].domid == domid && here.Some? then here else LastOf(ss, n - 1, domid, f)
  }

  /** A free-page-reporting flag was delivered among the first `n` parameters. */
  predicate FprIn(ps: seq<Param>, n: nat)
    requires n <= |ps|
  {
    exists i :: 0 <= i < n && ps[i].field == BalloonDiskCaches && ps[i].ul % 2 == 1
  }

  predicate FprOf(ss: seq<Stats>, n: nat, domid: i32)
    requires n <= |ss|
  {
    exists i :: 0 <= i < n && ss[i].domid == domid && FprIn(ss[i].params, |ss[i].params|)
  }

  /** What was delivered for one record: the last parameter of each name. */
  datatype News = News(
    state: Option<Param>, current: Option<Param>, maximum: Option<Param>, available: Option<Param>,
    usable: Option<Param>, unused: Option<Param>, rss: Option<Param>, fpr: bool)

  function NewsIn(ps: seq<Param>, n: nat): News
    requires n <= |ps|
  {
    News(LastIn(ps, n, StateState), LastIn(ps, n, BalloonCurrent), LastIn(ps, n, BalloonMaximum),
         LastIn(ps, n, BalloonAvailable), LastIn(ps, n, BalloonUsable), LastIn(ps, n, BalloonUnused),
         LastIn(ps, n, BalloonRss), FprIn(ps, n))
  }

  function NewsOf(ss: seq<Stats>, n: nat, domid: i32): News
    requires n <= |ss|
  {
    News(LastOf(ss, n, domid, StateState), LastOf(ss, n, domid, BalloonCurrent),
         LastOf(ss, n, domid, BalloonMaximum), LastOf(ss, n, domid, BalloonAvailable),
         LastOf(ss, n, domid, BalloonUsable), LastOf(ss, n, domid, BalloonUnused),
         LastOf(ss, n, domid, BalloonRss), FprOf(ss, n, domid))
  }

  function UlOr(p: Option<Param>, default: u64): u64 { if p.Some? then p.value.ul else default }

  /** A record overwritten with news; whatever was not delivered keeps its value, and nothing
      the controller owns is touched. */
  function Overwrite(v: Vm, d: News): Vm {
    v.(state := if d.state.Some? then ToI16(d.state.value.i) else v.state,
       memory := if d.maximum.Some? then ToI64(d.maximum.value.ul) else v.memory,
       currentMem := if d.current.Some? then ToI64(d.current.value.ul) else v.currentMem,
       memstat := MemStat(UlOr(d.current, v.memstat.actualBalloon), UlOr(d.available, v.memstat.available),
                          UlOr(d.unused, v.memstat.unused), UlOr(d.usable, v.memstat.usable),
                          UlOr(d.rss, v.memstat.rss)),
       enableFpr := v.enableFpr || d.fpr)
  }

  function Told(d: News, p: Param): News {
    match p.field
    case StateState => d.(state := Some(p))
    case BalloonCurrent => d.(current := Some(p))
    case BalloonMaximum => d.(maximum := Some(p))
    case BalloonAvailable => d.(available := Some(p))
    case BalloonUsable => d.(usable := Some(p))
    case BalloonUnused => d.(unused := Some(p))
    case BalloonRss => d.(rss := Some(p))
    case BalloonDiskCaches => d.(fpr := d.fpr || p.ul % 2 == 1)
    case Other => d
  }

  lemma NewsTold(ps: seq<Param>, n: nat)
    requires 0 < n <= |ps|
    ensures NewsIn(ps, n) == Told(NewsIn(ps, n - 1), ps[n - 1])
  {
    assert FprIn(ps, n) <==> FprIn(ps, n - 1) || (ps[n - 1].field == BalloonDiskCaches && ps[n - 1].ul % 2 == 1);
  }

  lemma ToldBalloon(v: Vm, d: News, p: Param)
    requires p.field.BalloonAvailable? || p.field.BalloonUsable? || p.field.BalloonUnused? || p.field.BalloonRss?
    ensures ApplyParam(Overwrite(v, d), p) == Overwrite(v, Told(d, p))
  {
    var m := Overwrite(v, d).memstat;
    match p.field {
      case BalloonAvailable => assert Overwrite(v, Told(d, p)).memstat == m.(available := p.ul);
      case BalloonUsable => assert Overwrite(v, Told(d, p)).memstat == m.(usable := p.ul);
      case BalloonUnused => assert Overwrite(v, Told(d, p)).memstat == m.(unused := p.ul);
      case BalloonRss => assert Overwrite(v, Told(d, p)).memstat == m.(rss := p.ul);
    }
  }

  lemma ToldCurrent(v: Vm, d: News, p: Param)
    requires p.field.BalloonCurrent?
    ensures ApplyParam(Overwrite(v, d), p) == Overwrite(v, Told(d, p))
  {
    var w, m := Overwrite(v, Told(d, p)), Overwrite(v, d).memstat;
    assert w.memstat == m.(actualBalloon := p.ul);
  }

  lemma ToldScalar(v: Vm, d: News, p: Param)
    requires p.field.StateState? || p.field.BalloonMaximum? || p.field.BalloonDiskCaches? || p.field.Other?
    ensures ApplyParam(Overwrite(v, d), p) == Overwrite(v, Told(d, p))
  {
    assert Overwrite(v, Told(d, p)).memstat == Overwrite(v, d).memstat;
  }

  lemma ToldOverwrites(v: Vm, d: News, p: Param)
    ensures ApplyParam(Overwrite(v, d), p) == Overwrite(v, Told(d, p))
  {
    match p.field {
      case BalloonCurrent => ToldCurrent(v, d, p);
      case BalloonAvailable | BalloonUsable | BalloonUnused | BalloonRss => ToldBalloon(v, d, p);
      case _ => ToldScalar(v, d, p);
    }
  }

  /** The parameters of one delivery: the last of each name wins. */
  lemma {:induction false} ParamsOverwrite(v: Vm, ps: seq<Param>, n: nat)
    requires n <= |ps|
    ensures ApplyParams(v, ps, n) == Overwrite(v, NewsIn(ps, n))
  {
    if n > 0 {
      ParamsOverwrite(v, ps, n - 1);
      NewsTold(ps, n);
      ToldOverwrites(v, NewsIn(ps, n - 1), ps[n - 1]);
    }
  }

  function Later(a: Option<Param>, b: Option<Param>): Option<Param> { if b.Some? then b else a }

  function Merge(a: News, b: News): News {
    News(Later(a.state, b.state), Later(a.current, b.current), Later(a.maximum, b.maximum),
         Later(a.available, b.available), Later(a.usable, b.usable), Later(a.unused, b.unused),
         Later(a.rss, b.rss), a.fpr || b.fpr)
  }

  lemma NewsMerge(ss: seq<Stats>, n: nat, domid: i32)
    requires 0 < n <= |ss|
    ensures NewsOf(ss, n, domid)
         == if ss[n - 1].domid == domid
            then Merge(NewsOf(ss, n - 1, domid), NewsIn(ss[n - 1].params, |ss[n - 1].params|))
            else NewsOf(ss, n - 1, domid)
  {
    assert FprOf(ss, n, domid) <==>
             FprOf(ss, n - 1, domid)
             || (ss[n - 1].domid == domid && FprIn(ss[n - 1].params, |ss[n - 1].params|));
  }

  lemma FirstDomidAt(vms: seq<Vm>, k: nat)
    requires DistinctDomids(vms) && k < |vms|
    ensures FirstDomid(vms, vms[k].domid) == k
  {
  }

  /** The refresh of a list: every record is overwritten with the last parameter of each name
      that was delivered for its domain, in whatever order and however often. */
  lemma {:induction false} StatsOverwrite(vms: seq<Vm>, ss: seq<Stats>, n: nat, k: nat)
    requires DistinctDomids(vms) && n <= |ss| && k < |vms|
    ensures |ApplyFirst(vms, ss, n)| == |vms|
    ensures ApplyFirst(vms, ss, n)[k] == Overwrite(vms[k], NewsOf(ss, n, vms[k].domid))
  {
    if n > 0 {
      var now, s := ApplyFirst(vms, ss, n - 1), ss[n - 1];
      forall j | 0 <= j < |vms|
        ensures |now| == |vms| && now[j] == Overwrite(vms[j], NewsOf(ss, n - 1, vms[j].domid))
      {
        StatsOverwrite(vms, ss, n - 1, j);
      }
      NewsMerge(ss, n, vms[k].domid);
      var i := FirstDomid(now, s.domid);
      if now[k].domid == s.domid {
        FirstDomidAt(now, k);
        ParamsOverwrite(now[k], s.params, |s.params|);
      }
    }
  }

  /** What a refresh leaves in a record. */
  function RefreshOne(v: Vm, answer: Answer): Vm {
    match answer
    case NotConnected => v
    case Failed => Clear(v)
    case Delivered(ss) => Overwrite(Clear(v), NewsOf(ss, |ss|, v.domid))
  }

  /** The whole refresh, record by record. */
  lemma RefreshMeaning(vms: seq<Vm>, answer: Answer, k: nat)
    requires DistinctDomids(vms) && k < |vms|
    ensures |Refresh(vms, answer)| == |vms|
    ensures Refresh(vms, answer)[k] == RefreshOne(vms[k], answer)
  {
    if !answer.NotConnected? {
      if answer.Delivered? {
        StatsOverwrite(ClearAll(vms), answer.stats, |answer.stats|, k);
      }
    }
  }

  // ---------- Field by field ----------

  /** The view of an unsigned value the daemon takes, or what there was before. */
  function Size(p: Option<Param>, before: i64): i64 { if p.Some? then ToI64(p.value.ul) else before }

  /** Parameter `j` of delivery `i` has a name and is for a domain. */
  predicate Names(ss: seq<Stats>, i: int, j: int, domid: i32, f: Field) {
    0 <= i < |ss| && ss[i].domid == domid && 0 <= j < |ss[i].params| && ss[i].params[j].field == f
  }

  lemma FprMeaning(ss: seq<Stats>, domid: i32)
    ensures FprOf(ss, |ss|, domid)
       <==> exists i, j :: Names(ss, i, j, domid, BalloonDiskCaches) && ss[i].params[j].ul % 2 == 1
  {
    if FprOf(ss, |ss|, domid) {
      var i :| 0 <= i < |ss| && ss[i].domid == domid && FprIn(ss[i].params, |ss[i].params|);
      var ps := ss[i].params;
      var j :| 0 <= j < |ps| && ps[j].field == BalloonDiskCaches && ps[j].ul % 2 == 1;
      assert Names(ss, i, j, domid, BalloonDiskCaches);
    }
    forall i, j | Names(ss, i, j, domid, BalloonDiskCaches) && ss[i].params[j].ul % 2 == 1
      ensures FprOf(ss, |ss|, domid)
    {
      assert FprIn(ss[i].params, |ss[i].params|);
    }
  }

  /** Which parameter ends up in which field: of each name the last one delivered for the domain. What
      is not delivered is cleared among the statistics and stays everywhere else. */
  lemma RefreshFields(vms: seq<Vm>, ss: seq<Stats>, k: nat)
    requires DistinctDomids(vms) && k < |vms|
    ensures |Refresh(vms, Delivered(ss))| == |vms|
    ensures var v, w, n := vms[k], Refresh(vms, Delivered(ss))[k], |ss|;
            var state := LastOf(ss, n, v.domid, StateState);
            && w.memstat.actualBalloon == UlOr(LastOf(ss, n, v.domid, BalloonCurrent), 0)
            && w.memstat.available == UlOr(LastOf(ss, n, v.domid, BalloonAvailable), 0)
            && w.memstat.usable == UlOr(LastOf(ss, n, v.domid, BalloonUsable), 0)
            && w.memstat.unused == UlOr(LastOf(ss, n, v.domid, BalloonUnused), 0)
            && w.memstat.rss == UlOr(LastOf(ss, n, v.domid, BalloonRss), 0)
            && w.currentMem == Size(LastOf(ss, n, v.domid, BalloonCurrent), v.currentMem)
            && w.memory == Size(LastOf(ss, n, v.domid, BalloonMaximum), v.memory)
            && w.state == (if state.Some? then ToI16(state.value.i) else v.state)
            && (w.enableFpr <==>
                  exists i, j :: Names(ss, i, j, v.domid, BalloonDiskCaches) && ss[i].params[j].ul % 2 == 1)
            && w == v.(memstat := w.memstat, currentMem := w.currentMem, memory := w.memory,
                       state := w.state, enableFpr := w.enableFpr)
  {
    RefreshMeaning(vms, Delivered(ss), k);
    FprMeaning(ss, vms[k].domid);
  }

  /** A request that failed leaves every record without statistics, and one without a connection
      leaves everything as it was. */
  lemma FailedRefresh(vms: seq<Vm>, k: nat)
    requires DistinctDomids(vms) && k < |vms|
    ensures Refresh(vms, NotConnected) == vms && |Refresh(vms, Failed)| == |vms|
    ensures Refresh(vms, Failed)[k] == vms[k].(memstat := MemStat(0, 0, 0, 0, 0), enableFpr := false)
  {
    RefreshMeaning(vms, Failed, k);
  }

  lemma {:induction false} LastInMeaning(ps: seq<Param>, n: nat, f: Field) returns (j: int)
    requires n <= |ps|
    ensures LastIn(ps, n, f).None? ==> forall l | 0 <= l < n :: ps[l].field != f
    ensures LastIn(ps, n, f).Some? ==>
              && 0 <= j < n && ps[j] == LastIn(ps, n, f).value && ps[j].field == f
              && forall l | j < l < n :: ps[l].field != f
  {
    j := n - 1;
    if n > 0 && ps[n - 1].field != f {
      j := LastInMeaning(ps, n - 1, f);
    }
  }

  /** The last parameter of a name is one that was delivered, and no other comes after it. */
  lemma {:induction false} LastOfMeaning(ss: seq<Stats>, n: nat, domid: i32, f: Field) returns (i: int, j: int)
    requires n <= |ss|
    ensures LastOf(ss, n, domid, f).None? ==> forall x, y | x < n :: !Names(ss, x, y, domid, f)
    ensures LastOf(ss, n, domid, f).Some? ==>
              && i < n && Names(ss, i, j, domid, f) && ss[i].params[j] == LastOf(ss, n, domid, f).value
              && forall x, y | i <= x < n && (x > i || y > j) :: !Names(ss, x, y, domid, f)
  {
    i, j := n - 1, 0;
    if n > 0 {
      j := LastInMeaning(ss[n - 1].params, |ss[n - 1].params|, f);
      if ss[n - 1].domid != domid || LastIn(ss[n - 1].params, |ss[n - 1].params|, f).None? {
        i, j := LastOfMeaning(ss, n - 1, domid, f);
      }
    }
  }
}
