/** The operations of the driver on the shared list; each runs under the list lock. */
module Driver {
  import opened Machine
  import opened Vm
  import opened Records
  import opened ListSpec
  import opened VmList

  /** `DeleteVMFromList`. */
  method DeleteVMFromList(l: List, v: VmInfo, ghost k: nat)
    requires l.Linked() && v.live && k < |l.spine| && l.spine[k] == v
    modifies l, l.known`next, l.known`prev, v`live
    ensures l.Linked() && l.known == old(l.known) && !v.live
    ensures l.spine == old(l.spine)[..k] + old(l.spine)[k + 1..]
  {
    l.Remove(v, k);
    v.Free();
  }

  /** Dropping a reference, record by record. */
  method DropReference(l: List, v: VmInfo, ghost k: nat)
    requires l.Valid() && k < |l.spine| && l.spine[k] == v
    modifies l, l.known`next, l.known`prev, v`refcount, v`live
    ensures l.Valid() && l.known == old(l.known)
    ensures l.spine == if old(v.refcount) == 1 then old(l.spine)[..k] + old(l.spine)[k + 1..] else old(l.spine)
    ensures forall i | 0 <= i < |old(l.spine)| && i != k :: old(l.spine)[i].Abs() == old(l.spine[i].Abs())
    ensures v.Abs() == old(v.Abs()).(refcount := old(v.refcount) - 1)
    ensures v.live <==> old(v.refcount) != 1
  {
    v.AddRef(-1);
    assert l.Linked();
    if v.refcount == 0 {
      DeleteVMFromList(l, v, k);
    }
  }

  /** `VMInfoUnref`: the last reference unlinks and frees the record. */
  method VMInfoUnref(l: List, v: VmInfo, ghost k: nat)
    requires l.Valid() && k < |l.spine| && l.spine[k] == v
    modifies l, l.known`next, l.known`prev, v`refcount, v`live
    ensures l.Valid() && l.known == old(l.known)
    ensures l.spine == if old(v.refcount) == 1 then old(l.spine)[..k] + old(l.spine)[k + 1..] else old(l.spine)
    ensures l.Vms() == Unref(old(l.Vms()), k)
    ensures v.live <==> old(v.refcount) != 1
  {
    assert l.Vms()[k] == v.Abs();
    DropReference(l, v, k);
    if old(v.refcount) == 1 { l.VmsWithout(k); } else { l.VmsWith(k); }
  }

  method TakeReference(l: List, v: VmInfo, ghost k: nat)
    requires l.Valid() && k < |l.spine| && l.spine[k] == v
    modifies v`refcount
    ensures l.Valid()
    ensures v.Abs() == old(v.Abs()).(refcount := old(v.refcount) + 1)
  {
    v.AddRef(1);
    assert l.Linked();
  }

  /** `VMInfoRef`. */
  method VMInfoRef(l: List, v: VmInfo, ghost k: nat)
    requires l.Valid() && k < |l.spine| && l.spine[k] == v
    modifies v`refcount
    ensures l.Valid()
    ensures l.Vms() == Ref(old(l.Vms()), k)
  {
    assert l.Vms()[k] == v.Abs();
    TakeReference(l, v, k);
    l.VmsWith(k);
  }

  lemma FirstNamedIs(vms: seq<Vm>, name: string, k: nat)
    requires k <= |vms| && (forall i | 0 <= i < k :: vms[i].domname != name)
    requires k < |vms| ==> vms[k].domname == name
    ensures FirstNamed(vms, name) == k
  {
  }

  lemma FirstDomidIs(vms: seq<Vm>, domid: i32, k: nat)
    requires k <= |vms| && (forall i | 0 <= i < k :: vms[i].domid != domid)
    requires k < |vms| ==> vms[k].domid == domid
    ensures FirstDomid(vms, domid) == k
  {
  }

  /** Walks the links to the first record of a domain. */
  method FindByDomid(l: List, domid: i32) returns (v: VmInfo?, ghost k: nat)
    requires l.Valid()
    ensures k == FirstDomid(l.Vms(), domid)
    ensures v == if k < |l.spine| then l.spine[k] else null
  {
    v, k := l.first, 0;
    while v != null && v.domid != domid
      invariant 0 <= k <= |l.spine|
      invariant v == if k < |l.spine| then l.spine[k] else null
      invariant forall j | 0 <= j < k :: l.spine[j].domid != domid
      decreases |l.spine| - k
    {
      v := v.Next();
      k := k + 1;
    }
    FirstDomidIs(l.Vms(), domid, k);
  }

  /** Walks the links to the first record with a name. */
  method FindByName(l: List, name: string) returns (v: VmInfo?, ghost k: nat)
    requires l.Valid()
    ensures k == FirstNamed(l.Vms(), name)
    ensures v == if k < |l.spine| then l.spine[k] else null
  {
    v, k := l.first, 0;
    while v != null && v.domname != name
      invariant 0 <= k <= |l.spine|
      invariant v == if k < |l.spine| then l.spine[k] else null
      invariant forall j | 0 <= j < k :: l.spine[j].domname != name
      decreases |l.spine| - k
    {
      v := v.Next();
      k := k + 1;
    }
    FirstNamedIs(l.Vms(), name, k);
  }

  /** `InitAndCheckVM`: fills a new record from what libvirt knows of its domain. */
  method InitAndCheckVM(v: VmInfo, probe: Probe) returns (ok: bool)
    modifies v`domname, v`memory, v`currentMem, v`state
    ensures ok <==> probe.found && probe.name.Some? && probe.hugePages <= 0 && probe.info.Some?
    ensures ok ==> v.Abs() == WithInfo(old(v.Abs()).(domname := probe.name.value), probe.info.value)
  {
    if !probe.found || probe.name.None? {
      return false;
    }
    v.domname := probe.name.value;
    if probe.hugePages > 0 {
      return false;
    }
    match probe.info
    case None => return false;
    case Some(info) =>
      v.memory, v.currentMem, v.state := info.maxMem, info.memory, info.state;
      return true;
  }

  /** Creates a record and fills it; a record that cannot be filled is freed again. */
  method CreateVM(domid: i32, probe: Probe) returns (v: VmInfo?)
    ensures v != null <==> probe.Accepts()
    ensures v != null ==> fresh(v) && v.live
    ensures v != null ==> v.Abs() == WithInfo(NewVm(domid).(domname := probe.name.value), probe.info.value)
  {
    if !probe.hasMemory {
      return null;
    }
    v := new VmInfo(domid);
    var ok := InitAndCheckVM(v, probe);
    if !ok {
      v.Free();
      v := null;
    }
  }

  method InsertVM(l: List, v: VmInfo)
    requires l.Valid() && v !in l.spine && v.live && v.refcount >= 1
    modifies l, v`next, v`prev, l.known`prev
    ensures l.Valid() && l.Vms() == [old(v.Abs())] + old(l.Vms())
  {
    l.InsertHead(v);
    l.VmsPushed(v);
  }

  /** `FindAddVMToList`. */
  method FindAddVMToList(l: List, domid: i32, probe: Probe)
    requires l.Valid()
    modifies l, l.known`prev
    ensures l.Valid()
    ensures l.Vms() == AddVm(old(l.Vms()), domid, probe)
  {
    var found, k := FindByDomid(l, domid);
    if found == null {
      var v := CreateVM(domid, probe);
      if v != null {
        assert v.Abs().refcount == 1;
        InsertVM(l, v);
      }
    }
  }

  /** `FindDeleteVMFromList`. */
  method FindDeleteVMFromList(l: List, name: string)
    requires l.Valid()
    modifies l, l.known`next, l.known`prev, l.known`refcount, l.known`live
    ensures l.Valid()
    ensures l.Vms() == DeleteNamed(old(l.Vms()), name)
  {
    var v, k := FindByName(l, name);
    if v != null {
      VMInfoUnref(l, v, k);
    }
  }

  /** `GetRefVMInfoByDomid`: finds a record and takes a reference to it. */
  method GetRefVMInfoByDomid(l: List, domid: i32) returns (v: VmInfo?)
    requires l.Valid()
    modifies l.known`refcount
    ensures l.Valid() && l.spine == old(l.spine)
    ensures var k := FirstDomid(old(l.Vms()), domid);
            if k < |l.spine| then v == l.spine[k] && l.Vms() == Ref(old(l.Vms()), k)
            else v == null && l.Vms() == old(l.Vms())
  {
    ghost var k;
    v, k := FindByDomid(l, domid);
    if v != null {
      VMInfoRef(l, v, k);
    }
  }

  /** `PutUnrefVMInfo`: gives a reference back. */
  method PutUnrefVMInfo(l: List, v: VmInfo?, ghost k: nat)
    requires l.Valid() && (v != null ==> k < |l.spine| && l.spine[k] == v)
    modifies l, l.known`next, l.known`prev, l.known`refcount, l.known`live
    ensures l.Valid()
    ensures l.Vms() == if v == null then old(l.Vms()) else Unref(old(l.Vms()), k)
  {
    if v == null {
      return;
    }
    VMInfoUnref(l, v, k);
  }

  /** One step of `FreeAllVM` at place `m`: the next link is read while the record is still
      there, and then leads to the record that is at place `m'` afterwards. */
  method FreeOne(l: List, cur: VmInfo, ghost m: nat) returns (next: VmInfo?, ghost m': nat)
    requires l.Valid() && m < |l.spine| && cur == l.spine[m]
    modifies l, l.known`next, l.known`prev, cur`refcount, cur`live
    ensures l.Valid() && l.known == old(l.known)
    ensures l.Vms() == Unref(old(l.Vms()), m)
    ensures m' == m + if old(l.Vms())[m].refcount == 1 then 0 else 1
    ensures next == if m' < |l.spine| then l.spine[m'] else null
  {
    next := cur.Next();
    m' := m + if cur.refcount == 1 then 0 else 1;
    VMInfoUnref(l, cur, m);
  }

  /** `FreeAllVM`: drops one reference of every record, destroying records while it walks. */
  method FreeAllVM(l: List)
    requires l.Valid()
    modifies l, l.known`next, l.known`prev, l.known`refcount, l.known`live
    ensures l.Valid()
    ensures l.Vms() == FreeAll(old(l.Vms()))
  {
    ghost var before, i, done := l.Vms(), 0, [];
    var cur := l.first;
    while cur != null
      invariant l.Valid() && l.known == old(l.known)
      invariant i <= |before| && |done| <= |l.spine|
      invariant cur == if |done| < |l.spine| then l.spine[|done|] else null
      invariant l.Vms() == done + before[i..]
      invariant done + FreeFrom(before, i) == FreeAll(before)
      decreases |before| - i
    {
      ghost var done' := FreeStep(done, before, i);
      ghost var m;
      cur, m := FreeOne(l, cur, |done|);
      done, i := done', i + 1;
    }
  }

  method UpdateNext(v: VmInfo, answers: map<i32, Info>, ghost s: seq<VmInfo>, ghost before: seq<Vm>,
                    ghost done: seq<Vm>)
    returns (ghost done': seq<Vm>)
    requires Mapped(Updater(answers), before, done)
    requires Distinct(s) && Passed(s, before, done) && |done| < |s| && v == s[|done|] && v.live
    modifies v`memory, v`currentMem, v`state
    ensures |done'| == |done| + 1 && Passed(s, before, done')
    ensures Mapped(Updater(answers), before, done')
  {
    done' := MapStep(Updater(answers), before, done);
    assert v.Abs() == before[|done|];
    if v.domid in answers {
      var info := answers[v.domid];
      v.memory, v.currentMem, v.state := info.maxMem, info.memory, info.state;
    }
  }

  method UpdatePass(l: List, answers: map<i32, Info>, ghost before: seq<Vm>) returns (ghost done: seq<Vm>)
    requires l.Valid() && Passed(l.spine, before, [])
    modifies l.spine`memory, l.spine`currentMem, l.spine`state
    ensures |done| == |before| && Passed(l.spine, before, done)
    ensures done == UpdateAll(before, answers)
  {
    done := [];
    ghost var s := l.spine;
    var v := l.first;
    while v != null
      invariant Passed(s, before, done)
      invariant v == if |done| < |s| then s[|done|] else null
      invariant Mapped(Updater(answers), before, done)
      decreases |s| - |done|
    {
      done := UpdateNext(v, answers, s, before, done);
      v := v.Next();
    }
    MapDone(Updater(answers), before, done);
  }

  /** `UpdateAllVmInfo`. */
  method UpdateAllVmInfo(l: List, answers: map<i32, Info>)
    requires l.Valid()
    modifies l.spine`memory, l.spine`currentMem, l.spine`state
    ensures l.Valid() && l.Vms() == UpdateAll(old(l.Vms()), answers)
  {
    ghost var done := UpdatePass(l, answers, l.Vms());
  }
}
