/** What the operations on the list of records do, on values; the oldest record is last. */
module ListSpec {
  import opened Machine
  import opened Vm

  datatype Option<T> = None | Some(value: T)

  /** What libvirt says about a domain. */
  datatype Info = Info(maxMem: i64, memory: i64, state: int)

  function WithInfo(v: Vm, info: Info): Vm {
    v.(memory := info.maxMem, currentMem := info.memory, state := info.state)
  }

  /** Everything the environment decides while a domain is added. */
  datatype Probe = Probe(
    hasMemory: bool,
    found: bool,
    name: Option<string>,
    hugePages: int,
    info: Option<Info>)
  {
    predicate Accepts() { hasMemory && found && name.Some? && hugePages <= 0 && info.Some? }
  }

  ghost predicate DistinctDomids(vms: seq<Vm>) {
    forall i, j | 0 <= i < j < |vms| :: vms[i].domid != vms[j].domid
  }

  function AddVm(vms: seq<Vm>, domid: i32, probe: Probe): seq<Vm> {
    if FirstDomid(vms, domid) < |vms| || !probe.Accepts() then vms
    else [WithInfo(NewVm(domid).(domname := probe.name.value), probe.info.value)] + vms
  }

  /** Dropping a reference frees the record with the last one. */
  function Unref(vms: seq<Vm>, k: nat): seq<Vm>
    requires k < |vms|
  {
    if vms[k].refcount == 1 then vms[..k] + vms[k + 1..]
    else vms[k := vms[k].(refcount := vms[k].refcount - 1)]
  }

  function Ref(vms: seq<Vm>, k: nat): seq<Vm>
    requires k < |vms|
  {
    vms[k := vms[k].(refcount := vms[k].refcount + 1)]
  }

  /** The first record with a property, or the length of the list. */
  function FirstNamed(vms: seq<Vm>, name: string): (k: nat)
    ensures k <= |vms|
    ensures forall i | 0 <= i < k :: vms[i].domname != name
    ensures k < |vms| ==> vms[k].domname == name
  {
    if vms == [] || vms[0].domname == name then 0 else 1 + FirstNamed(vms[1..], name)
  }

  function FirstDomid(vms: seq<Vm>, domid: i32): (k: nat)
    ensures k <= |vms|
    ensures forall i | 0 <= i < k :: vms[i].domid != domid
    ensures k < |vms| ==> vms[k].domid == domid
  {
    if vms == [] || vms[0].domid == domid then 0 else 1 + FirstDomid(vms[1..], domid)
  }

  function DeleteNamed(vms: seq<Vm>, name: string): seq<Vm> {
    var k := FirstNamed(vms, name);
    if k < |vms| then Unref(vms, k) else vms
  }

  /** What is left of a record after dropping a reference. */
  function Remains(v: Vm): seq<Vm> {
    if v.refcount == 1 then [] else [v.(refcount := v.refcount - 1)]
  }

  /** Dropping one reference of every record from the `i`-th on. */
  function FreeFrom(vms: seq<Vm>, i: nat): seq<Vm>
    requires i <= |vms|
    decreases |vms| - i
  {
    if i == |vms| then [] else Remains(vms[i]) + FreeFrom(vms, i + 1)
  }

  function FreeAll(vms: seq<Vm>): seq<Vm> { FreeFrom(vms, 0) }

  /** Asking libvirt about one record; a domain it does not answer for is left alone. */
  function Updated(v: Vm, answers: map<i32, Info>): Vm {
    if v.domid in answers then WithInfo(v, answers[v.domid]) else v
  }

  /** One step for each record of a list. */
  function MapAll(f: Vm -> Vm, vms: seq<Vm>): (r: seq<Vm>)
    ensures |r| == |vms| && forall i | 0 <= i < |r| :: r[i] == f(vms[i])
  {
    seq(|vms|, i requires 0 <= i < |vms| => f(vms[i]))
  }

  /** A pass that has made its step on the first records: they are `done`. */
  predicate Mapped(f: Vm -> Vm, vms: seq<Vm>, done: seq<Vm>) {
    |done| <= |vms| && forall i | 0 <= i < |done| :: done[i] == f(vms[i])
  }

  lemma MapStep(f: Vm -> Vm, vms: seq<Vm>, done: seq<Vm>) returns (done': seq<Vm>)
    requires |done| < |vms| && Mapped(f, vms, done)
    ensures done' == done + [f(vms[|done|])] && Mapped(f, vms, done')
  {
    done' := done + [f(vms[|done|])];
  }

  lemma MapDone(f: Vm -> Vm, vms: seq<Vm>, done: seq<Vm>)
    requires |done| == |vms| && Mapped(f, vms, done)
    ensures done == MapAll(f, vms)
  {
  }

  function Updater(answers: map<i32, Info>): Vm -> Vm { v => Updated(v, answers) }

  function UpdateAll(vms: seq<Vm>, answers: map<i32, Info>): seq<Vm> { MapAll(Updater(answers), vms) }

  /** The record of a domain that libvirt answers for shows its maximum as its memory, its memory as
      its current size, and its state; nothing else changes, and no other record. */
  lemma UpdateMeaning(vms: seq<Vm>, answers: map<i32, Info>, k: nat)
    requires k < |vms|
    ensures |UpdateAll(vms, answers)| == |vms|
    ensures var v, w := vms[k], UpdateAll(vms, answers)[k];
            if v.domid in answers then
              var info := answers[v.domid];
              && w.memory == info.maxMem && w.currentMem == info.memory && w.state == info.state
              && w == v.(memory := w.memory, currentMem := w.currentMem, state := w.state)
            else w == v
  {
  }

  /** A domain is added in front exactly if it is not listed yet and everything about it can be found
      out: idle, armed, with one reference and no statistics. */
  lemma AddMeaning(vms: seq<Vm>, domid: i32, probe: Probe)
    ensures var r := AddVm(vms, domid, probe);
            if (exists k :: 0 <= k < |vms| && vms[k].domid == domid)
               || !probe.hasMemory || !probe.found || probe.name.None? || probe.hugePages > 0 || probe.info.None?
            then r == vms
            else
              && |r| == |vms| + 1 && r[1..] == vms
              && var v, info := r[0], probe.info.value;
              && v.domid == domid && v.domname == probe.name.value
              && v.memory == info.maxMem && v.currentMem == info.memory && v.state == info.state
              && v.memstat == MemStat(0, 0, 0, 0, 0) && v.minGuarantee == 0 && !v.enableFpr && !v.lockall
              && !v.ballooning && !v.ballooningDown && !v.incompleteBalloon
              && v.needBalloonFlag == 1 && v.refcount == 1
              && v.balloonTarget == 0 && v.currentActualBalloon == [0, 0] && v.balloonI == 0
  {
    var k := FirstDomid(vms, domid);
    assert k < |vms| ==> vms[k].domid == domid;
  }

  lemma Associative<T>(a: seq<T>, b: seq<T>, c: seq<T>)
    ensures a + b + c == a + (b + c)
  {
  }

  /** Dropping the first record not yet visited: `done'` are the records visited so far. */
  lemma FreeStep(done: seq<Vm>, vms: seq<Vm>, i: nat) returns (done': seq<Vm>)
    requires i < |vms|
    ensures |done'| == |done| + if vms[i].refcount == 1 then 0 else 1
    ensures Unref(done + vms[i..], |done|) == done' + vms[i + 1..]
    ensures done' + FreeFrom(vms, i + 1) == done + FreeFrom(vms, i)
  {
    done' := done + Remains(vms[i]);
    Associative(done, Remains(vms[i]), FreeFrom(vms, i + 1));
    var rest := vms[i..];
    assert (done + rest)[|done|] == vms[i];
    assert rest == [vms[i]] + vms[i + 1..];
  }

  /** Releasing a list is releasing its parts: every record is released once, and those that
      survive keep their order. */
  lemma {:induction false} FreeAllConcat(a: seq<Vm>, b: seq<Vm>, i: nat)
    requires i <= |a|
    ensures FreeFrom(a + b, i) == FreeFrom(a, i) + FreeAll(b)
    decreases |a| - i
  {
    if i < |a| {
      FreeAllConcat(a, b, i + 1);
      Associative(Remains(a[i]), FreeFrom(a, i + 1), FreeAll(b));
    } else {
      FreeFromShift(a, b, 0);
    }
  }

  lemma {:induction false} FreeFromShift(a: seq<Vm>, b: seq<Vm>, i: nat)
    requires i <= |b|
    ensures FreeFrom(a + b, |a| + i) == FreeFrom(b, i)
    decreases |b| - i
  {
    if i < |b| {
      assert (a + b)[|a| + i] == b[i];
      FreeFromShift(a, b, i + 1);
    }
  }

  /** A released list is empty exactly when nobody held a reference besides the list. */
  lemma {:induction false} FreeAllEmptyIff(vms: seq<Vm>, i: nat)
    requires i <= |vms|
    ensures FreeFrom(vms, i) == [] <==> forall k | i <= k < |vms| :: vms[k].refcount == 1
    decreases |vms| - i
  {
    if i < |vms| {
      FreeAllEmptyIff(vms, i + 1);
    }
  }
}
