/** The list of records as the daemon links it: an intrusive doubly linked list with a cached
    length and a reference count in every record. */
module VmList {
  import opened Machine
  import opened Vm
  import opened Records

  /** The values of the first `n` records. */
  ghost function Values(s: seq<VmInfo>, n: nat): (r: seq<Vm>)
    requires n <= |s|
    reads s
    ensures |r| == n && forall i | 0 <= i < n :: r[i] == s[i].Abs()
  {
    if n == 0 then [] else Values(s, n - 1) + [s[n - 1].Abs()]
  }

  /** A pass over the records `s`, which had the values `before`: the first ones have been passed
      and have the values `done`, the others are untouched. */
  ghost predicate Passed(s: seq<VmInfo>, before: seq<Vm>, done: seq<Vm>)
    reads s
  {
    && |done| <= |s| == |before|
    && (forall j | 0 <= j < |done| :: s[j].Abs() == done[j])
    && (forall j | |done| <= j < |s| :: s[j].Abs() == before[j])
  }

  ghost predicate Distinct(s: seq<VmInfo>) {
    forall i, j | 0 <= i < j < |s| :: s[i] != s[j]
  }

  class List {
    var first: VmInfo?
    var count: int
    /** The records in link order. */
    ghost var spine: seq<VmInfo>
    /** Every record that was ever listed. */
    ghost var known: set<VmInfo>

    /** The links run through exactly the records of the spine, forward and backward, and end:
        in particular they are acyclic. */
    ghost predicate Linked()
      reads this, spine`next, spine`prev
    {
      && count == |spine|
      && (forall i | 0 <= i < |spine| :: spine[i] in known)
      && (forall i, j | 0 <= i < j < |spine| :: spine[i] != spine[j])
      && first == (if spine == [] then null else spine[0])
      && (spine != [] ==> spine[0].prev == null && spine[|spine| - 1].next == null)
      && (forall i {:trigger spine[i].next} | 0 <= i < |spine| - 1 :: spine[i].next == spine[i + 1])
      && (forall i {:trigger spine[i].prev} | 1 <= i < |spine| :: spine[i].prev == spine[i - 1])
    }

    ghost predicate Valid()
      reads this, spine`next, spine`prev, spine`live, spine`refcount
    {
      Linked() && forall i | 0 <= i < |spine| :: spine[i].live && spine[i].refcount >= 1
    }

    ghost function Vms(): (r: seq<Vm>)
      reads this, spine
      ensures |r| == |spine| && forall i | 0 <= i < |r| :: r[i] == spine[i].Abs()
    {
      Values(spine, |spine|)
    }

    constructor ()
      ensures Valid() && spine == [] && known == {}
    {
      first, count, spine, known := null, 0, [], {};
    }

    method InsertHead(v: VmInfo)
      requires Linked() && v !in spine
      modifies this, v`next, v`prev, known`prev
      ensures Linked() && spine == [v] + old(spine) && known == old(known) + {v}
    {
      v.next := first;
      if first != null {
        first.prev := v;
      }
      first := v;
      v.prev := null;
      count := count + 1;
      spine := [v] + spine;
      known := known + {v};
    }

    method Remove(v: VmInfo, ghost k: nat)
      requires Linked() && k < |spine| && spine[k] == v
      modifies this, known`next, known`prev
      ensures Linked() && spine == old(spine)[..k] + old(spine)[k + 1..] && known == old(known)
    {
      if v.next != null {
        v.next.prev := v.prev;
      }
      if v.prev != null {
        v.prev.next := v.next;
      } else {
        first := v.next;
      }
      count := count - 1;
      ghost var s := spine;
      spine := spine[..k] + spine[k + 1..];
      forall i | 0 <= i < |spine| - 1
        ensures spine[i].next == spine[i + 1]
      {
        var j := if i < k then i else i + 1;
        assert spine[i] == s[j] && spine[i + 1] == s[if i + 1 < k then i + 1 else i + 2];
        assert old(s[j].next) == s[j + 1];
      }
    }

    /** The records lose entry `k` and are otherwise what they were. */
    twostate lemma VmsWithout(k: nat)
      requires k < |old(spine)| && spine == old(spine)[..k] + old(spine)[k + 1..]
      requires forall i | 0 <= i < |old(spine)| && i != k :: old(spine)[i].Abs() == old(spine[i].Abs())
      ensures Vms() == old(Vms())[..k] + old(Vms())[k + 1..]
    {
    }

    /** A record was put in front and the others are what they were. */
    twostate lemma VmsPushed(new v: VmInfo)
      requires spine == [v] + old(spine)
      requires forall i | 0 <= i < |old(spine)| :: old(spine)[i].Abs() == old(spine[i].Abs())
      ensures Vms() == [v.Abs()] + old(Vms())
    {
      assert forall i | 1 <= i < |spine| :: spine[i] == old(spine)[i - 1];
    }

    /** Only record `k` changed. */
    twostate lemma VmsWith(k: nat)
      requires spine == old(spine) && k < |spine|
      requires forall i | 0 <= i < |spine| && i != k :: spine[i].Abs() == old(spine[i].Abs())
      ensures Vms() == old(Vms())[k := spine[k].Abs()]
    {
    }
  }
}
