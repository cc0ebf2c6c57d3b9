/** The daemon as a whole: the balloon thread and the event thread take turns, one section under
    the list lock at a time, in any order. Every record carries the events it has produced since
    it was created, so that what holds of all legal traces holds in every reachable state. */
module Daemon {
  import opened Machine
  import opened Vm
  import opened Balloon
  import opened Passes
  import opened ListSpec
  import opened RefreshSpec

  /** A listed record with its history: whether the list still holds its own reference, how many
      references others hold, and whether a refresh has found it listed. */
  datatype Entry = Entry(vm: Vm, trace: Trace, own: bool, handles: int, seen: bool)

  /** The list, and what the last refresh that had a connection delivered. */
  datatype State = State(entries: seq<Entry>, latest: seq<Stats>)

  /** One section under the list lock. */
  datatype Action =
    | Collect(answer: Answer)
    | Decision(oracle: Oracle, first: nat)
    | Add(domid: i32, probe: Probe)
    | Stop(name: string)
    | Get(domid: i32)
    | Put(domid: i32)
    | Update(answers: map<i32, Info>)
    | ReleaseAll

  function VmsOf(es: seq<Entry>): (r: seq<Vm>)
    ensures |r| == |es| && forall i | 0 <= i < |es| :: r[i] == es[i].vm
  {
    if es == [] then [] else [es[0].vm] + VmsOf(es[1..])
  }

  // ---------- Steps ----------

  function Collected(e: Entry, answer: Answer): Entry {
    e.(vm := RefreshOne(e.vm, answer), seen := e.seen || !answer.NotConnected?)
  }

  function Decided(e: Entry, pct: Percents, answer: bool): Entry {
    var o := Decide(e.vm, pct, answer);
    e.(vm := o.vm, trace := e.trace + o.events)
  }

  function Released(e: Entry, own: bool): Entry {
    var f := e.(vm := e.vm.(refcount := e.vm.refcount - 1));
    if own then f.(own := false) else f.(handles := f.handles - 1)
  }

  /** What the list keeps of an entry when one of its references is dropped. */
  function Kept(e: Entry, own: bool): seq<Entry> {
    if e.vm.refcount == 1 then [] else [Released(e, own)]
  }

  function Taken(e: Entry): Entry {
    e.(vm := e.vm.(refcount := e.vm.refcount + 1), handles := e.handles + 1)
  }

  function FreeEntries(es: seq<Entry>, i: nat): seq<Entry>
    requires i <= |es|
    decreases |es| - i
  {
    if i == |es| then [] else Kept(es[i], true) + FreeEntries(es, i + 1)
  }

  /** The entry of a domain, by number or by name, or the length of the list. */
  function ByDomid(es: seq<Entry>, domid: i32): (k: nat)
    ensures k <= |es|
    ensures k < |es| ==> es[k].vm.domid == domid
    ensures forall i | 0 <= i < k :: es[i].vm.domid != domid
  {
    FirstDomid(VmsOf(es), domid)
  }

  function ByName(es: seq<Entry>, name: string): (k: nat)
    ensures k <= |es|
  {
    FirstNamed(VmsOf(es), name)
  }

  function AnswersFor(es: seq<Entry>, pct: Percents, oracle: Oracle, first: nat): (r: seq<bool>)
    ensures |r| == |es|
  {
    Answers(Decider(pct), VmsOf(es), oracle, first)
  }

  function Entries(es: seq<Entry>, a: Action, pct: Percents): seq<Entry> {
    match a
    case Collect(answer) => seq(|es|, i requires 0 <= i < |es| => Collected(es[i], answer))
    case Decision(oracle, first) =>
      var answers := AnswersFor(es, pct, oracle, first);
      seq(|es|, i requires 0 <= i < |es| => Decided(es[i], pct, answers[i]))
    case Add(domid, probe) =>
      if ByDomid(es, domid) < |es| || !probe.Accepts() then es
      else [Entry(WithInfo(NewVm(domid).(domname := probe.name.value), probe.info.value), [], true, 0, false)] + es
    case Stop(name) =>
      var k := ByName(es, name);
      if k < |es| then es[..k] + Kept(es[k], true) + es[k + 1..] else es
    case Get(domid) =>
      var k := ByDomid(es, domid);
      if k < |es| then es[k := Taken(es[k])] else es
    case Put(domid) =>
      var k := ByDomid(es, domid);
      if k < |es| then es[..k] + Kept(es[k], false) + es[k + 1..] else es
    case Update(answers) => seq(|es|, i requires 0 <= i < |es| => es[i].(vm := Updated(es[i].vm, answers)))
    case ReleaseAll => FreeEntries(es, 0)
  }

  function Latest(latest: seq<Stats>, a: Action): seq<Stats> {
    match a
    case Collect(Failed) => []
    case Collect(Delivered(ss)) => ss
    case _ => latest
  }

  function After(s: State, a: Action, pct: Percents): State {
    State(Entries(s.entries, a, pct), Latest(s.latest, a))
  }

  function Run(actions: seq<Action>, pct: Percents): State {
    if actions == [] then State([], [])
    else After(Run(actions[..|actions| - 1], pct), actions[|actions| - 1], pct)
  }

  lemma RunOneMore(actions: seq<Action>, a: Action, pct: Percents)
    ensures Run(actions + [a], pct) == After(Run(actions, pct), a, pct)
  {
    assert (actions + [a])[..|actions|] == actions;
  }

  // ---------- The steps are the operations on the list ----------

  lemma VmsOfConcat(a: seq<Entry>, b: seq<Entry>)
    ensures VmsOf(a + b) == VmsOf(a) + VmsOf(b)
  {
  }

  lemma KeptVms(e: Entry, own: bool)
    ensures VmsOf(Kept(e, own)) == Remains(e.vm)
  {
  }

  lemma {:induction false} FreeEntriesVms(es: seq<Entry>, i: nat)
    requires i <= |es|
    ensures VmsOf(FreeEntries(es, i)) == FreeFrom(VmsOf(es), i)
    decreases |es| - i
  {
    if i < |es| {
      var vms, rest := VmsOf(es), FreeEntries(es, i + 1);
      FreeEntriesVms(es, i + 1);
      VmsOfConcat(Kept(es[i], true), rest);
      KeptVms(es[i], true);
      assert FreeFrom(vms, i) == Remains(vms[i]) + FreeFrom(vms, i + 1);
    }
  }

  lemma UnrefSplits(vms: seq<Vm>, k: nat)
    requires k < |vms|
    ensures Unref(vms, k) == vms[..k] + Remains(vms[k]) + vms[k + 1..]
  {
  }

  lemma VmsOfPart(es: seq<Entry>, i: nat, j: nat)
    requires i <= j <= |es|
    ensures VmsOf(es[i..j]) == VmsOf(es)[i..j]
  {
  }

  lemma ReleaseVms(es: seq<Entry>, k: nat, own: bool)
    requires k < |es|
    ensures VmsOf(es[..k] + Kept(es[k], own) + es[k + 1..]) == Unref(VmsOf(es), k)
  {
    UnrefSplits(VmsOf(es), k);
    VmsOfConcat(es[..k] + Kept(es[k], own), es[k + 1..]);
    VmsOfConcat(es[..k], Kept(es[k], own));
    KeptVms(es[k], own);
    VmsOfPart(es, 0, k);
    VmsOfPart(es, k + 1, |es|);
  }

  lemma RefreshVms(es: seq<Entry>, answer: Answer, pct: Percents)
    requires DistinctDomids(VmsOf(es))
    ensures VmsOf(Entries(es, Collect(answer), pct)) == RefreshSpec.Refresh(VmsOf(es), answer)
  {
    if es == [] { RefreshNothing(answer); }
    forall k | 0 <= k < |es|
      ensures |RefreshSpec.Refresh(VmsOf(es), answer)| == |es|
      ensures RefreshSpec.Refresh(VmsOf(es), answer)[k] == RefreshOne(es[k].vm, answer)
    {
      RefreshMeaning(VmsOf(es), answer, k);
    }
  }

  lemma DecideVms(es: seq<Entry>, oracle: Oracle, first: nat, pct: Percents)
    ensures VmsOf(Entries(es, Decision(oracle, first), pct)) == DecisionPhase(VmsOf(es), pct, oracle, first).vms
  {
    PassFusion(VmsOf(es), pct, oracle, first);
    var answers := AnswersFor(es, pct, oracle, first);
    var each := Each(Decider(pct), VmsOf(es), answers);
    forall k | 0 <= k < |es|
      ensures each.vms[k] == Decided(es[k], pct, answers[k]).vm
    {
    }
  }

  lemma UpdateVms(es: seq<Entry>, answers: map<i32, Info>, pct: Percents)
    ensures VmsOf(Entries(es, Update(answers), pct)) == UpdateAll(VmsOf(es), answers)
  {
  }

  /** The operations the methods on the mutable list are proved to perform. */
  function ListOperation(vms: seq<Vm>, a: Action, pct: Percents): seq<Vm> {
    match a
    case Collect(answer) => RefreshSpec.Refresh(vms, answer)
    case Decision(oracle, first) => DecisionPhase(vms, pct, oracle, first).vms
    case Add(domid, probe) => AddVm(vms, domid, probe)
    case Stop(name) => DeleteNamed(vms, name)
    case Get(domid) =>
      var k := FirstDomid(vms, domid);
      if k < |vms| then Ref(vms, k) else vms
    case Put(domid) =>
      var k := FirstDomid(vms, domid);
      if k < |vms| then Unref(vms, k) else vms
    case Update(answers) => UpdateAll(vms, answers)
    case ReleaseAll => ListSpec.FreeAll(vms)
  }

  /** On the records, each section is the corresponding operation on the list. */
  lemma {:induction false} StepIsListOperation(es: seq<Entry>, a: Action, pct: Percents)
    requires DistinctDomids(VmsOf(es))
    ensures VmsOf(Entries(es, a, pct)) == ListOperation(VmsOf(es), a, pct)
  {
    match a {
      case Collect(answer) => RefreshVms(es, answer, pct);
      case Decision(oracle, first) => DecideVms(es, oracle, first, pct);
      case Add(domid, probe) => AddVms(es, domid, probe, pct);
      case Stop(name) => StopVms(es, name, pct);
      case Get(domid) => GetVms(es, domid, pct);
      case Put(domid) => PutVms(es, domid, pct);
      case Update(answers) => UpdateVms(es, answers, pct);
      case ReleaseAll => FreeEntriesVms(es, 0);
    }
  }

  lemma {:induction false} StopVms(es: seq<Entry>, name: string, pct: Percents)
    ensures VmsOf(Entries(es, Stop(name), pct)) == DeleteNamed(VmsOf(es), name)
  {
    var k := ByName(es, name);
    if k < |es| {
      ReleaseVms(es, k, true);
      assert Entries(es, Stop(name), pct) == es[..k] + Kept(es[k], true) + es[k + 1..];
      assert DeleteNamed(VmsOf(es), name) == Unref(VmsOf(es), k);
    }
  }

  lemma {:induction false} PutVms(es: seq<Entry>, domid: i32, pct: Percents)
    ensures VmsOf(Entries(es, Put(domid), pct)) == ListOperation(VmsOf(es), Put(domid), pct)
  {
    var k := ByDomid(es, domid);
    if k < |es| {
      ReleaseVms(es, k, false);
      assert Entries(es, Put(domid), pct) == es[..k] + Kept(es[k], false) + es[k + 1..];
      assert ListOperation(VmsOf(es), Put(domid), pct) == Unref(VmsOf(es), k);
    }
  }

  lemma AddVms(es: seq<Entry>, domid: i32, probe: Probe, pct: Percents)
    ensures VmsOf(Entries(es, Add(domid, probe), pct)) == AddVm(VmsOf(es), domid, probe)
  {
  }

  lemma GetVms(es: seq<Entry>, domid: i32, pct: Percents)
    ensures VmsOf(Entries(es, Get(domid), pct)) == ListOperation(VmsOf(es), Get(domid), pct)
  {
  }

  lemma {:induction false} ApplyNothing(ss: seq<Stats>, n: nat)
    requires n <= |ss|
    ensures ApplyFirst([], ss, n) == []
  {
    if n > 0 {
      ApplyNothing(ss, n - 1);
    }
  }

  lemma RefreshNothing(answer: Answer)
    ensures RefreshSpec.Refresh([], answer) == []
  {
    if answer.Delivered? {
      ApplyNothing(answer.stats, |answer.stats|);
    }
  }
}
