/** Where the entries of the list come from: every entry was added by some section of the run, and
    each later section either leaves it what it was or does to it what the section does. */
module Lineage {
  import opened Machine
  import opened Vm
  import opened Balloon
  import opened Automaton
  import opened Passes
  import opened ListSpec
  import opened RefreshSpec
  import opened Daemon
  import opened DaemonTheorems

  predicate Listed(es: seq<Entry>, domid: i32) { ByDomid(es, domid) < |es| }

  /** The section releases the list's reference to a domain: a rebuild or a stop event that hits
      its record. */
  predicate Releases(es: seq<Entry>, a: Action, domid: i32) {
    || a.ReleaseAll?
    || (a.Stop? && ByName(es, a.name) < |es| && es[ByName(es, a.name)].vm.domid == domid)
  }

  /** A refresh that had a connection. */
  predicate Connects(a: Action) { a.Collect? && !a.answer.NotConnected? }

  /** The answer a section would give to a request for a domain. */
  function AnswerTo(es: seq<Entry>, a: Action, pct: Percents, domid: i32): bool {
    a.Decision? && Listed(es, domid) && AnswersFor(es, pct, a.oracle, a.first)[ByDomid(es, domid)]
  }

  /** What a section makes the record of a domain do. */
  function EventsOf(es: seq<Entry>, a: Action, pct: Percents, domid: i32): Trace {
    if a.Decision? && Listed(es, domid)
    then Decide(es[ByDomid(es, domid)].vm, pct, AnswerTo(es, a, pct, domid)).events
    else []
  }

  /** What only the controller writes, and what nobody does. */
  predicate SameControl(v: Vm, w: Vm) {
    ControlOf(w) == ControlOf(v) && w.balloonTarget == v.balloonTarget && w.lockall == v.lockall
  }

  /** The marks of an entry before and after a section. */
  predicate Marks(es: seq<Entry>, a: Action, e: Entry, f: Entry) {
    && f.vm.domid == e.vm.domid
    && (f.own <==> e.own && !Releases(es, a, e.vm.domid))
    && (f.seen <==> e.seen || Connects(a))
  }

  /** Entry `f` of the list after a section is entry `e` of the list before. */
  predicate Continues(es: seq<Entry>, a: Action, pct: Percents, e: Entry, f: Entry) {
    && Marks(es, a, e, f)
    && (if a.Decision? then f == Decided(e, pct, AnswerTo(es, a, pct, e.vm.domid))
        else f.trace == e.trace && SameControl(e.vm, f.vm))
  }

  /** The section has just added entry `f`. */
  predicate IsNew(es: seq<Entry>, a: Action, f: Entry) {
    && a.Add? && a.domid == f.vm.domid && !Listed(es, f.vm.domid)
    && f.own && !f.seen && f.trace == []
  }

  lemma {:induction false} FreeOrigin(es: seq<Entry>, i: nat, k: nat) returns (k0: nat)
    requires i <= |es| && k < |FreeEntries(es, i)|
    ensures i <= k0 < |es| && FreeEntries(es, i)[k] == Released(es[k0], true)
    decreases |es| - i
  {
    var n := |Kept(es[i], true)|;
    if k < n {
      k0 := i;
    } else {
      k0 := FreeOrigin(es, i + 1, k - n);
    }
  }

  lemma {:induction false} ReleaseOrigin(es: seq<Entry>, r: nat, own: bool, k: nat) returns (k0: nat)
    requires r < |es| && k < |es[..r] + Kept(es[r], own) + es[r + 1..]|
    ensures k0 < |es|
    ensures (es[..r] + Kept(es[r], own) + es[r + 1..])[k] == if k0 == r then Released(es[r], own) else es[k0]
  {
    k0 := if k < r || es[r].vm.refcount != 1 then k else k + 1;
  }

  lemma {:induction false} ReleasedContinues(es: seq<Entry>, a: Action, pct: Percents, e: Entry, own: bool)
    requires !a.Decision? && !Connects(a) && (own <==> Releases(es, a, e.vm.domid))
    ensures Continues(es, a, pct, e, Released(e, own))
  {
  }

  lemma {:induction false} UntouchedContinues(es: seq<Entry>, a: Action, pct: Percents, e: Entry)
    requires !a.Decision? && !Connects(a) && !Releases(es, a, e.vm.domid)
    ensures Continues(es, a, pct, e, e)
  {
  }

  lemma {:induction false} DecisionOrigin(es: seq<Entry>, oracle: Oracle, first: nat, pct: Percents, k: nat)
    requires DistinctDomids(VmsOf(es)) && k < |es|
    ensures Continues(es, Decision(oracle, first), pct, es[k], Entries(es, Decision(oracle, first), pct)[k])
  {
    FirstDomidAt(VmsOf(es), k);
    DecideKeeps(es[k].vm, pct, AnswersFor(es, pct, oracle, first)[k]);
  }

  lemma {:induction false} CollectOrigin(es: seq<Entry>, answer: Answer, pct: Percents, k: nat)
    requires k < |es|
    ensures Continues(es, Collect(answer), pct, es[k], Entries(es, Collect(answer), pct)[k])
  {
  }

  lemma {:induction false} AddOrigin(es: seq<Entry>, domid: i32, probe: Probe, pct: Percents, k: nat) returns (k0: nat)
    requires k < |Entries(es, Add(domid, probe), pct)|
    ensures var f := Entries(es, Add(domid, probe), pct)[k];
            if k0 < |es| then Continues(es, Add(domid, probe), pct, es[k0], f) else IsNew(es, Add(domid, probe), f)
  {
    var inserted := ByDomid(es, domid) == |es| && probe.Accepts();
    k0 := if !inserted then k else if k == 0 then |es| else k - 1;
    if k0 < |es| { UntouchedContinues(es, Add(domid, probe), pct, es[k0]); }
  }

  lemma {:induction false} StopOrigin(es: seq<Entry>, name: string, pct: Percents, k: nat) returns (k0: nat)
    requires DistinctDomids(VmsOf(es)) && k < |Entries(es, Stop(name), pct)|
    ensures k0 < |es| && Continues(es, Stop(name), pct, es[k0], Entries(es, Stop(name), pct)[k])
  {
    var r := ByName(es, name);
    k0 := k;
    if r < |es| { k0 := ReleaseOrigin(es, r, true, k); }
    if k0 == r {
      ReleasedContinues(es, Stop(name), pct, es[k0], true);
    } else {
      assert r < |es| ==> VmsOf(es)[k0].domid != VmsOf(es)[r].domid;
      UntouchedContinues(es, Stop(name), pct, es[k0]);
    }
  }

  lemma {:induction false} PutOrigin(es: seq<Entry>, domid: i32, pct: Percents, k: nat) returns (k0: nat)
    requires k < |Entries(es, Put(domid), pct)|
    ensures k0 < |es| && Continues(es, Put(domid), pct, es[k0], Entries(es, Put(domid), pct)[k])
  {
    var r := ByDomid(es, domid);
    k0 := k;
    if r < |es| { k0 := ReleaseOrigin(es, r, false, k); }
    if k0 == r {
      ReleasedContinues(es, Put(domid), pct, es[k0], false);
    } else {
      UntouchedContinues(es, Put(domid), pct, es[k0]);
    }
  }

  lemma {:induction false} GetOrigin(es: seq<Entry>, domid: i32, pct: Percents, k: nat)
    requires k < |es|
    ensures |Entries(es, Get(domid), pct)| == |es|
    ensures Continues(es, Get(domid), pct, es[k], Entries(es, Get(domid), pct)[k])
  {
    UntouchedContinues(es, Get(domid), pct, es[k]);
  }

  lemma {:induction false} UpdateOrigin(es: seq<Entry>, answers: map<i32, Info>, pct: Percents, k: nat)
    requires k < |es|
    ensures Continues(es, Update(answers), pct, es[k], Entries(es, Update(answers), pct)[k])
  {
  }

  lemma {:induction false} ReleaseAllOrigin(es: seq<Entry>, pct: Percents, k: nat) returns (k0: nat)
    requires k < |Entries(es, ReleaseAll, pct)|
    ensures k0 < |es| && Continues(es, ReleaseAll, pct, es[k0], Entries(es, ReleaseAll, pct)[k])
  {
    k0 := FreeOrigin(es, 0, k);
    ReleasedContinues(es, ReleaseAll, pct, es[k0], true);
  }

  lemma {:induction false} SameLength(es: seq<Entry>, a: Action, pct: Percents)
    ensures a.Collect? || a.Decision? || a.Get? || a.Update? ==> |Entries(es, a, pct)| == |es|
  {
  }

  /** Every entry after a section was there before, or was just added. */
  lemma {:induction false} Origin(es: seq<Entry>, a: Action, pct: Percents, k: nat) returns (k0: nat)
    requires DistinctDomids(VmsOf(es)) && k < |Entries(es, a, pct)|
    ensures var f := Entries(es, a, pct)[k];
            if k0 < |es| then Continues(es, a, pct, es[k0], f) else IsNew(es, a, f)
  {
    k0 := k;
    SameLength(es, a, pct);
    match a {
      case Collect(answer) => CollectOrigin(es, answer, pct, k);
      case Decision(oracle, first) => DecisionOrigin(es, oracle, first, pct, k);
      case Add(domid, probe) => k0 := AddOrigin(es, domid, probe, pct, k);
      case Stop(name) => k0 := StopOrigin(es, name, pct, k);
      case Get(domid) => GetOrigin(es, domid, pct, k);
      case Put(domid) => k0 := PutOrigin(es, domid, pct, k);
      case Update(answers) => UpdateOrigin(es, answers, pct, k);
      case ReleaseAll => k0 := ReleaseAllOrigin(es, pct, k);
    }
  }

  // ---------- Whole runs ----------

  /** The list after every section of a run, the empty one first. */
  function HistoryOf(actions: seq<Action>, pct: Percents): (h: seq<seq<Entry>>)
    ensures |h| == |actions| + 1 && h[|actions|] == Run(actions, pct).entries
  {
    if actions == [] then [[]]
    else HistoryOf(actions[..|actions| - 1], pct) + [Run(actions, pct).entries]
  }

  /** Section `i` added the record of a domain that has been listed ever since. */
  ghost predicate AddedAt(h: seq<seq<Entry>>, actions: seq<Action>, i: nat, domid: i32)
    requires |h| == |actions| + 1
  {
    && i < |actions| && actions[i].Add? && actions[i].domid == domid && !Listed(h[i], domid)
    && forall j: nat | i < j <= |actions| :: Listed(h[j], domid)
  }

  lemma {:induction false} AddedEarlier(h: seq<seq<Entry>>, actions: seq<Action>, es: seq<Entry>, a: Action,
                                        i: nat, domid: i32)
    requires |h| == |actions| + 1 && Listed(es, domid)
    ensures AddedAt(h, actions, i, domid) ==> AddedAt(h + [es], actions + [a], i, domid)
    ensures i < |actions| && AddedAt(h + [es], actions + [a], i, domid) ==>
              AddedAt(h, actions, i, domid) && Listed(h[|actions|], domid)
  {
    var h', actions' := h + [es], actions + [a];
    assert forall j | 0 <= j <= |actions| :: h'[j] == h[j];
    assert forall j | 0 <= j < |actions| :: actions'[j] == actions[j];
  }

  lemma {:induction false} JustAdded(h: seq<seq<Entry>>, actions: seq<Action>, es: seq<Entry>, a: Action, domid: i32)
    requires |h| == |actions| + 1 && a.Add? && a.domid == domid && !Listed(h[|actions|], domid) && Listed(es, domid)
    ensures AddedAt(h + [es], actions + [a], |actions|, domid)
  {
  }

  lemma {:induction false} StaysListed(es: seq<Entry>, k: nat)
    requires k < |es|
    ensures Listed(es, es[k].vm.domid)
  {
  }

  /** The last section of a run. */
  lemma {:induction false} OriginInRun(actions: seq<Action>, pct: Percents, k: nat) returns (k0: nat)
    requires actions != [] && k < |Run(actions, pct).entries|
    ensures var p, a := actions[..|actions| - 1], actions[|actions| - 1];
            var es, f := Run(p, pct).entries, Run(actions, pct).entries[k];
            if k0 < |es| then Continues(es, a, pct, es[k0], f) && Listed(es, f.vm.domid) else IsNew(es, a, f)
  {
    var p, a := actions[..|actions| - 1], actions[|actions| - 1];
    RunIsOk(p, pct);
    k0 := Origin(Run(p, pct).entries, a, pct, k);
    if k0 < |Run(p, pct).entries| { StaysListed(Run(p, pct).entries, k0); }
  }

  lemma {:induction false} HistoryPush(actions: seq<Action>, pct: Percents)
    requires actions != []
    ensures var p := actions[..|actions| - 1];
            && actions == p + [actions[|actions| - 1]]
            && HistoryOf(actions, pct) == HistoryOf(p, pct) + [Run(actions, pct).entries]
  {
  }

  /** Which entry before the last section an entry was, if it was not added by that section. */
  lemma {:induction false} LastSection(actions: seq<Action>, pct: Percents, i: nat, k: nat) returns (k0: nat)
    requires actions != [] && k < |Run(actions, pct).entries|
    requires AddedAt(HistoryOf(actions, pct), actions, i, Run(actions, pct).entries[k].vm.domid)
    ensures var p, a := actions[..|actions| - 1], actions[|actions| - 1];
            var es, f := Run(p, pct).entries, Run(actions, pct).entries[k];
            if i == |p| then IsNew(es, a, f)
            else i < |p| && k0 < |es| && Continues(es, a, pct, es[k0], f)
                 && AddedAt(HistoryOf(p, pct), p, i, f.vm.domid)
  {
    k0 := OriginInRun(actions, pct, k);
    HistoryPush(actions, pct);
    StaysListed(Run(actions, pct).entries, k);
    var p, a := actions[..|actions| - 1], actions[|actions| - 1];
    AddedEarlier(HistoryOf(p, pct), p, Run(actions, pct).entries, a, i, Run(actions, pct).entries[k].vm.domid);
  }

  /** Every listed record was added by some section and has been listed since. */
  lemma {:induction false} WasAdded(actions: seq<Action>, pct: Percents, k: nat) returns (i: nat)
    requires k < |Run(actions, pct).entries|
    ensures AddedAt(HistoryOf(actions, pct), actions, i, Run(actions, pct).entries[k].vm.domid)
  {
    var k0 := OriginInRun(actions, pct, k);
    HistoryPush(actions, pct);
    StaysListed(Run(actions, pct).entries, k);
    var p, a := actions[..|actions| - 1], actions[|actions| - 1];
    var g, domid := Run(actions, pct).entries, Run(actions, pct).entries[k].vm.domid;
    if k0 < |Run(p, pct).entries| {
      i := WasAdded(p, pct, k0);
      AddedEarlier(HistoryOf(p, pct), p, g, a, i, domid);
    } else {
      i := |p|;
      JustAdded(HistoryOf(p, pct), p, g, a, domid);
    }
  }

  lemma {:induction false} AddedOnce(h: seq<seq<Entry>>, actions: seq<Action>, i: nat, j: nat, domid: i32)
    requires |h| == |actions| + 1 && AddedAt(h, actions, i, domid) && AddedAt(h, actions, j, domid)
    ensures i == j
  {
  }

  /** What the records of a domain have done in the sections from the `i`-th on. */
  function EventsFrom(actions: seq<Action>, pct: Percents, domid: i32, i: nat): Trace {
    if |actions| <= i then []
    else
      var p, a := actions[..|actions| - 1], actions[|actions| - 1];
      EventsFrom(p, pct, domid, i) + EventsOf(Run(p, pct).entries, a, pct, domid)
  }

  lemma {:induction false} EventsOfEntry(es: seq<Entry>, a: Action, pct: Percents, k: nat, f: Entry)
    requires DistinctDomids(VmsOf(es)) && k < |es| && Continues(es, a, pct, es[k], f)
    ensures f.trace == es[k].trace + EventsOf(es, a, pct, es[k].vm.domid)
  {
    FirstDomidAt(VmsOf(es), k);
    assert es[k].trace + [] == es[k].trace;
  }

  /** The history of an entry is what its domain has done since the record was added. */
  lemma {:induction false} TraceSince(actions: seq<Action>, pct: Percents, i: nat, k: nat)
    requires k < |Run(actions, pct).entries|
    requires AddedAt(HistoryOf(actions, pct), actions, i, Run(actions, pct).entries[k].vm.domid)
    ensures Run(actions, pct).entries[k].trace == EventsFrom(actions, pct, Run(actions, pct).entries[k].vm.domid, i)
  {
    var p, a := actions[..|actions| - 1], actions[|actions| - 1];
    var f := Run(actions, pct).entries[k];
    var k0 := LastSection(actions, pct, i, k);
    if i < |p| {
      RunIsOk(p, pct);
      TraceSince(p, pct, i, k0);
      EventsOfEntry(Run(p, pct).entries, a, pct, k0, f);
    } else {
      assert EventsFrom(p, pct, f.vm.domid, i) == [];
    }
  }
}
