/** Reference counting over whole runs: what the counts mean as long as the reference of the list
    is released at most once for each record, and what goes wrong otherwise. */
module References {
  import opened Machine
  import opened Vm
  import opened ListSpec
  import opened Daemon
  import opened DaemonTheorems
  import opened Lineage
  import opened Passes
  import opened RefreshSpec

  /** The count is the references others hold plus the one of the list. */
  predicate Held(e: Entry) {
    e.handles >= 0 && e.vm.refcount == e.handles + if e.own then 1 else 0
  }

  /** References are only given back by those who hold them. */
  predicate Disciplined(es: seq<Entry>, a: Action) {
    match a
    case Put(domid) => ByDomid(es, domid) < |es| && es[ByDomid(es, domid)].handles > 0
    case Stop(name) => ByName(es, name) < |es| ==> es[ByName(es, name)].own
    case ReleaseAll => forall k | 0 <= k < |es| :: es[k].own
    case _ => true
  }

  predicate DisciplinedRun(actions: seq<Action>, pct: Percents) {
    actions == []
    || (DisciplinedRun(actions[..|actions| - 1], pct)
        && Disciplined(Run(actions[..|actions| - 1], pct).entries, actions[|actions| - 1]))
  }

  lemma Push(actions: seq<Action>, a: Action, pct: Percents)
    ensures DisciplinedRun(actions + [a], pct)
       <==> DisciplinedRun(actions, pct) && Disciplined(Run(actions, pct).entries, a)
    ensures Run(actions + [a], pct) == After(Run(actions, pct), a, pct)
  {
    RunOneMore(actions, a, pct);
    assert (actions + [a])[..|actions|] == actions;
  }

  ghost predicate AllHeld(es: seq<Entry>) { forall k | 0 <= k < |es| :: Held(es[k]) }

  lemma ReleaseKeepsHeld(es: seq<Entry>, k: nat, own: bool)
    requires AllHeld(es) && k < |es| && if own then es[k].own else es[k].handles > 0
    ensures AllHeld(es[..k] + Kept(es[k], own) + es[k + 1..])
  {
    assert Held(Released(es[k], own));
  }

  lemma {:induction false} FreeKeepsHeld(es: seq<Entry>, i: nat)
    requires AllHeld(es) && (forall k | 0 <= k < |es| :: es[k].own) && i <= |es|
    ensures AllHeld(FreeEntries(es, i))
    decreases |es| - i
  {
    if i < |es| {
      FreeKeepsHeld(es, i + 1);
    }
  }

  lemma GetKeepsHeld(es: seq<Entry>, domid: i32, pct: Percents)
    requires AllHeld(es)
    ensures AllHeld(Entries(es, Get(domid), pct))
  {
  }

  lemma DecideKeepsHeld(es: seq<Entry>, oracle: Oracle, first: nat, pct: Percents)
    requires AllHeld(es)
    ensures AllHeld(Entries(es, Decision(oracle, first), pct))
  {
    var answers := AnswersFor(es, pct, oracle, first);
    forall k | 0 <= k < |es| ensures Held(Decided(es[k], pct, answers[k])) {
      DecideKeeps(es[k].vm, pct, answers[k]);
    }
  }

  lemma RefreshKeepsHeld(es: seq<Entry>, answer: Answer, pct: Percents)
    requires AllHeld(es)
    ensures AllHeld(Entries(es, Collect(answer), pct))
  {
  }

  lemma {:induction false} StepKeepsHeld(es: seq<Entry>, a: Action, pct: Percents)
    requires AllHeld(es) && Disciplined(es, a)
    ensures AllHeld(Entries(es, a, pct))
  {
    match a {
      case Collect(answer) => RefreshKeepsHeld(es, answer, pct);
      case Decision(oracle, first) => DecideKeepsHeld(es, oracle, first, pct);
      case Stop(name) => if ByName(es, name) < |es| { ReleaseKeepsHeld(es, ByName(es, name), true); }
      case Get(domid) => GetKeepsHeld(es, domid, pct);
      case Put(domid) => ReleaseKeepsHeld(es, ByDomid(es, domid), false);
      case ReleaseAll => FreeKeepsHeld(es, 0);
      case _ =>
    }
  }

  /** In every disciplined run every count is exact. */
  lemma {:induction false} CountsAreExact(actions: seq<Action>, pct: Percents)
    requires DisciplinedRun(actions, pct)
    ensures AllHeld(Run(actions, pct).entries)
  {
    if actions != [] {
      CountsAreExact(actions[..|actions| - 1], pct);
      StepKeepsHeld(Run(actions[..|actions| - 1], pct).entries, actions[|actions| - 1], pct);
    }
  }

  /** Which reference of entry `k` a section drops: the list's own or another one. */
  function Dropped(es: seq<Entry>, a: Action, k: nat): Option<bool>
    requires k < |es|
  {
    match a
    case Stop(name) => if k == ByName(es, name) then Some(true) else None
    case Put(domid) => if k == ByDomid(es, domid) then Some(false) else None
    case ReleaseAll => Some(true)
    case _ => None
  }

  lemma {:induction false} FreeFromLists(vms: seq<Vm>, i: nat, k: nat)
    requires DistinctDomids(vms) && i <= k < |vms|
    ensures ListedFrom(FreeFrom(vms, i), 0, vms[k].domid) <==> vms[k].refcount != 1
    decreases |vms| - i
  {
    FreeKeepsDistinct(vms, i + 1);
    var kept, rest := Remains(vms[i]), FreeFrom(vms, i + 1);
    ListedInParts(kept, rest, vms[k].domid);
    if i < k {
      FreeFromLists(vms, i + 1, k);
    } else {
      forall m | 0 <= m < |rest| ensures rest[m].domid != vms[k].domid {
        assert ListedFrom(vms, i + 1, rest[m].domid);
      }
      if kept != [] {
        assert kept[0].domid == vms[k].domid;
      }
    }
  }

  lemma ListedInParts(a: seq<Vm>, b: seq<Vm>, domid: i32)
    ensures ListedFrom(a + b, 0, domid) <==> ListedFrom(a, 0, domid) || ListedFrom(b, 0, domid)
  {
    if ListedFrom(a, 0, domid) {
      var j :| 0 <= j < |a| && a[j].domid == domid;
      assert (a + b)[j].domid == domid;
    }
    if ListedFrom(b, 0, domid) {
      var j :| 0 <= j < |b| && b[j].domid == domid;
      assert (a + b)[|a| + j].domid == domid;
    }
  }

  lemma UnrefLists(vms: seq<Vm>, k: nat)
    requires DistinctDomids(vms) && k < |vms|
    ensures ListedFrom(Unref(vms, k), 0, vms[k].domid) <==> vms[k].refcount != 1
  {
    if vms[k].refcount != 1 {
      assert Unref(vms, k)[k].domid == vms[k].domid;
    }
  }

  /** A record leaves the list exactly when a section drops its last reference. */
  lemma {:induction false} LastReferenceUnlists(es: seq<Entry>, a: Action, pct: Percents, k: nat)
    requires DistinctDomids(VmsOf(es)) && k < |es| && Dropped(es, a, k).Some?
    ensures !ListedFrom(VmsOf(Entries(es, a, pct)), 0, es[k].vm.domid) <==> es[k].vm.refcount == 1
  {
    StepIsListOperation(es, a, pct);
    if a.ReleaseAll? { FreeFromLists(VmsOf(es), 0, k); } else { UnrefLists(VmsOf(es), k); }
  }

  /** No record somebody holds is freed, and none nobody holds is kept: in a disciplined run a
      section frees a record exactly when no reference to it remains. */
  lemma {:induction false} FreedIffUnheld(actions: seq<Action>, a: Action, pct: Percents, k: nat)
    requires DisciplinedRun(actions + [a], pct)
    requires k < |Run(actions, pct).entries| && Dropped(Run(actions, pct).entries, a, k).Some?
    ensures var e := Run(actions, pct).entries[k];
            var left := Released(e, Dropped(Run(actions, pct).entries, a, k).value);
            !ListedFrom(VmsOf(Run(actions + [a], pct).entries), 0, e.vm.domid) <==> left.handles == 0 && !left.own
  {
    Push(actions, a, pct);
    RunIsOk(actions, pct);
    CountsAreExact(actions, pct);
    LastReferenceUnlists(Run(actions, pct).entries, a, pct, k);
  }

  // ---------- When a release is sound ----------

  /** A section after the `i`-th released the list's reference to a domain. */
  ghost predicate ReleasedSince(h: seq<seq<Entry>>, actions: seq<Action>, i: nat, domid: i32)
    requires |h| == |actions| + 1
  {
    exists j: nat :: i < j < |actions| && Releases(h[j], actions[j], domid)
  }

  /** Since its record was added, no rebuild has happened and no stop event has hit it. */
  ghost predicate NeverReleased(actions: seq<Action>, pct: Percents, domid: i32) {
    exists i: nat ::
      && AddedAt(HistoryOf(actions, pct), actions, i, domid)
      && !ReleasedSince(HistoryOf(actions, pct), actions, i, domid)
  }

  lemma ReleasedEarlier(h: seq<seq<Entry>>, actions: seq<Action>, es: seq<Entry>, a: Action, i: nat, domid: i32)
    requires |h| == |actions| + 1 && i < |actions|
    ensures ReleasedSince(h + [es], actions + [a], i, domid)
       <==> ReleasedSince(h, actions, i, domid) || Releases(h[|actions|], a, domid)
  {
    var h', actions' := h + [es], actions + [a];
    assert forall j | 0 <= j <= |actions| :: h'[j] == h[j];
    assert forall j | 0 <= j < |actions| :: actions'[j] == actions[j];
    if Releases(h[|actions|], a, domid) {
      assert Releases(h'[|actions|], actions'[|actions|], domid);
    }
    if ReleasedSince(h, actions, i, domid) {
      var j: nat :| i < j < |actions| && Releases(h[j], actions[j], domid);
      assert Releases(h'[j], actions'[j], domid);
    }
  }

  /** What the mark on an entry means: the list still has its reference exactly when no rebuild or
      stop event released it since the record was added. */
  lemma {:induction false} OwnSince(actions: seq<Action>, pct: Percents, i: nat, k: nat)
    requires k < |Run(actions, pct).entries|
    requires AddedAt(HistoryOf(actions, pct), actions, i, Run(actions, pct).entries[k].vm.domid)
    ensures var e := Run(actions, pct).entries[k];
            e.own <==> !ReleasedSince(HistoryOf(actions, pct), actions, i, e.vm.domid)
  {
    var p, a := actions[..|actions| - 1], actions[|actions| - 1];
    var f := Run(actions, pct).entries[k];
    var k0 := LastSection(actions, pct, i, k);
    if i < |p| {
      OwnSince(p, pct, i, k0);
      HistoryPush(actions, pct);
      ReleasedEarlier(HistoryOf(p, pct), p, Run(actions, pct).entries, a, i, f.vm.domid);
    }
  }

  lemma OwnMeaning(actions: seq<Action>, pct: Percents, k: nat)
    requires k < |Run(actions, pct).entries|
    ensures var e := Run(actions, pct).entries[k]; e.own <==> NeverReleased(actions, pct, e.vm.domid)
  {
    var e, h := Run(actions, pct).entries[k], HistoryOf(actions, pct);
    var i := WasAdded(actions, pct, k);
    OwnSince(actions, pct, i, k);
    if NeverReleased(actions, pct, e.vm.domid) {
      var j: nat :| AddedAt(h, actions, j, e.vm.domid) && !ReleasedSince(h, actions, j, e.vm.domid);
      AddedOnce(h, actions, i, j, e.vm.domid);
    }
  }

  /** After the section every count is still exact and no record somebody holds is gone. */
  ghost predicate Sound(es: seq<Entry>, a: Action, pct: Percents) {
    && AllHeld(Entries(es, a, pct))
    && forall k | 0 <= k < |es| && es[k].handles > 0 :: ListedFrom(VmsOf(Entries(es, a, pct)), 0, es[k].vm.domid)
  }

  lemma UnrefKeepsOthers(vms: seq<Vm>, r: nat, k: nat)
    requires r < |vms| && k < |vms| && k != r
    ensures ListedFrom(Unref(vms, r), 0, vms[k].domid)
  {
    var j := if vms[r].refcount == 1 && k > r then k - 1 else k;
    assert Unref(vms, r)[j].domid == vms[k].domid;
  }

  lemma {:induction false} HeldStaysListed(es: seq<Entry>, a: Action, pct: Percents, k: nat)
    requires DistinctDomids(VmsOf(es)) && AllHeld(es) && Disciplined(es, a) && (a.Stop? || a.ReleaseAll?)
    requires k < |es| && es[k].handles > 0
    ensures ListedFrom(VmsOf(Entries(es, a, pct)), 0, es[k].vm.domid)
  {
    if Dropped(es, a, k).Some? {
      LastReferenceUnlists(es, a, pct, k);
    } else {
      StepIsListOperation(es, a, pct);
      var r := ByName(es, a.name);
      if r < |es| {
        UnrefKeepsOthers(VmsOf(es), r, k);
      } else {
        assert VmsOf(es)[k].domid == es[k].vm.domid;
      }
    }
  }

  lemma {:induction false} FreeKeepsReleased(es: seq<Entry>, i: nat, k: nat) returns (m: nat)
    requires i <= k < |es| && es[k].vm.refcount != 1
    ensures m < |FreeEntries(es, i)| && FreeEntries(es, i)[m] == Released(es[k], true)
    decreases |es| - i
  {
    if i == k {
      m := 0;
    } else {
      var l := FreeKeepsReleased(es, i + 1, k);
      m := l + |Kept(es[i], true)|;
      assert FreeEntries(es, i) == Kept(es[i], true) + FreeEntries(es, i + 1);
    }
  }

  /** A second release of a record is never sound. */
  lemma {:induction false} SecondReleaseIsUnsound(es: seq<Entry>, a: Action, pct: Percents, k: nat)
    requires DistinctDomids(VmsOf(es)) && k < |es| && Dropped(es, a, k) == Some(true)
    requires Held(es[k]) && !es[k].own && es[k].vm.refcount >= 1
    ensures !Sound(es, a, pct)
  {
    if es[k].vm.refcount == 1 {
      LastReferenceUnlists(es, a, pct, k);
    } else {
      assert !Held(Released(es[k], true));
      var m := k;
      if a.ReleaseAll? { m := FreeKeepsReleased(es, 0, k); }
      assert Entries(es, a, pct)[m] == Released(es[k], true);
    }
  }

  ghost predicate Referenced(es: seq<Entry>) { forall k | 0 <= k < |es| :: es[k].vm.refcount >= 1 }

  lemma {:induction false} SoundIffDisciplined(es: seq<Entry>, a: Action, pct: Percents)
    requires DistinctDomids(VmsOf(es)) && AllHeld(es) && Referenced(es) && (a.Stop? || a.ReleaseAll?)
    ensures Sound(es, a, pct) <==> Disciplined(es, a)
  {
    if Disciplined(es, a) {
      StepKeepsHeld(es, a, pct);
      forall k | 0 <= k < |es| && es[k].handles > 0
        ensures ListedFrom(VmsOf(Entries(es, a, pct)), 0, es[k].vm.domid)
      {
        HeldStaysListed(es, a, pct, k);
      }
    } else if a.Stop? {
      SecondReleaseIsUnsound(es, a, pct, ByName(es, a.name));
    } else {
      var k: nat :| k < |es| && !es[k].own;
      SecondReleaseIsUnsound(es, a, pct, k);
    }
  }

  lemma ReachableIsHeld(actions: seq<Action>, pct: Percents)
    requires DisciplinedRun(actions, pct)
    ensures var es := Run(actions, pct).entries;
            DistinctDomids(VmsOf(es)) && AllHeld(es) && Referenced(es)
  {
    RunIsOk(actions, pct);
    CountsAreExact(actions, pct);
    var s := Run(actions, pct);
    forall k | 0 <= k < |s.entries| ensures s.entries[k].vm.refcount >= 1 {
      assert EntryOk(s.entries[k], s.latest);
    }
  }

  /** A stop event is sound exactly when the record it hits has not been released since it was
      added. */
  lemma StopIsSoundIff(actions: seq<Action>, pct: Percents, name: string)
    requires DisciplinedRun(actions, pct) && ByName(Run(actions, pct).entries, name) < |Run(actions, pct).entries|
    ensures var es := Run(actions, pct).entries;
            Sound(es, Stop(name), pct) <==> NeverReleased(actions, pct, es[ByName(es, name)].vm.domid)
  {
    ReachableIsHeld(actions, pct);
    SoundIffDisciplined(Run(actions, pct).entries, Stop(name), pct);
    OwnMeaning(actions, pct, ByName(Run(actions, pct).entries, name));
  }

  /** A rebuild is sound exactly when no listed record has been released since it was added. */
  lemma RebuildIsSoundIff(actions: seq<Action>, pct: Percents)
    requires DisciplinedRun(actions, pct)
    ensures var es := Run(actions, pct).entries;
            Sound(es, ReleaseAll, pct)
            <==> forall k | 0 <= k < |es| :: NeverReleased(actions, pct, es[k].vm.domid)
  {
    ReachableIsHeld(actions, pct);
    var es := Run(actions, pct).entries;
    SoundIffDisciplined(es, ReleaseAll, pct);
    forall k | 0 <= k < |es| ensures es[k].own <==> NeverReleased(actions, pct, es[k].vm.domid) {
      OwnMeaning(actions, pct, k);
    }
  }

  lemma OneStep(actions: seq<Action>, a: Action, pct: Percents, e: Entry, after: seq<Entry>)
    requires DisciplinedRun(actions, pct) && Run(actions, pct).entries == [e] && Entries([e], a, pct) == after
    ensures Run(actions + [a], pct).entries == after
    ensures DisciplinedRun(actions + [a], pct) <==> Disciplined([e], a)
  {
    Push(actions, a, pct);
  }

  /** Nothing in the daemon prevents a second release: a stop event after a rebuild frees a
      record that is still held. */
  lemma SecondReleaseFreesAHeldRecord(pct: Percents) returns (actions: seq<Action>, a: Action)
    ensures DisciplinedRun(actions, pct) && !Disciplined(Run(actions, pct).entries, a)
    ensures |Run(actions, pct).entries| == 1 && Run(actions, pct).entries[0].handles == 1
    ensures Run(actions + [a], pct).entries == []
  {
    var probe := Probe(true, true, Some("vm"), 0, Some(Info(0, 0, 0)));
    var e := Entry(WithInfo(NewVm(1).(domname := "vm"), Info(0, 0, 0)), [], true, 0, false);
    var f := Taken(e);
    var g := Released(f, true);
    Push([], Add(1, probe), pct);
    var added := [] + [Add(1, probe)];
    OneStep(added, Get(1), pct, e, [f]);
    assert FreeEntries([f], 1) == [] && Kept(f, true) == [g];
    OneStep(added + [Get(1)], ReleaseAll, pct, f, [g]);
    actions, a := added + [Get(1)] + [ReleaseAll], Stop("vm");
    assert VmsOf([g])[0].domname == "vm" && ByName([g], "vm") == 0;
    OneStep(actions, a, pct, g, []);
  }
}
