/** What holds in every state the daemon can reach, whatever order its sections run in and
    whatever libvirt and the guests do. */
module DaemonTheorems {
  import opened Machine
  import opened Vm
  import opened Balloon
  import opened Automaton
  import opened TraceTheorems
  import opened PollTheorems
  import opened Passes
  import opened ListSpec
  import opened RefreshSpec
  import opened Daemon

  /** The statistics named this balloon size last for a domain. */
  predicate Reported(ss: seq<Stats>, domid: i32, actual: u64) {
    var p := LastOf(ss, |ss|, domid, BalloonCurrent);
    p.Some? && p.value.ul == actual
  }

  /** The history explains the record, the record is referenced, and a balloon size it shows is
      the one the last connected refresh reported while the record was already listed. */
  ghost predicate EntryOk(e: Entry, latest: seq<Stats>) {
    && Explains(e.trace, e.vm)
    && e.vm.refcount >= 1
    && (e.vm.memstat.actualBalloon != 0 ==> e.seen && Reported(latest, e.vm.domid, e.vm.memstat.actualBalloon))
  }

  ghost predicate AllOk(es: seq<Entry>, latest: seq<Stats>) {
    forall k | 0 <= k < |es| :: EntryOk(es[k], latest)
  }

  ghost predicate Ok(s: State) {
    DistinctDomids(VmsOf(s.entries)) && AllOk(s.entries, s.latest)
  }

  // ---------- One section keeps the invariant of each record ----------

  lemma RefreshedOk(e: Entry, latest: seq<Stats>, answer: Answer)
    requires EntryOk(e, latest)
    ensures EntryOk(Collected(e, answer), Latest(latest, Collect(answer)))
  {
  }

  /** What the controller does not write: everything but its own fields. */
  predicate OnlyControl(v: Vm, w: Vm) {
    w == v.(balloonTarget := w.balloonTarget, currentActualBalloon := w.currentActualBalloon,
            ballooning := w.ballooning, needBalloonFlag := w.needBalloonFlag, balloonI := w.balloonI,
            ballooningDown := w.ballooningDown, incompleteBalloon := w.incompleteBalloon)
  }

  lemma DoBallooningKeeps(v: Vm, pct: Percents, answer: bool)
    ensures OnlyControl(v, DoBallooning(v, pct, answer).vm)
  {
    var w := Planned(v, pct);
    PlannedKeeps(v, pct);
    assert OnlyControl(w, AfterInflate(w, answer));
    var o := DoBallooning(v, pct, answer).vm;
    assert o == v || o == w || o == AfterInflate(w, answer);
  }

  lemma PlannedKeeps(v: Vm, pct: Percents)
    ensures OnlyControl(v, Planned(v, pct))
  {
    var w, target := Planned(v, pct), TargetOf(v, pct);
    assert w == v.(needBalloonFlag := w.needBalloonFlag, balloonTarget := if IsDue(v) then target else v.balloonTarget);
  }

  lemma BusyStepKeeps(v: Vm, answer: bool)
    ensures OnlyControl(v, BusyStep(v, answer).vm)
  {
    var c := BalloonCheck(v);
    assert OnlyControl(v, c.vm);
    assert OnlyControl(c.vm, AfterGiveBack(c.vm, answer));
  }

  lemma MainStepKeeps(v: Vm, pct: Percents, answer: bool)
    ensures OnlyControl(v, MainStep(v, pct, answer).vm)
  {
    DoBallooningKeeps(v, pct, answer);
    BusyStepKeeps(v, answer);
  }

  lemma DecideKeeps(v: Vm, pct: Percents, answer: bool)
    ensures OnlyControl(v, Decide(v, pct, answer).vm)
  {
    var w := RecordPressure(Detect(v).vm).vm;
    assert OnlyControl(v, w);
    MainStepKeeps(w, pct, answer);
    OnlyMainStepRequests(v, w, pct, answer);
  }

  lemma DecidedOk(e: Entry, latest: seq<Stats>, pct: Percents, answer: bool)
    requires EntryOk(e, latest)
    ensures EntryOk(Decided(e, pct, answer), latest)
  {
    DecideIsLegal(e.trace, e.vm, pct, answer);
    DecideKeeps(e.vm, pct, answer);
  }

  lemma KeptOk(e: Entry, own: bool, latest: seq<Stats>)
    requires EntryOk(e, latest)
    ensures AllOk(Kept(e, own), latest)
  {
  }

  lemma ConcatOk(a: seq<Entry>, b: seq<Entry>, latest: seq<Stats>)
    requires AllOk(a, latest) && AllOk(b, latest)
    ensures AllOk(a + b, latest)
  {
  }

  lemma ReleaseOk(es: seq<Entry>, k: nat, own: bool, latest: seq<Stats>)
    requires AllOk(es, latest) && k < |es|
    ensures AllOk(es[..k] + Kept(es[k], own) + es[k + 1..], latest)
  {
    KeptOk(es[k], own, latest);
    ConcatOk(es[..k], Kept(es[k], own), latest);
    ConcatOk(es[..k] + Kept(es[k], own), es[k + 1..], latest);
  }

  lemma {:induction false} FreeOk(es: seq<Entry>, i: nat, latest: seq<Stats>)
    requires AllOk(es, latest) && i <= |es|
    ensures AllOk(FreeEntries(es, i), latest)
    decreases |es| - i
  {
    if i < |es| {
      FreeOk(es, i + 1, latest);
      KeptOk(es[i], true, latest);
      ConcatOk(Kept(es[i], true), FreeEntries(es, i + 1), latest);
    }
  }

  lemma AddedOk(e: Entry, domid: i32, probe: Probe, latest: seq<Stats>)
    requires probe.Accepts()
    requires e == Entry(WithInfo(NewVm(domid).(domname := probe.name.value), probe.info.value), [], true, 0, false)
    ensures EntryOk(e, latest)
  {
    NewVmIsExplained(domid);
  }

  lemma RefreshKeepsEntries(s: State, answer: Answer, pct: Percents)
    requires AllOk(s.entries, s.latest)
    ensures AllOk(Entries(s.entries, Collect(answer), pct), Latest(s.latest, Collect(answer)))
  {
    forall k | 0 <= k < |s.entries|
      ensures EntryOk(Collected(s.entries[k], answer), Latest(s.latest, Collect(answer)))
    {
      RefreshedOk(s.entries[k], s.latest, answer);
    }
  }

  lemma DecideKeepsEntries(s: State, oracle: Oracle, first: nat, pct: Percents)
    requires AllOk(s.entries, s.latest)
    ensures AllOk(Entries(s.entries, Decision(oracle, first), pct), s.latest)
  {
    var answers := AnswersFor(s.entries, pct, oracle, first);
    forall k | 0 <= k < |s.entries|
      ensures EntryOk(Decided(s.entries[k], pct, answers[k]), s.latest)
    {
      DecidedOk(s.entries[k], s.latest, pct, answers[k]);
    }
  }

  lemma AddKeepsEntries(es: seq<Entry>, domid: i32, probe: Probe, latest: seq<Stats>, pct: Percents)
    requires AllOk(es, latest)
    ensures AllOk(Entries(es, Add(domid, probe), pct), latest)
  {
    if ByDomid(es, domid) == |es| && probe.Accepts() {
      AddedOk(Entries(es, Add(domid, probe), pct)[0], domid, probe, latest);
    }
  }

  lemma GetKeepsEntries(es: seq<Entry>, domid: i32, latest: seq<Stats>, pct: Percents)
    requires AllOk(es, latest)
    ensures AllOk(Entries(es, Get(domid), pct), latest)
  {
    var k := ByDomid(es, domid);
    if k < |es| { assert EntryOk(Taken(es[k]), latest); }
  }

  lemma UpdateKeepsEntries(es: seq<Entry>, answers: map<i32, Info>, latest: seq<Stats>, pct: Percents)
    requires AllOk(es, latest)
    ensures AllOk(Entries(es, Update(answers), pct), latest)
  {
  }

  lemma {:induction false} StepKeepsEntries(s: State, a: Action, pct: Percents)
    requires AllOk(s.entries, s.latest)
    ensures AllOk(Entries(s.entries, a, pct), Latest(s.latest, a))
  {
    var es, latest := s.entries, Latest(s.latest, a);
    match a {
      case Collect(answer) => RefreshKeepsEntries(s, answer, pct);
      case Decision(oracle, first) => DecideKeepsEntries(s, oracle, first, pct);
      case Add(domid, probe) => AddKeepsEntries(es, domid, probe, latest, pct);
      case Stop(name) => if ByName(es, name) < |es| { ReleaseOk(es, ByName(es, name), true, latest); }
      case Get(domid) => GetKeepsEntries(es, domid, latest, pct);
      case Put(domid) => if ByDomid(es, domid) < |es| { ReleaseOk(es, ByDomid(es, domid), false, latest); }
      case Update(answers) => UpdateKeepsEntries(es, answers, latest, pct);
      case ReleaseAll => FreeOk(es, 0, latest);
    }
  }

  // ---------- One section keeps the records distinct ----------

  ghost predicate ListedFrom(vms: seq<Vm>, i: nat, domid: i32) {
    exists j :: i <= j < |vms| && vms[j].domid == domid
  }

  lemma {:induction false} FreeKeepsDistinct(vms: seq<Vm>, i: nat)
    requires DistinctDomids(vms) && i <= |vms|
    ensures DistinctDomids(FreeFrom(vms, i))
    ensures forall k | 0 <= k < |FreeFrom(vms, i)| :: ListedFrom(vms, i, FreeFrom(vms, i)[k].domid)
    decreases |vms| - i
  {
    if i < |vms| {
      FreeKeepsDistinct(vms, i + 1);
      var all, n := FreeFrom(vms, i), |Remains(vms[i])|;
      forall k | 0 <= k < |all|
        ensures ListedFrom(vms, i, all[k].domid)
      {
        if k >= n {
          assert all[k] == FreeFrom(vms, i + 1)[k - n];
        } else {
          assert vms[i].domid == all[k].domid;
        }
      }
    }
  }

  lemma {:induction false} SameDomids(es: seq<Entry>, next: seq<Entry>)
    requires DistinctDomids(VmsOf(es)) && |next| == |es|
    requires forall k | 0 <= k < |es| :: next[k].vm.domid == es[k].vm.domid
    ensures DistinctDomids(VmsOf(next))
  {
  }

  lemma DecideKeepsDomids(es: seq<Entry>, oracle: Oracle, first: nat, pct: Percents)
    ensures var next := Entries(es, Decision(oracle, first), pct);
            |next| == |es| && forall k | 0 <= k < |es| :: next[k].vm.domid == es[k].vm.domid
  {
    var answers := AnswersFor(es, pct, oracle, first);
    forall k | 0 <= k < |es| ensures Decided(es[k], pct, answers[k]).vm.domid == es[k].vm.domid {
      DecideKeeps(es[k].vm, pct, answers[k]);
    }
  }

  lemma {:induction false} UnrefKeepsDistinct(vms: seq<Vm>, k: nat)
    requires DistinctDomids(vms) && k < |vms|
    ensures DistinctDomids(Unref(vms, k))
  {
  }

  lemma {:induction false} AddKeepsDistinct(es: seq<Entry>, domid: i32, probe: Probe, pct: Percents)
    requires DistinctDomids(VmsOf(es))
    ensures DistinctDomids(VmsOf(Entries(es, Add(domid, probe), pct)))
  {
  }

  lemma {:induction false} StopKeepsDistinct(es: seq<Entry>, name: string, pct: Percents)
    requires DistinctDomids(VmsOf(es))
    ensures DistinctDomids(VmsOf(Entries(es, Stop(name), pct)))
  {
    StopVms(es, name, pct);
    if ByName(es, name) < |es| { UnrefKeepsDistinct(VmsOf(es), ByName(es, name)); }
  }

  lemma {:induction false} PutKeepsDistinct(es: seq<Entry>, domid: i32, pct: Percents)
    requires DistinctDomids(VmsOf(es))
    ensures DistinctDomids(VmsOf(Entries(es, Put(domid), pct)))
  {
    var vms, k := VmsOf(es), ByDomid(es, domid);
    PutVms(es, domid, pct);
    if k < |es| {
      UnrefKeepsDistinct(vms, k);
      assert ListOperation(vms, Put(domid), pct) == Unref(vms, k);
    }
  }

  lemma {:induction false} CollectKeepsDomids(es: seq<Entry>, answer: Answer, pct: Percents)
    ensures var next := Entries(es, Collect(answer), pct);
            |next| == |es| && forall k | 0 <= k < |es| :: next[k].vm.domid == es[k].vm.domid
  {
  }

  lemma {:induction false} GetKeepsDomids(es: seq<Entry>, domid: i32, pct: Percents)
    ensures var next := Entries(es, Get(domid), pct);
            |next| == |es| && forall k | 0 <= k < |es| :: next[k].vm.domid == es[k].vm.domid
  {
  }

  lemma {:induction false} UpdateKeepsDomids(es: seq<Entry>, answers: map<i32, Info>, pct: Percents)
    ensures var next := Entries(es, Update(answers), pct);
            |next| == |es| && forall k | 0 <= k < |es| :: next[k].vm.domid == es[k].vm.domid
  {
  }

  lemma {:induction false} StepKeepsDistinct(es: seq<Entry>, a: Action, pct: Percents)
    requires DistinctDomids(VmsOf(es))
    ensures DistinctDomids(VmsOf(Entries(es, a, pct)))
  {
    var next := Entries(es, a, pct);
    match a {
      case Collect(answer) =>
        CollectKeepsDomids(es, answer, pct);
        SameDomids(es, next);
      case Decision(oracle, first) =>
        DecideKeepsDomids(es, oracle, first, pct);
        SameDomids(es, next);
      case Add(domid, probe) => AddKeepsDistinct(es, domid, probe, pct);
      case Stop(name) => StopKeepsDistinct(es, name, pct);
      case Get(domid) =>
        GetKeepsDomids(es, domid, pct);
        SameDomids(es, next);
      case Put(domid) => PutKeepsDistinct(es, domid, pct);
      case Update(answers) =>
        UpdateKeepsDomids(es, answers, pct);
        SameDomids(es, next);
      case ReleaseAll =>
        FreeEntriesVms(es, 0);
        FreeKeepsDistinct(VmsOf(es), 0);
    }
  }

  /** The invariant of every reachable state. */
  lemma {:induction false} RunIsOk(actions: seq<Action>, pct: Percents)
    ensures Ok(Run(actions, pct))
  {
    if actions != [] {
      var s, a := Run(actions[..|actions| - 1], pct), actions[|actions| - 1];
      RunIsOk(actions[..|actions| - 1], pct);
      StepKeepsDistinct(s.entries, a, pct);
      StepKeepsEntries(s, a, pct);
    }
  }

  // ---------- Safety of every run ----------

  /** Every record of every reachable state has had a safe history since it was added: episodes in
      order, inflates only at full memory, the mark set exactly while an inflate is the last request
      accepted since then, the counter meaning what it should. */
  lemma EveryHistoryIsSafe(actions: seq<Action>, pct: Percents, k: nat)
    requires k < |Run(actions, pct).entries|
    ensures var e := Run(actions, pct).entries[k];
            && EpisodesInOrder(e.trace)
            && (forall j | 0 <= j < |e.trace| && e.trace[j].Inflate? :: e.trace[j].currentMem >= e.trace[j].memory)
            && (e.vm.ballooningDown <==> LastAccepted(e.trace) != [] && LastAccepted(e.trace)[0].Inflate?)
            && (e.vm.ballooningDown || e.vm.incompleteBalloon ==> e.vm.ballooning)
            && CounterMeaning(e.trace) && e.vm.needBalloonFlag == Replay(e.trace).flag < NEED_BALLOON_CHECK_TIMES
  {
    RunIsOk(actions, pct);
    var e := Run(actions, pct).entries[k];
    assert EntryOk(e, Run(actions, pct).latest);
    EpisodeSafety(e.trace);
    DownIffInflateIsLast(e.trace);
    CounterCountsLowPolls(e.trace);
    forall j | 0 <= j < |e.trace| && e.trace[j].Inflate?
      ensures e.trace[j].currentMem >= e.trace[j].memory
    {
      LegalPrefix(e.trace, j);
    }
  }

  lemma EntryInflatesWhole(e: Entry, latest: seq<Stats>, pct: Percents, answer: bool, j: nat)
    requires EntryOk(e, latest) && j >= |e.trace|
    ensures var t := Decided(e, pct, answer).trace;
            j < |t| && t[j].Inflate? ==>
              && e.vm.currentMem >= e.vm.memory && !e.vm.ballooning && e.vm.state == RUNNING
              && t[j].currentMem == e.vm.currentMem && t[j].memory == e.vm.memory
              && forall i | 0 <= i < j && Squeezes(t[i]) :: Returned(t, i, j)
  {
    var t, events := Decided(e, pct, answer).trace, Decide(e.vm, pct, answer).events;
    assert t == e.trace + events && (j < |t| ==> t[j] == events[j - |e.trace|]);
    DecidedIsInOrder(e, latest, pct, answer);
    InflateNeedsFullMemory(e.vm, pct, answer, j - |e.trace|);
  }

  lemma DecidedIsInOrder(e: Entry, latest: seq<Stats>, pct: Percents, answer: bool)
    requires EntryOk(e, latest)
    ensures EpisodesInOrder(Decided(e, pct, answer).trace)
  {
    DecidedOk(e, latest, pct, answer);
    EpisodeSafety(Decided(e, pct, answer).trace);
  }

  /** A decision section asks a guest to inflate only if, in this very section, the record shows
      its full memory, and only if everything taken since the record was added was returned. */
  lemma SectionInflatesWholeGuests(actions: seq<Action>, pct: Percents, oracle: Oracle, first: nat, k: nat, j: nat)
    requires k < |Run(actions, pct).entries| && j >= |Run(actions, pct).entries[k].trace|
    ensures var e := Run(actions, pct).entries[k];
            var t := After(Run(actions, pct), Decision(oracle, first), pct).entries[k].trace;
            j < |t| && t[j].Inflate? ==>
              && e.vm.currentMem >= e.vm.memory && !e.vm.ballooning && e.vm.state == RUNNING
              && t[j].currentMem == e.vm.currentMem && t[j].memory == e.vm.memory
              && forall i | 0 <= i < j && Squeezes(t[i]) :: Returned(t, i, j)
  {
    var s := Run(actions, pct);
    RunIsOk(actions, pct);
    EntryInflatesWhole(s.entries[k], s.latest, pct, AnswersFor(s.entries, pct, oracle, first)[k], j);
  }

  /** Requests go out in list order, at most one for each record: no domain gets two. */
  lemma SectionRequestsInListOrder(actions: seq<Action>, pct: Percents, oracle: Oracle, first: nat)
    ensures var vms := VmsOf(Run(actions, pct).entries);
            InListOrder(DecisionPhase(vms, pct, oracle, first).requests, vms) && DistinctDomids(vms)
  {
    RunIsOk(actions, pct);
    PhaseInListOrder(VmsOf(Run(actions, pct).entries), pct, oracle, first);
  }
}
