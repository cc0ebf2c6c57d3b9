/** When a guest is inflated in a run of the daemon, and to what size: in terms of the statistics its
    record shows in the decision sections. */
module Inflating {
  import opened Machine
  import opened Vm
  import opened Balloon
  import opened PollTheorems
  import opened PollMeaning
  import opened ListSpec
  import opened RefreshSpec
  import opened Daemon
  import opened DaemonTheorems
  import opened Lineage

  // ---------- One section ----------

  /** What a decision section adds to the history of a record. */
  function Added(actions: seq<Action>, a: Action, pct: Percents, k: nat): Trace
    requires a.Decision? && k < |Run(actions, pct).entries|
  {
    var es := Run(actions, pct).entries;
    Decide(es[k].vm, pct, AnswersFor(es, pct, a.oracle, a.first)[k]).events
  }

  lemma {:induction false} AddedIsNewHistory(actions: seq<Action>, a: Action, pct: Percents, k: nat)
    requires a.Decision? && k < |Run(actions, pct).entries|
    ensures k < |Run(actions + [a], pct).entries|
    ensures Run(actions + [a], pct).entries[k].trace == Run(actions, pct).entries[k].trace + Added(actions, a, pct, k)
  {
    RunOneMore(actions, a, pct);
  }

  /** A decision section counts a low usage of a guest exactly below 30%, and a high one exactly above
      50%, if it looks at it. */
  lemma SectionClassifies(actions: seq<Action>, a: Action, pct: Percents, k: nat)
    requires a.Decision? && k < |Run(actions, pct).entries|
    ensures var v, t := Run(actions, pct).entries[k].vm, Added(actions, a, pct, k);
            && (Looked(Below) in t <==> LookedAt(v) && LowUse(v.memstat))
            && (Looked(Above) in t <==> LookedAt(v) && HighUse(v.memstat))
  {
    var es := Run(actions, pct).entries;
    PollClassifies(es[k].vm, pct, AnswersFor(es, pct, a.oracle, a.first)[k]);
  }

  /** Every inflate requested in a decision section of any run is for the least sufficient size. */
  lemma SectionInflatesToTheLeast(actions: seq<Action>, a: Action, pct: Percents, k: nat, i: nat)
    requires a.Decision? && k < |Run(actions, pct).entries| && pct.Loadable()
    requires SizesFit(Run(actions, pct).entries[k].vm)
    ensures var v, t := Run(actions, pct).entries[k].vm, Added(actions, a, pct, k);
            i < |t| && t[i].Inflate? ==> LeastSufficient(t[i].target, v, pct)
  {
    var es := Run(actions, pct).entries;
    InflateAsksForTheLeast(es[k].vm, pct, AnswersFor(es, pct, a.oracle, a.first)[k], i);
  }

  // ---------- Hysteresis ----------

  /** The section looks at the record of a domain and finds a low, or a high, usage. */
  predicate LowIn(es: seq<Entry>, a: Action, domid: i32) {
    a.Decision? && Listed(es, domid)
    && var v := es[ByDomid(es, domid)].vm; LookedAt(v) && LowUse(v.memstat)
  }

  predicate HighIn(es: seq<Entry>, a: Action, domid: i32) {
    a.Decision? && Listed(es, domid)
    && var v := es[ByDomid(es, domid)].vm; LookedAt(v) && HighUse(v.memstat)
  }

  /** How many sections from the `i`-th on found a low usage since the last one that found a high
      one. */
  function LowSince(actions: seq<Action>, pct: Percents, domid: i32, i: nat): nat {
    if |actions| <= i then 0
    else
      var p, a := actions[..|actions| - 1], actions[|actions| - 1];
      var es := Run(p, pct).entries;
      if HighIn(es, a, domid) then 0
      else LowSince(p, pct, domid, i) + if LowIn(es, a, domid) then 1 else 0
  }

  lemma BusyFlag(v: Vm, pct: Percents, answer: bool)
    requires v.ballooning
    ensures var f := Decide(v, pct, answer).vm.needBalloonFlag; f == v.needBalloonFlag || f == 1
  {
    assert Detect(v).vm == v && RecordPressure(v).vm == v;
    OnlyMainStepRequests(v, v, pct, answer);
    BusyStepFlag(v, answer);
  }

  lemma BusyStepFlag(v: Vm, answer: bool)
    ensures var f := BusyStep(v, answer).vm.needBalloonFlag; f == v.needBalloonFlag || f == 1
  {
  }

  /** A poll counts up only when it looks at a guest with low usage. */
  lemma FlagMoves(v: Vm, pct: Percents, answer: bool)
    ensures var f := Decide(v, pct, answer).vm.needBalloonFlag;
            || f <= 1
            || (f <= v.needBalloonFlag && !(LookedAt(v) && HighUse(v.memstat)))
            || (f <= v.needBalloonFlag + 1 && LookedAt(v) && LowUse(v.memstat) && !HighUse(v.memstat))
  {
    if v.ballooning {
      BusyFlag(v, pct, answer);
    } else if LookedAt(v) {
      LookedAtPoll(v, pct, answer);
    } else if HasStatistics(v.memstat) && v.memory > v.currentMem {
      SqueezedPoll(v, pct, answer);
    } else {
      QuietPoll(v, pct, answer);
    }
  }

  lemma {:induction false} FlagOfDecision(es: seq<Entry>, a: Action, pct: Percents, k: nat, f: Entry, n: nat)
    requires DistinctDomids(VmsOf(es)) && k < |es| && a.Decision? && Continues(es, a, pct, es[k], f)
    requires es[k].vm.needBalloonFlag <= 1 + n
    ensures f.vm.needBalloonFlag <= 1 + if HighIn(es, a, es[k].vm.domid) then 0
                                        else n + if LowIn(es, a, es[k].vm.domid) then 1 else 0
  {
    FirstDomidAt(VmsOf(es), k);
    FlagMoves(es[k].vm, pct, AnswerTo(es, a, pct, es[k].vm.domid));
  }

  lemma {:induction false} FlagOfNew(actions: seq<Action>, pct: Percents, k: nat)
    requires k < |Run(actions, pct).entries|
    ensures var e := Run(actions, pct).entries[k];
            (e.trace == [] ==> e.vm.needBalloonFlag == 1) && e.vm.needBalloonFlag < 20
  {
    RunIsOk(actions, pct);
    assert EntryOk(Run(actions, pct).entries[k], Run(actions, pct).latest);
  }

  /** The counter is at most one more than the sections with low usage since it was added, or since
      the last one with high usage. */
  lemma {:induction false} CounterIsBacked(actions: seq<Action>, pct: Percents, i: nat, k: nat)
    requires k < |Run(actions, pct).entries|
    requires AddedAt(HistoryOf(actions, pct), actions, i, Run(actions, pct).entries[k].vm.domid)
    ensures var v := Run(actions, pct).entries[k].vm;
            v.needBalloonFlag <= 1 + LowSince(actions, pct, v.domid, i)
  {
    var k0 := LastSection(actions, pct, i, k);
    var p, a := actions[..|actions| - 1], actions[|actions| - 1];
    if i == |p| {
      FlagOfNew(actions, pct, k);
    } else {
      CounterIsBacked(p, pct, i, k0);
      if a.Decision? {
        RunIsOk(p, pct);
        var es, f := Run(p, pct).entries, Run(actions, pct).entries[k];
        FlagOfDecision(es, a, pct, k0, f, LowSince(p, pct, es[k0].vm.domid, i));
      }
    }
  }

  lemma BusyStepInflatesNone(v: Vm, answer: bool)
    ensures forall e | e in BusyStep(v, answer).events :: !e.Inflate?
  {
  }

  lemma MainStepInflates(v: Vm, pct: Percents, answer: bool, e: Event)
    requires e in MainStep(v, pct, answer).events && e.Inflate?
    ensures !v.ballooning && !v.lockall && !v.enableFpr && v.state == 1 && StatOk(v.memstat) && IsDue(v)
  {
    if v.ballooning { BusyStepInflatesNone(v, answer); }
  }

  lemma InflateIsDue(v: Vm, pct: Percents, answer: bool, e: Event)
    requires v.needBalloonFlag < 20
    ensures e in Decide(v, pct, answer).events && e.Inflate? ==>
              LookedAt(v) && LowUse(v.memstat) && v.needBalloonFlag == 19
  {
    var d := Detect(v);
    var p := RecordPressure(d.vm);
    assert Decide(v, pct, answer).events == d.events + p.events + MainStep(p.vm, pct, answer).events;
    if e in Decide(v, pct, answer).events && e.Inflate? {
      MainStepInflates(p.vm, pct, answer, e);
      PressureFirst(v);
      CountMeaning(p.vm);
    }
  }

  /** Hysteresis over runs: an inflate is requested only in a section that finds less than 30% of the
      guest's total in use, and together with it at least nineteen sections have done so since the
      record was added, without one that found more than 50% in between. */
  lemma {:induction false} InflateNeedsNineteenLowSections(actions: seq<Action>, a: Action, pct: Percents,
                                                           i: nat, k: nat, j: nat)
    requires a.Decision? && k < |Run(actions, pct).entries|
    requires AddedAt(HistoryOf(actions, pct), actions, i, Run(actions, pct).entries[k].vm.domid)
    ensures var v, t := Run(actions, pct).entries[k].vm, Added(actions, a, pct, k);
            j < |t| && t[j].Inflate? ==>
              LookedAt(v) && LowUse(v.memstat) && LowSince(actions + [a], pct, v.domid, i) >= 19
  {
    var es := Run(actions, pct).entries;
    RunIsOk(actions, pct);
    FirstDomidAt(VmsOf(es), k);
    FlagOfNew(actions, pct, k);
    CounterIsBacked(actions, pct, i, k);
    if j < |Added(actions, a, pct, k)| {
      InflateIsDue(es[k].vm, pct, AnswersFor(es, pct, a.oracle, a.first)[k], Added(actions, a, pct, k)[j]);
    }
    assert (actions + [a])[..|actions|] == actions;
  }
}
