/** What libvirt says about a domain reaches its record, and through it the next decision. */
module DomainTheorems {
  import opened Machine
  import opened Vm
  import opened PollMeaning
  import opened ListSpec
  import opened RefreshSpec
  import opened Daemon
  import opened DaemonTheorems
  import opened Lineage

  /** In a decision section the record at place `k` does what a poll of it does. */
  lemma {:induction false} EventsAt(actions: seq<Action>, a: Action, pct: Percents, k: nat)
    requires a.Decision? && k < |Run(actions, pct).entries|
    ensures var es := Run(actions, pct).entries;
            var v := es[k].vm;
            Squeezed in EventsOf(es, a, pct, v.domid)
            <==> !v.ballooning && HasStatistics(v.memstat) && v.memory > v.currentMem
  {
    var es := Run(actions, pct).entries;
    RunIsOk(actions, pct);
    FirstDomidAt(VmsOf(es), k);
    SqueezedIff(es[k].vm, pct, AnswerTo(es, a, pct, es[k].vm.domid));
  }

  /** An update in a run: each record shows what libvirt says about its domain. */
  lemma {:induction false} UpdateInRun(actions: seq<Action>, answers: map<i32, Info>, pct: Percents, k: nat)
    requires k < |Run(actions, pct).entries|
    ensures |Run(actions + [Update(answers)], pct).entries| == |Run(actions, pct).entries|
    ensures var v, w := Run(actions, pct).entries[k].vm, Run(actions + [Update(answers)], pct).entries[k].vm;
            if v.domid in answers then
              var info := answers[v.domid];
              && w.memory == info.maxMem && w.currentMem == info.memory && w.state == info.state
              && w == v.(memory := w.memory, currentMem := w.currentMem, state := w.state)
            else w == v
  {
    RunOneMore(actions, Update(answers), pct);
    var es := Run(actions, pct).entries;
    UpdateVms(es, answers, pct);
    UpdateMeaning(VmsOf(es), answers, k);
  }

  /** After an update the next decision finds an idle guest squeezed exactly if it delivers statistics
      and libvirt says that it has less than its maximum. */
  lemma {:induction false} SqueezedAfterUpdate(actions: seq<Action>, answers: map<i32, Info>, a: Action,
                                               pct: Percents, k: nat)
    requires a.Decision? && k < |Run(actions, pct).entries| && Run(actions, pct).entries[k].vm.domid in answers
    ensures var v := Run(actions, pct).entries[k].vm;
            Squeezed in EventsOf(Run(actions + [Update(answers)], pct).entries, a, pct, v.domid)
            <==> !v.ballooning && HasStatistics(v.memstat) && answers[v.domid].maxMem > answers[v.domid].memory
  {
    UpdateInRun(actions, answers, pct, k);
    EventsAt(actions + [Update(answers)], a, pct, k);
  }

  /** Everything about a domain can be found out. */
  predicate Describable(probe: Probe) {
    probe.hasMemory && probe.found && probe.name.Some? && probe.hugePages <= 0 && probe.info.Some?
  }

  /** A domain that is added in a run: its record shows what libvirt says about it. */
  lemma {:induction false} AddInRun(actions: seq<Action>, domid: i32, probe: Probe, pct: Percents)
    requires !Listed(Run(actions, pct).entries, domid) && Describable(probe)
    ensures var es, info := Run(actions + [Add(domid, probe)], pct).entries, probe.info.value;
            && |es| == |Run(actions, pct).entries| + 1
            && var v := es[0].vm;
            && v.domid == domid && v.domname == probe.name.value
            && v.memory == info.maxMem && v.currentMem == info.memory && v.state == info.state
            && !v.ballooning && v.needBalloonFlag == 1 && v.refcount == 1
  {
    var es := Run(actions, pct).entries;
    RunOneMore(actions, Add(domid, probe), pct);
    AddVms(es, domid, probe, pct);
    AddMeaning(VmsOf(es), domid, probe);
  }

  lemma {:induction false} CollectInRun(actions: seq<Action>, ss: seq<Stats>, pct: Percents, k: nat)
    requires k < |Run(actions, pct).entries|
    ensures |Run(actions + [Collect(Delivered(ss))], pct).entries| == |Run(actions, pct).entries|
    ensures var v, w := Run(actions, pct).entries[k].vm, Run(actions + [Collect(Delivered(ss))], pct).entries[k].vm;
            var n := |ss|;
            && w.memstat.actualBalloon == UlOr(LastOf(ss, n, v.domid, BalloonCurrent), 0)
            && w.memstat.available == UlOr(LastOf(ss, n, v.domid, BalloonAvailable), 0)
            && w.memstat.usable == UlOr(LastOf(ss, n, v.domid, BalloonUsable), 0)
            && w.memstat.unused == UlOr(LastOf(ss, n, v.domid, BalloonUnused), 0)
            && w.currentMem == Size(LastOf(ss, n, v.domid, BalloonCurrent), v.currentMem)
            && w.memory == Size(LastOf(ss, n, v.domid, BalloonMaximum), v.memory)
            && w.domid == v.domid && w.ballooning == v.ballooning
  {
    var es := Run(actions, pct).entries;
    RunOneMore(actions, Collect(Delivered(ss)), pct);
    RunIsOk(actions, pct);
    RefreshVms(es, Delivered(ss), pct);
    RefreshFields(VmsOf(es), ss, k);
  }

  /** What has to be delivered for a domain so that its statistics count. */
  predicate Reports(ss: seq<Stats>, domid: i32) {
    && UlOr(LastOf(ss, |ss|, domid, BalloonCurrent), 0) > 0 && UlOr(LastOf(ss, |ss|, domid, BalloonAvailable), 0) > 0
    && (UlOr(LastOf(ss, |ss|, domid, BalloonUsable), 0) > 0 || UlOr(LastOf(ss, |ss|, domid, BalloonUnused), 0) > 0)
  }

  /** A domain that is added while it has less than its maximum, and then delivers statistics that
      agree with that, is found squeezed in the next decision; no other is. */
  lemma {:induction false} SqueezedAfterAdd(actions: seq<Action>, domid: i32, probe: Probe, ss: seq<Stats>, a: Action,
                                            pct: Percents)
    requires a.Decision? && !Listed(Run(actions, pct).entries, domid) && Describable(probe)
    requires LastOf(ss, |ss|, domid, BalloonMaximum).None?
    requires Size(LastOf(ss, |ss|, domid, BalloonCurrent), probe.info.value.memory) == probe.info.value.memory
    ensures var now := actions + [Add(domid, probe)] + [Collect(Delivered(ss))];
            Squeezed in EventsOf(Run(now, pct).entries, a, pct, domid)
            <==> Reports(ss, domid) && probe.info.value.maxMem > probe.info.value.memory
  {
    AddInRun(actions, domid, probe, pct);
    CollectInRun(actions + [Add(domid, probe)], ss, pct, 0);
    EventsAt(actions + [Add(domid, probe)] + [Collect(Delivered(ss))], a, pct, 0);
  }
}
