/** Which statistics the decisions rest on. */
module FreshData {
  import opened Machine
  import opened Vm
  import opened Balloon
  import opened Automaton
  import opened PollTheorems
  import opened Passes
  import opened ListSpec
  import opened RefreshSpec
  import opened Daemon
  import opened DaemonTheorems
  import opened Lineage

  /** The answer to the last refresh of a run; none counts as not connected. */
  function LastRefresh(actions: seq<Action>): Answer {
    if actions == [] then NotConnected
    else if actions[|actions| - 1].Collect? then actions[|actions| - 1].answer
    else LastRefresh(actions[..|actions| - 1])
  }

  /** How many sections of a run were over after its last refresh. */
  function RefreshedAt(actions: seq<Action>): (n: nat)
    ensures n <= |actions| && (n > 0 ==> actions[n - 1].Collect?)
  {
    if actions == [] then 0
    else if actions[|actions| - 1].Collect? then |actions|
    else RefreshedAt(actions[..|actions| - 1])
  }

  /** The same for the last refresh that had a connection. */
  function ConnectedAt(actions: seq<Action>): (n: nat)
    ensures n <= |actions| && (n > 0 ==> actions[n - 1].Collect? && !actions[n - 1].answer.NotConnected?)
  {
    if actions == [] then 0
    else if actions[|actions| - 1].Collect? && !actions[|actions| - 1].answer.NotConnected? then |actions|
    else ConnectedAt(actions[..|actions| - 1])
  }

  /** What that refresh delivered. */
  function DeliveredBy(actions: seq<Action>, n: nat): seq<Stats>
    requires n <= |actions| && (n > 0 ==> actions[n - 1].Collect?)
  {
    if n > 0 && actions[n - 1].answer.Delivered? then actions[n - 1].answer.stats else []
  }

  lemma {:induction false} LatestIsConnected(actions: seq<Action>, pct: Percents)
    ensures Run(actions, pct).latest == DeliveredBy(actions, ConnectedAt(actions))
  {
    if actions != [] {
      var p, a := actions[..|actions| - 1], actions[|actions| - 1];
      LatestIsConnected(p, pct);
      assert Run(actions, pct).latest == Latest(Run(p, pct).latest, a);
      if !Connects(a) {
        var n := ConnectedAt(p);
        assert ConnectedAt(actions) == n && (n > 0 ==> actions[n - 1] == p[n - 1]);
      }
    }
  }

  lemma {:induction false} ConnectedIsLatestIff(actions: seq<Action>)
    ensures ConnectedAt(actions) > 0 ==>
              (ConnectedAt(actions) == RefreshedAt(actions) <==> !LastRefresh(actions).NotConnected?)
  {
    if actions != [] {
      ConnectedIsLatestIff(actions[..|actions| - 1]);
    }
  }

  lemma NothingIsReported(domid: i32, actual: u64)
    ensures !Reported([], domid, actual)
  {
  }

  /** What the mark on an entry means: its record was added before the last connected refresh. */
  lemma {:induction false} SeenSince(actions: seq<Action>, pct: Percents, i: nat, k: nat)
    requires k < |Run(actions, pct).entries|
    requires AddedAt(HistoryOf(actions, pct), actions, i, Run(actions, pct).entries[k].vm.domid)
    ensures Run(actions, pct).entries[k].seen <==> ConnectedAt(actions) > i + 1
  {
    var k0 := LastSection(actions, pct, i, k);
    if i < |actions| - 1 {
      SeenSince(actions[..|actions| - 1], pct, i, k0);
    }
  }

  /** A balloon size in a record is one the last connected refresh delivered for a listed record. */
  lemma SizesAreReported(actions: seq<Action>, pct: Percents, k: nat)
    requires k < |Run(actions, pct).entries| && Run(actions, pct).entries[k].vm.memstat.actualBalloon != 0
    ensures var e, n := Run(actions, pct).entries[k], ConnectedAt(actions);
            && e.seen && n > 0 && actions[n - 1].answer.Delivered?
            && Reported(actions[n - 1].answer.stats, e.vm.domid, e.vm.memstat.actualBalloon)
  {
    RunIsOk(actions, pct);
    var e := Run(actions, pct).entries[k];
    assert EntryOk(e, Run(actions, pct).latest);
    LatestIsConnected(actions, pct);
    NothingIsReported(e.vm.domid, e.vm.memstat.actualBalloon);
  }

  /** In every run a decision section sends requests only to records that were listed at the last
      connected refresh, having been added before it, and for which that very refresh delivered a
      non-zero balloon size: not to records added since, not to domains it left out, and not at all
      when it failed. It is the latest refresh exactly when that one had a connection. */
  lemma DecisionsUseFreshData(actions: seq<Action>, pct: Percents, oracle: Oracle, first: nat, j: nat)
      returns (k: nat, i: nat)
    ensures var es, n := Run(actions, pct).entries, ConnectedAt(actions);
            var requests := DecisionPhase(VmsOf(es), pct, oracle, first).requests;
            j < |requests| ==>
              && k < |es| && es[k].vm.domid == requests[j].domid
              && AddedAt(HistoryOf(actions, pct), actions, i, requests[j].domid) && i + 1 < n
              && actions[n - 1].answer.Delivered? && es[k].vm.memstat.actualBalloon != 0
              && Reported(actions[n - 1].answer.stats, es[k].vm.domid, es[k].vm.memstat.actualBalloon)
              && (n == RefreshedAt(actions) <==> !LastRefresh(actions).NotConnected?)
  {
    k, i := 0, 0;
    if j < |DecisionPhase(VmsOf(Run(actions, pct).entries), pct, oracle, first).requests| {
      k := PhaseRequestHasARecord(VmsOf(Run(actions, pct).entries), pct, oracle, first, j);
      i := WasAdded(actions, pct, k);
      SeenSince(actions, pct, i, k);
      SizesAreReported(actions, pct, k);
      ConnectedIsLatestIff(actions);
    }
  }

  lemma LastOfFour(ps: seq<Param>, f: Field)
    requires |ps| == 4
    ensures LastIn(ps, 4, f) ==
            if ps[3].field == f then Some(ps[3])
            else if ps[2].field == f then Some(ps[2])
            else if ps[1].field == f then Some(ps[1])
            else if ps[0].field == f then Some(ps[0])
            else None
  {
    assert LastIn(ps, 1, f) == if ps[0].field == f then Some(ps[0]) else None;
    assert LastIn(ps, 3, f) == if ps[2].field == f then Some(ps[2]) else LastIn(ps, 2, f);
  }

  /** A guest of 2 GiB found at 1 GiB. */
  function SqueezedStats(domid: i32): Stats {
    Stats(domid, [Param(BalloonCurrent, 0, 1048576), Param(BalloonMaximum, 0, 2097152),
                  Param(BalloonAvailable, 0, 1000), Param(BalloonUsable, 0, 900)])
  }

  lemma SqueezedNews(v: Vm)
    requires v.memstat == NoStat
    ensures var w := RefreshOne(v, Delivered([SqueezedStats(v.domid)]));
            && w.memory == 2097152 && w.currentMem == 1048576 && w.memstat == MemStat(1048576, 1000, 0, 900, 0)
            && !w.enableFpr && w.lockall == v.lockall && ControlOf(w) == ControlOf(v) && w.domid == v.domid
  {
    var ss := [SqueezedStats(v.domid)];
    var ps := ss[0].params;
    forall f ensures LastOf(ss, 1, v.domid, f) == LastIn(ps, 4, f) {
      assert LastOf(ss, 0, v.domid, f) == None;
    }
    LastOfFour(ps, BalloonCurrent);
    LastOfFour(ps, BalloonMaximum);
    LastOfFour(ps, BalloonAvailable);
    LastOfFour(ps, BalloonUsable);
    LastOfFour(ps, BalloonUnused);
    LastOfFour(ps, BalloonRss);
  }

  lemma SqueezedIsAskedBack(v: Vm, pct: Percents, answer: bool)
    requires v.memory == 2097152 && v.currentMem == 1048576 && v.memstat == MemStat(1048576, 1000, 0, 900, 0)
    requires !v.enableFpr && !v.lockall && ControlOf(v) == Start
    ensures Requests(v.domid, Decide(v, pct, answer).events) != []
  {
    var w := RecordPressure(Detect(v).vm).vm;
    OnlyMainStepRequests(v, w, pct, answer);
    var e := MainStep(w, pct, answer).events;
    assert e == [GiveBack(GiveBackTarget(w.memory), w.memory, answer)];
    RequestsOfFew(v.domid, e);
  }

  /** Without a connection the refresh leaves the old statistics in place, and the decision
      section acts on them. */
  lemma LostConnectionLeavesStaleData(pct: Percents, oracle: Oracle, first: nat) returns (actions: seq<Action>)
    ensures LastRefresh(actions) == NotConnected
    ensures DecisionPhase(VmsOf(Run(actions, pct).entries), pct, oracle, first).requests != []
  {
    var probe := Probe(true, true, Some("vm"), 0, Some(Info(0, 0, 0)));
    var v := WithInfo(NewVm(7).(domname := "vm"), Info(0, 0, 0));
    var e := Entry(v, [], true, 0, false);
    var told := Collect(Delivered([SqueezedStats(7)]));
    RunOneMore([], Add(7, probe), pct);
    var added := [] + [Add(7, probe)];
    assert Run(added, pct).entries == [e];
    RunOneMore(added, told, pct);
    RunOneMore(added + [told], Collect(NotConnected), pct);
    actions := added + [told] + [Collect(NotConnected)];
    var w := RefreshOne(v, told.answer);
    SqueezedNews(v);
    var vms := VmsOf(Run(actions, pct).entries);
    assert vms == [w];
    PassFusion(vms, pct, oracle, first);
    SqueezedIsAskedBack(w, pct, first in oracle);
    OneRecordRequests(w, pct, oracle, first);
  }

  lemma OneRecordRequests(v: Vm, pct: Percents, oracle: Oracle, first: nat)
    ensures Requests(v.domid, Decide(v, pct, first in oracle).events) != [] ==>
              Each(Decider(pct), [v], Answers(Decider(pct), [v], oracle, first)).requests != []
  {
  }
}
