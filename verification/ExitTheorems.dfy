/** What the exit section does for the guests of a run: the last request accepted for a domain is
    looked for in the whole run, not only in the history of the record that is listed now. */
module ExitTheorems {
  import opened Machine
  import opened Vm
  import opened Balloon
  import opened Automaton
  import opened TraceTheorems
  import opened Passes
  import opened ListSpec
  import opened Daemon
  import opened DaemonTheorems
  import opened Lineage
  import E = ExitSection

  // ---------- The last accepted request of a domain ----------

  /** The requests of a section that are for a domain. */
  function ForDomain(requests: seq<Request>, domid: i32): seq<Request> {
    if requests == [] then []
    else (if requests[0].domid == domid then [requests[0]] else []) + ForDomain(requests[1..], domid)
  }

  /** How many sections were over when the last accepted request for a domain had been made; zero
      if there was none. */
  function AcceptedAt(actions: seq<Action>, pct: Percents, domid: i32): (n: nat)
    ensures n <= |actions|
  {
    if actions == [] then 0
    else
      var p, a := actions[..|actions| - 1], actions[|actions| - 1];
      if LastAccepted(EventsOf(Run(p, pct).entries, a, pct, domid)) != [] then |actions|
      else AcceptedAt(p, pct, domid)
  }

  /** That request. */
  function AcceptedLast(actions: seq<Action>, pct: Percents, domid: i32): Trace {
    LastAccepted(EventsFrom(actions, pct, domid, 0))
  }

  lemma {:induction false} ForDomainConcat(a: seq<Request>, b: seq<Request>, domid: i32)
    ensures ForDomain(a + b, domid) == ForDomain(a, domid) + ForDomain(b, domid)
  {
    if a == [] {
      assert a + b == b;
    } else {
      ForDomainConcat(a[1..], b, domid);
      assert (a + b)[1..] == a[1..] + b;
    }
  }

  /** All requests are for a domain. */
  predicate Own(requests: seq<Request>, domid: i32) {
    forall i | 0 <= i < |requests| :: requests[i].domid == domid
  }

  lemma {:induction false} ForItself(requests: seq<Request>, d: i32, domid: i32)
    requires Own(requests, d)
    ensures ForDomain(requests, domid) == if d == domid then requests else []
  {
    if requests != [] {
      ForItself(requests[1..], d, domid);
      assert requests == [requests[0]] + requests[1..];
    }
  }

  lemma {:induction false} RequestsAreOf(domid: i32, t: Trace)
    ensures Own(Requests(domid, t), domid)
  {
    if t != [] {
      RequestsAreOf(domid, t[..|t| - 1]);
    }
  }

  lemma {:induction false} EachForDomain(f: Step, vms: seq<Vm>, answers: seq<bool>, domid: i32)
    requires |answers| == |vms| && DistinctDomids(vms)
    requires forall i | 0 <= i < |vms| :: Own(f(vms[i], answers[i]).requests, vms[i].domid)
    ensures ForDomain(Each(f, vms, answers).requests, domid)
         == var k := FirstDomid(vms, domid);
            if k < |vms| then f(vms[k], answers[k]).requests else []
  {
    if vms != [] {
      var r, rest := f(vms[0], answers[0]).requests, Each(f, vms[1..], answers[1..]).requests;
      forall i | 0 <= i < |vms| - 1 ensures Own(f(vms[1..][i], answers[1..][i]).requests, vms[1..][i].domid) {
        assert Own(f(vms[i + 1], answers[i + 1]).requests, vms[i + 1].domid);
      }
      EachForDomain(f, vms[1..], answers[1..], domid);
      ForDomainConcat(r, rest, domid);
      assert Own(r, vms[0].domid);
      ForItself(r, vms[0].domid, domid);
      FirstDomidOfRest(vms, domid);
      var k := FirstDomid(vms[1..], domid);
      if vms[0].domid == domid {
        assert ForDomain(rest, domid) == [] && r + [] == r;
      } else {
        assert ForDomain(r, domid) == [] && [] + ForDomain(rest, domid) == ForDomain(rest, domid);
        assert k < |vms| - 1 ==> vms[1..][k] == vms[k + 1] && answers[1..][k] == answers[k + 1];
      }
    }
  }

  lemma {:induction false} FirstDomidOfRest(vms: seq<Vm>, domid: i32)
    requires vms != [] && DistinctDomids(vms)
    ensures FirstDomid(vms, domid) == if vms[0].domid == domid then 0 else 1 + FirstDomid(vms[1..], domid)
    ensures vms[0].domid == domid ==> FirstDomid(vms[1..], domid) == |vms| - 1
  {
    assert forall j | 0 <= j < |vms| - 1 :: vms[1..][j].domid != vms[0].domid;
  }

  /** The requests a decision section makes for a domain are those among the events of its record. */
  lemma {:induction false} SectionRequests(es: seq<Entry>, pct: Percents, oracle: Oracle, first: nat, domid: i32)
    requires DistinctDomids(VmsOf(es))
    ensures ForDomain(DecisionPhase(VmsOf(es), pct, oracle, first).requests, domid)
         == Requests(domid, EventsOf(es, Decision(oracle, first), pct, domid))
  {
    var vms, answers := VmsOf(es), AnswersFor(es, pct, oracle, first);
    PassFusion(vms, pct, oracle, first);
    EachDecisionForDomain(vms, answers, pct, domid);
    EventsOfDecision(es, pct, oracle, first, domid);
  }

  lemma {:induction false} EventsOfDecision(es: seq<Entry>, pct: Percents, oracle: Oracle, first: nat, domid: i32)
    ensures var vms, answers := VmsOf(es), AnswersFor(es, pct, oracle, first);
            var k := FirstDomid(vms, domid);
            EventsOf(es, Decision(oracle, first), pct, domid)
            == if k < |vms| then Decide(vms[k], pct, answers[k]).events else []
  {
  }

  lemma {:induction false} EachDecisionForDomain(vms: seq<Vm>, answers: seq<bool>, pct: Percents, domid: i32)
    requires |answers| == |vms| && DistinctDomids(vms)
    ensures var k := FirstDomid(vms, domid);
            ForDomain(Each(Decider(pct), vms, answers).requests, domid)
            == if k < |vms| then Requests(domid, Decide(vms[k], pct, answers[k]).events) else []
  {
    forall i | 0 <= i < |vms| ensures Own(Decider(pct)(vms[i], answers[i]).requests, vms[i].domid) {
      RequestsAreOf(vms[i].domid, Decide(vms[i], pct, answers[i]).events);
    }
    EachForDomain(Decider(pct), vms, answers, domid);
  }

  /** Seen from the `i`-th section on, the last accepted request is the same if it came later, and
      there is none if it came before. */
  lemma {:induction false} AcceptedFrom(actions: seq<Action>, pct: Percents, domid: i32, i: nat)
    requires i <= |actions|
    ensures LastAccepted(EventsFrom(actions, pct, domid, i))
         == if AcceptedAt(actions, pct, domid) > i then AcceptedLast(actions, pct, domid) else []
  {
    if i < |actions| {
      var p, a := actions[..|actions| - 1], actions[|actions| - 1];
      AcceptedFrom(p, pct, domid, i);
      var now := EventsOf(Run(p, pct).entries, a, pct, domid);
      LastAcceptedConcat(EventsFrom(p, pct, domid, i), now);
      LastAcceptedConcat(EventsFrom(p, pct, domid, 0), now);
    }
  }

  // ---------- The exit section ----------

  /** Without an accepted request a record is ballooning exactly if it was found squeezed. */
  lemma {:induction false} SqueezedIsBallooning(t: Trace)
    requires Legal(t) && LastAccepted(t) == []
    ensures Replay(t).ballooning <==> Squeezed in t
    ensures !Replay(t).down && (Replay(t).ballooning ==> Replay(t).incomplete)
  {
    if t != [] {
      SqueezedIsBallooning(t[..|t| - 1]);
      assert t == t[..|t| - 1] + [t[|t| - 1]];
    }
  }

  /** A guest whose last accepted request in the whole run is an inflate is asked back at exit exactly
      when its record was listed then, and has been since, or has been found squeezed: until it
      agrees, ten times at most. Otherwise it is left alone. */
  lemma ExitAsksBackIff(actions: seq<Action>, pct: Percents, i: nat, k: nat, r: seq<Request>)
    requires k < |Run(actions, pct).entries| && E.BackRequests(Run(actions, pct).entries[k].vm, r)
    requires AddedAt(HistoryOf(actions, pct), actions, i, Run(actions, pct).entries[k].vm.domid)
    ensures var e := Run(actions, pct).entries[k];
            var last := AcceptedLast(actions, pct, e.vm.domid);
            last != [] && last[0].Inflate? ==>
              if i < AcceptedAt(actions, pct, e.vm.domid) || Squeezed in e.trace
              then E.TriedUntilAccepted(r, e.vm.domid, BackBase(e.vm.memory))
              else r == []
  {
    RunIsOk(actions, pct);
    var e := Run(actions, pct).entries[k];
    assert EntryOk(e, Run(actions, pct).latest);
    TraceSince(actions, pct, i, k);
    AcceptedFrom(actions, pct, e.vm.domid, i);
    DownIffInflateIsLast(e.trace);
    if LastAccepted(e.trace) == [] { SqueezedIsBallooning(e.trace); }
  }

  /** A guest that is not ballooning is left alone, and every one that is, is asked back. */
  lemma ExitAsksBallooningGuests(actions: seq<Action>, pct: Percents, k: nat, r: seq<Request>)
    requires k < |Run(actions, pct).entries| && E.BackRequests(Run(actions, pct).entries[k].vm, r)
    ensures var e := Run(actions, pct).entries[k];
            && (r != [] <==> e.vm.ballooning)
            && (e.vm.ballooning <==> Replay(e.trace).ballooning)
            && (LastAccepted(e.trace) != [] && LastAccepted(e.trace)[0].Inflate? ==>
                  E.TriedUntilAccepted(r, e.vm.domid, BackBase(e.vm.memory)))
  {
    EveryHistoryIsSafe(actions, pct, k);
    RunIsOk(actions, pct);
    assert EntryOk(Run(actions, pct).entries[k], Run(actions, pct).latest);
  }
}
