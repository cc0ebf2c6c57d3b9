/** The passes of the balloon thread over the whole list, and their fusion into one decision
    for each record. */
module Passes {
  import opened Vm
  import opened Balloon
  import opened PollTheorems
  import opened ListSpec

  /** The numbers of the requests the hypervisor accepts. */
  type Oracle = iset<nat>

  /** A record after a step, and the requests the step made. */
  datatype Share = Share(vm: Vm, requests: seq<Request>)

  /** A step of one record that makes use of one answer. */
  type Step = (Vm, bool) -> Share

  datatype Pass = Pass(vms: seq<Vm>, requests: seq<Request>)

  /** The main loop from the `i`-th record on: requests take the answers in turn. */
  function MainFrom(vms: seq<Vm>, pct: Percents, oracle: Oracle, n: nat, i: nat): Pass
    requires i <= |vms|
    decreases |vms| - i
  {
    if i == |vms| then Pass([], []) else
      var o := MainStep(vms[i], pct, n in oracle);
      var r := Requests(vms[i].domid, o.events);
      var rest := MainFrom(vms, pct, oracle, n + |r|, i + 1);
      Pass([o.vm] + rest.vms, r + rest.requests)
  }

  function MainLoop(vms: seq<Vm>, pct: Percents, oracle: Oracle, n: nat): Pass {
    MainFrom(vms, pct, oracle, n, 0)
  }

  /** A loop over the list with an arbitrary step. */
  function Loop(f: Step, vms: seq<Vm>, oracle: Oracle, n: nat): Pass {
    if vms == [] then Pass([], []) else
      var s := f(vms[0], n in oracle);
      var rest := Loop(f, vms[1..], oracle, n + |s.requests|);
      Pass([s.vm] + rest.vms, s.requests + rest.requests)
  }

  /** The answer each record would get if it made a request. */
  function Answers(f: Step, vms: seq<Vm>, oracle: Oracle, n: nat): (r: seq<bool>)
    ensures |r| == |vms|
  {
    if vms == [] then [] else
      [n in oracle] + Answers(f, vms[1..], oracle, n + |f(vms[0], n in oracle).requests|)
  }

  /** One step for each record on its own. */
  function Each(f: Step, vms: seq<Vm>, answers: seq<bool>): (r: Pass)
    requires |answers| == |vms|
    ensures |r.vms| == |vms|
    ensures forall i | 0 <= i < |vms| :: r.vms[i] == f(vms[i], answers[i]).vm
  {
    if vms == [] then Pass([], []) else
      var s := f(vms[0], answers[0]);
      var rest := Each(f, vms[1..], answers[1..]);
      Pass([s.vm] + rest.vms, s.requests + rest.requests)
  }

  function MainStepper(pct: Percents): Step {
    (v: Vm, answer: bool) =>
      var o := MainStep(v, pct, answer);
      Share(o.vm, Requests(v.domid, o.events))
  }

  function Decider(pct: Percents): Step {
    (v: Vm, answer: bool) =>
      var o := Decide(v, pct, answer);
      Share(o.vm, Requests(v.domid, o.events))
  }

  function Detected(v: Vm): Vm { Detect(v).vm }

  function Pressed(v: Vm): Vm { RecordPressure(v).vm }

  function DetectAll(vms: seq<Vm>): seq<Vm> { MapAll(Detected, vms) }

  function PressureAll(vms: seq<Vm>): seq<Vm> { MapAll(Pressed, vms) }

  /** The main loop has passed the first `k` records: they are `done`, it sent `sent`, and the
      next request has the number `m`. */
  predicate MainProgress(vms: seq<Vm>, pct: Percents, oracle: Oracle, n: nat,
                         done: seq<Vm>, sent: seq<Request>, k: nat, m: nat)
  {
    && |done| == k <= |vms|
    && var rest := MainFrom(vms, pct, oracle, m, k);
       Pass(done + rest.vms, sent + rest.requests) == MainLoop(vms, pct, oracle, n)
  }

  /** One more record of the main loop. */
  lemma MainLoopStep(vms: seq<Vm>, pct: Percents, oracle: Oracle, n: nat,
                     done: seq<Vm>, sent: seq<Request>, k: nat, m: nat)
      returns (done': seq<Vm>, sent': seq<Request>, m': nat)
    requires k < |vms| && MainProgress(vms, pct, oracle, n, done, sent, k, m)
    ensures var o := MainStep(vms[k], pct, m in oracle);
            var r := Requests(vms[k].domid, o.events);
            && done' == done + [o.vm] && sent' == sent + r && m' == m + |r|
            && MainProgress(vms, pct, oracle, n, done', sent', k + 1, m')
  {
    var o := MainStep(vms[k], pct, m in oracle);
    var r := Requests(vms[k].domid, o.events);
    var later := MainFrom(vms, pct, oracle, m + |r|, k + 1);
    done', sent', m' := done + [o.vm], sent + r, m + |r|;
    Associative(done, [o.vm], later.vms);
    Associative(sent, r, later.requests);
    MainFromStep(vms, pct, oracle, m, k, Share(o.vm, r), later);
  }

  lemma MainLoopDone(vms: seq<Vm>, pct: Percents, oracle: Oracle, n: nat,
                     done: seq<Vm>, sent: seq<Request>, k: nat, m: nat)
    requires k == |vms| && MainProgress(vms, pct, oracle, n, done, sent, k, m)
    ensures Pass(done, sent) == MainLoop(vms, pct, oracle, n)
  {
    assert done + [] == done && sent + [] == sent;
  }

  /** All passes one after the other, as the balloon thread runs them. */
  function DecisionPhase(vms: seq<Vm>, pct: Percents, oracle: Oracle, n: nat): Pass {
    MainLoop(PressureAll(DetectAll(vms)), pct, oracle, n)
  }

  /** Whatever the answer, `f` does to `w` what `g` does to `v`. */
  predicate SameStep(f: Step, w: Vm, g: Step, v: Vm) {
    f(w, true) == g(v, true) && f(w, false) == g(v, false)
  }

  /** A loop whose step is fused with a preparation of its records is one step for each. */
  lemma {:induction false} LoopIsEach(f: Step, prepared: seq<Vm>, g: Step, vms: seq<Vm>, oracle: Oracle, n: nat)
    requires |prepared| == |vms|
    requires forall i | 0 <= i < |vms| :: SameStep(f, prepared[i], g, vms[i])
    ensures Loop(f, prepared, oracle, n) == Each(g, vms, Answers(g, vms, oracle, n))
  {
    if vms != [] {
      assert SameStep(f, prepared[0], g, vms[0]);
      var answer := n in oracle;
      var s := if answer then g(vms[0], true) else g(vms[0], false);
      assert s == f(prepared[0], answer) == g(vms[0], answer);
      var m := n + |g(vms[0], n in oracle).requests|;
      forall i | 0 <= i < |vms| - 1
        ensures SameStep(f, prepared[1..][i], g, vms[1..][i])
      {
        assert SameStep(f, prepared[i + 1], g, vms[i + 1]);
      }
      LoopIsEach(f, prepared[1..], g, vms[1..], oracle, m);
      assert Answers(g, vms, oracle, n)[1..] == Answers(g, vms[1..], oracle, m);
    }
  }

  lemma FusedStep(v: Vm, pct: Percents)
    ensures SameStep(MainStepper(pct), RecordPressure(Detect(v).vm).vm, Decider(pct), v)
  {
    var w := RecordPressure(Detect(v).vm).vm;
    FirstPassesKeep(v);
    OnlyMainStepRequests(v, w, pct, true);
    OnlyMainStepRequests(v, w, pct, false);
  }

  lemma LoopStep(f: Step, vms: seq<Vm>, oracle: Oracle, n: nat, s: Share, later: Pass)
    requires vms != [] && s == f(vms[0], n in oracle) && later == Loop(f, vms[1..], oracle, n + |s.requests|)
    ensures Loop(f, vms, oracle, n) == Pass([s.vm] + later.vms, s.requests + later.requests)
  {
  }

  lemma MainFromStep(vms: seq<Vm>, pct: Percents, oracle: Oracle, n: nat, i: nat, s: Share, later: Pass)
    requires i < |vms| && s == MainStepper(pct)(vms[i], n in oracle)
    requires later == MainFrom(vms, pct, oracle, n + |s.requests|, i + 1)
    ensures MainFrom(vms, pct, oracle, n, i) == Pass([s.vm] + later.vms, s.requests + later.requests)
  {
  }

  lemma {:induction false} MainLoopIsLoop(vms: seq<Vm>, rest: seq<Vm>, pct: Percents, f: Step,
                                          oracle: Oracle, n: nat, i: nat)
    requires i <= |vms| && rest == vms[i..] && f == MainStepper(pct)
    ensures MainFrom(vms, pct, oracle, n, i) == Loop(f, rest, oracle, n)
    decreases |rest|
  {
    if rest != [] {
      var s := f(rest[0], n in oracle);
      var later := Loop(f, rest[1..], oracle, n + |s.requests|);
      MainLoopIsLoop(vms, rest[1..], pct, f, oracle, n + |s.requests|, i + 1);
      LoopStep(f, rest, oracle, n, s, later);
      MainFromStep(vms, pct, oracle, n, i, s, later);
    }
  }

  lemma PreparedAt(vms: seq<Vm>, i: nat)
    requires i < |vms|
    ensures |PressureAll(DetectAll(vms))| == |vms|
    ensures PressureAll(DetectAll(vms))[i] == RecordPressure(Detect(vms[i]).vm).vm
  {
  }

  /** Pass fusion: running the passes one after the other over the list is deciding each record
      on its own, with the requests in list order. */
  lemma PassFusion(vms: seq<Vm>, pct: Percents, oracle: Oracle, n: nat)
    ensures DecisionPhase(vms, pct, oracle, n)
         == Each(Decider(pct), vms, Answers(Decider(pct), vms, oracle, n))
  {
    var prepared := PressureAll(DetectAll(vms));
    forall i | 0 <= i < |vms|
      ensures SameStep(MainStepper(pct), prepared[i], Decider(pct), vms[i])
    {
      PreparedAt(vms, i);
      FusedStep(vms[i], pct);
    }
    FusedLoop(prepared, vms, pct, oracle, n);
  }

  lemma FusedLoop(prepared: seq<Vm>, vms: seq<Vm>, pct: Percents, oracle: Oracle, n: nat)
    requires |prepared| == |vms|
    requires forall i | 0 <= i < |vms| :: SameStep(MainStepper(pct), prepared[i], Decider(pct), vms[i])
    ensures MainLoop(prepared, pct, oracle, n) == Each(Decider(pct), vms, Answers(Decider(pct), vms, oracle, n))
  {
    LoopIsEach(MainStepper(pct), prepared, Decider(pct), vms, oracle, n);
    MainLoopIsLoop(prepared, prepared, pct, MainStepper(pct), oracle, n, 0);
  }

  /** The requests are for records of the list, in list order, at most one for each. */
  predicate InListOrder(requests: seq<Request>, vms: seq<Vm>) {
    || requests == []
    || (vms != []
        && (InListOrder(requests, vms[1..])
            || (requests[0].domid == vms[0].domid && InListOrder(requests[1..], vms[1..]))))
  }

  lemma {:induction false} EachInListOrder(vms: seq<Vm>, pct: Percents, answers: seq<bool>)
    requires |answers| == |vms|
    ensures InListOrder(Each(Decider(pct), vms, answers).requests, vms)
  {
    if vms != [] {
      EachInListOrder(vms[1..], pct, answers[1..]);
      PollRequests(vms[0], pct, answers[0]);
      var first, rest := Requests(vms[0].domid, Decide(vms[0], pct, answers[0]).events),
                         Each(Decider(pct), vms[1..], answers[1..]).requests;
      if first == [] {
        assert first + rest == rest;
      } else {
        assert (first + rest)[1..] == rest;
      }
    }
  }

  /** Whatever the answers, the requests of one decision phase go to records in list order, at
      most one to each. */
  lemma PhaseInListOrder(vms: seq<Vm>, pct: Percents, oracle: Oracle, n: nat)
    ensures InListOrder(DecisionPhase(vms, pct, oracle, n).requests, vms)
  {
    PassFusion(vms, pct, oracle, n);
    EachInListOrder(vms, pct, Answers(Decider(pct), vms, oracle, n));
  }

  lemma {:induction false} EachRequestHasARecord(f: Step, vms: seq<Vm>, answers: seq<bool>, j: nat)
      returns (k: nat)
    requires |answers| == |vms| && j < |Each(f, vms, answers).requests|
    ensures k < |vms| && Each(f, vms, answers).requests[j] in f(vms[k], answers[k]).requests
  {
    var first := f(vms[0], answers[0]).requests;
    if j < |first| {
      k := 0;
    } else {
      var l := EachRequestHasARecord(f, vms[1..], answers[1..], j - |first|);
      k := l + 1;
    }
  }

  lemma DeciderIsModest(v: Vm, pct: Percents, answer: bool, r: Request)
    requires r in Decider(pct)(v, answer).requests
    ensures v.domid == r.domid && v.memstat.actualBalloon != 0 && !v.lockall && !v.enableFpr
  {
    PollRequests(v, pct, answer);
    assert Decider(pct)(v, answer).requests == Requests(v.domid, Decide(v, pct, answer).events);
  }

  /** Every request of a decision phase is made on behalf of a record with a current size, and
      one that may be ballooned. */
  lemma PhaseRequestHasARecord(vms: seq<Vm>, pct: Percents, oracle: Oracle, n: nat, j: nat)
      returns (k: nat)
    requires j < |DecisionPhase(vms, pct, oracle, n).requests|
    ensures k < |vms| && vms[k].domid == DecisionPhase(vms, pct, oracle, n).requests[j].domid
    ensures vms[k].memstat.actualBalloon != 0 && !vms[k].lockall && !vms[k].enableFpr
  {
    PassFusion(vms, pct, oracle, n);
    var answers := Answers(Decider(pct), vms, oracle, n);
    k := EachRequestHasARecord(Decider(pct), vms, answers, j);
    DeciderIsModest(vms[k], pct, answers[k], Each(Decider(pct), vms, answers).requests[j]);
  }
}
