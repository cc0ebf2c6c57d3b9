/** Runs of the daemon with a guest that cooperates: the theorems about episodes are about something. */
module Guests {
  import opened Machine
  import opened Vm
  import opened Balloon
  import opened PollTheorems
  import opened RefreshSpec
  import opened Daemon
  import opened Lineage
  import opened Episodes
  import opened Reachability
  import D = DaemonTheorems
  import T = Termination

  /** The list with one record. */
  predicate Only(actions: seq<Action>, pct: Percents, e: Entry) {
    Run(actions, pct).entries == [e] && e.vm.domid == DOMID
  }

  lemma OnlyIsListed(actions: seq<Action>, pct: Percents, e: Entry)
    requires Only(actions, pct, e)
    ensures Listed(Run(actions, pct).entries, DOMID) && EntryOf(Run(actions, pct).entries, DOMID) == e
  {
  }

  lemma {:induction false} CollectOfOne(actions: seq<Action>, pct: Percents, e: Entry, current: u64)
    requires Only(actions, pct, e)
    ensures var w := Informed(e.vm, current, FULL);
            Only(actions + [Collect(Delivered([Facts(current, FULL)]))], pct, e.(vm := w, seen := true))
  {
    FactsInform(e.vm, current, FULL);
    RunOneMore(actions, Collect(Delivered([Facts(current, FULL)])), pct);
  }

  lemma {:induction false} AnswerOfOne(actions: seq<Action>, pct: Percents, e: Entry, answer: bool)
    requires Only(actions, pct, e)
    ensures var es, a := Run(actions, pct).entries, Decision(First(answer), 0);
            && AnswerTo(es, a, pct, DOMID) == answer
            && EventsOf(es, a, pct, DOMID) == Decide(e.vm, pct, answer).events
  {
    OnlyIsListed(actions, pct, e);
    assert VmsOf([e]) == [e.vm];
    assert (0 in First(answer)) == answer;
  }

  // ---------- One turn of the balloon thread ----------

  /** The first section of a turn is a refresh and changes nothing about the episode. */
  lemma {:induction false} RefreshCooperates(actions: seq<Action>, more: seq<Action>, pct: Percents, e: Entry,
                                             current: u64, goal: int)
    requires Only(actions, pct, e) && more != [] && more[0] == Collect(Delivered([Facts(current, FULL)]))
    requires Cooperates(actions + [more[0]], more[1..], pct, DOMID, FULL, e.vm.memstat, goal, false)
    ensures Cooperates(actions, more, pct, DOMID, FULL, e.vm.memstat, goal, false)
  {
    OnlyIsListed(actions, pct, e);
  }

  /** The second section is a poll. */
  lemma {:induction false} DecisionCooperates(actions: seq<Action>, more: seq<Action>, pct: Percents, e: Entry,
                                              last: MemStat, goal: int, answer: bool, next: int)
    requires Only(actions, pct, e) && more != [] && more[0] == Decision(First(answer), 0)
    requires Fresh(e.vm, FULL) && next == T.NewGoal(goal, Decide(e.vm, pct, answer).events)
    requires var c := T.Cycle(Left(e.vm, last, FULL), goal);
             T.Restored(c)
             || (T.Cooperative(c, e.vm.memstat)
                 && Cooperates(actions + [more[0]], more[1..], pct, DOMID, FULL, e.vm.memstat, next, false))
    ensures Cooperates(actions, more, pct, DOMID, FULL, last, goal, false)
  {
    OnlyIsListed(actions, pct, e);
    AnswerOfOne(actions, pct, e, answer);
  }

  lemma {:induction false} TurnSections(actions: seq<Action>, rest: seq<Action>, t: T.Tick)
    ensures var turn := TurnFor(t);
            && turn + rest == [turn[0]] + ([turn[1]] + rest)
            && actions + [turn[0]] + [turn[1]] == actions + turn
  {
  }

  lemma {:induction false} TurnIsTick(actions: seq<Action>, rest: seq<Action>, pct: Percents, e: Entry, t: T.Tick)
    requires Only(actions, pct, e) && t.stat == T.StatOf(t.stat.actualBalloon)
    ensures Ticks(actions, TurnFor(t) + rest, pct, DOMID) == [t] + Ticks(actions + TurnFor(t), rest, pct, DOMID)
  {
    var turn, w := TurnFor(t), Informed(e.vm, t.stat.actualBalloon, FULL);
    var mid, last := actions + [turn[0]], [turn[1]] + rest;
    TurnSections(actions, rest, t);
    OtherSectionIsNoTick(actions, turn + rest, pct, DOMID);
    assert (turn + rest)[1..] == last && last[1..] == rest;
    CollectOfOne(actions, pct, e, t.stat.actualBalloon);
    OnlyIsListed(mid, pct, e.(vm := w, seen := true));
    AnswerOfOne(mid, pct, e.(vm := w, seen := true), t.answer);
  }

  lemma {:induction false} TurnCooperates(actions: seq<Action>, rest: seq<Action>, pct: Percents, e: Entry,
                                          goal: int, t: T.Tick)
    requires Only(actions, pct, e) && Shows(e, goal) && t.stat == T.StatOf(t.stat.actualBalloon)
    requires var c := T.Cycle(e.vm, goal);
             T.Restored(c)
             || (T.Cooperative(c, t.stat)
                 && Cooperates(actions + TurnFor(t), rest, pct, DOMID, FULL, t.stat, T.Poll(c, t, pct).goal, false))
    ensures Cooperates(actions, TurnFor(t) + rest, pct, DOMID, FULL, e.vm.memstat, goal, false)
  {
    var turn, w := TurnFor(t), Informed(e.vm, t.stat.actualBalloon, FULL);
    var f, mid, last := e.(vm := w, seen := true), actions + [turn[0]], [turn[1]] + rest;
    TurnSections(actions, rest, t);
    assert (turn + rest)[1..] == last && last[1..] == rest;
    CollectOfOne(actions, pct, e, t.stat.actualBalloon);
    assert w == T.Refreshed(e.vm, t.stat) by { InRangeUnchanged(FULL); }
    DecisionCooperates(mid, last, pct, f, e.vm.memstat, goal, t.answer, T.Poll(T.Cycle(e.vm, goal), t, pct).goal);
    RefreshCooperates(actions, turn + rest, pct, e, t.stat.actualBalloon, goal);
  }

  // ---------- Many turns ----------

  predicate Plainly(ticks: seq<T.Tick>) {
    forall i | 0 <= i < |ticks| :: ticks[i].stat == T.StatOf(ticks[i].stat.actualBalloon)
  }

  lemma {:induction false} NextTurn(actions: seq<Action>, pct: Percents, e: Entry, goal: int, ticks: seq<T.Tick>)
      returns (f: Entry)
    requires Only(actions, pct, e) && Shows(e, goal) && ticks != [] && Plainly(ticks)
    ensures var c := T.Poll(T.Cycle(e.vm, goal), ticks[0], pct);
            && Only(actions + TurnFor(ticks[0]), pct, f) && Shows(f, c.goal)
            && f.vm == c.vm && f.vm.memstat == ticks[0].stat
    ensures Plainly(ticks[1..]) && Turns(ticks) == TurnFor(ticks[0]) + Turns(ticks[1..])
  {
    f := OneTurn(actions, pct, e, goal, ticks[0]);
    D.DecideKeeps(T.Refreshed(e.vm, ticks[0].stat), pct, ticks[0].answer);
  }

  lemma {:induction false} TurnsAreTicks(actions: seq<Action>, pct: Percents, e: Entry, goal: int, ticks: seq<T.Tick>)
    requires Only(actions, pct, e) && Shows(e, goal) && Plainly(ticks)
    ensures Ticks(actions, Turns(ticks), pct, DOMID) == ticks
    decreases |ticks|
  {
    if ticks != [] {
      var f := NextTurn(actions, pct, e, goal, ticks);
      TurnIsTick(actions, Turns(ticks[1..]), pct, e, ticks[0]);
      TurnsAreTicks(actions + TurnFor(ticks[0]), pct, f, T.Poll(T.Cycle(e.vm, goal), ticks[0], pct).goal, ticks[1..]);
    }
  }

  lemma {:induction false} TurnsCooperate(actions: seq<Action>, pct: Percents, e: Entry, goal: int, ticks: seq<T.Tick>)
    requires Only(actions, pct, e) && Shows(e, goal) && Plainly(ticks)
    requires T.CooperativeOn(T.Cycle(e.vm, goal), ticks, pct)
    ensures Cooperates(actions, Turns(ticks), pct, DOMID, FULL, e.vm.memstat, goal, false)
    decreases |ticks|
  {
    if ticks == [] {
      OnlyIsListed(actions, pct, e);
    } else {
      var f := NextTurn(actions, pct, e, goal, ticks);
      if !T.Restored(T.Cycle(e.vm, goal)) {
        var next := T.Poll(T.Cycle(e.vm, goal), ticks[0], pct).goal;
        TurnsCooperate(actions + TurnFor(ticks[0]), pct, f, next, ticks[1..]);
      }
      TurnCooperates(actions, Turns(ticks[1..]), pct, e, goal, ticks[0]);
    }
  }

  /** There is a run in which a guest is inflated and then cooperates for any number of turns, with
      any answers; with enough of them the theorems apply to it. */
  lemma EpisodesHappen(pct: Percents, answers: seq<bool>) returns (actions: seq<Action>, more: seq<Action>, goal: int)
    requires pct.Loadable()
    ensures Listed(Run(actions, pct).entries, DOMID) && PhaseOf(RecordOf(actions, pct, DOMID)).Inflating?
    ensures Cooperates(actions, more, pct, DOMID, FULL, RecordOf(actions, pct, DOMID).memstat, goal, false)
    ensures var v, ticks := RecordOf(actions, pct, DOMID), Ticks(actions, more, pct, DOMID);
            && |ticks| == |answers| && (forall i | 0 <= i < |ticks| :: ticks[i].answer == answers[i])
            && (T.LongEnough(T.Cycle(v, goal), ticks) ==> UnderWay(actions, more, pct, DOMID, FULL, v.memstat, goal))
  {
    var e, t, v;
    actions, e, t, v := EpisodeBegins(pct);
    goal := e.vm.balloonTarget;
    OnlyIsListed(actions, pct, e);
    T.InflateStartsEpisode(t, v, pct);
    var ticks := T.CooperativeRunsExist(T.Cycle(e.vm, goal), answers, pct);
    more := Turns(ticks);
    TurnsAreTicks(actions, pct, e, goal, ticks);
    TurnsCooperate(actions, pct, e, goal, ticks);
  }
}
