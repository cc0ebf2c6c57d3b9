/** Episodes in a run of the whole daemon: whatever the sections of all threads do to the list in
    between, the record of a guest that cooperates goes through them as it does on its own. */
module Episodes {
  import opened Machine
  import opened Vm
  import opened Balloon
  import opened Automaton
  import opened PollTheorems
  import opened RefreshSpec
  import opened Daemon
  import opened DaemonTheorems
  import opened Lineage
  import T = Termination
  import X = TraceTheorems

  function EntryOf(es: seq<Entry>, domid: i32): Entry
    requires Listed(es, domid)
  {
    es[ByDomid(es, domid)]
  }

  function RecordOf(actions: seq<Action>, pct: Percents, domid: i32): Vm
    requires Listed(Run(actions, pct).entries, domid)
  {
    EntryOf(Run(actions, pct).entries, domid).vm
  }

  /** What the decision sections among `more` find for a domain, and answer it. */
  function Ticks(actions: seq<Action>, more: seq<Action>, pct: Percents, domid: i32): seq<T.Tick>
    decreases |more|
  {
    if more == [] then [] else
      var es, a := Run(actions, pct).entries, more[0];
      (if a.Decision? && Listed(es, domid)
       then [T.Tick(RecordOf(actions, pct, domid).memstat, AnswerTo(es, a, pct, domid))] else [])
      + Ticks(actions + [a], more[1..], pct, domid)
  }

  /** A record as the last decision section left it. */
  function Left(v: Vm, last: MemStat, memory: i64): Vm {
    v.(memstat := last, memory := memory, enableFpr := false)
  }

  /** What the model of a single guest says about the statistics of a record. */
  predicate Fresh(v: Vm, memory: i64) {
    v.memory == memory && v.currentMem == ToI64(v.memstat.actualBalloon) && !v.enableFpr
  }

  /** The guest is back with the whole memory offered or, in the narrower sense, believed back. */
  predicate Over(c: T.Cycle, narrow: bool) { if narrow then T.Idling(c) else T.Restored(c) }

  /** Until it is over, the domain is listed in every section among `more`, and in the decision
      sections its record is fresh and the guest cooperates. The last decision section before has
      seen the statistics `last`. */
  predicate Cooperates(actions: seq<Action>, more: seq<Action>, pct: Percents, domid: i32,
                       memory: i64, last: MemStat, goal: int, narrow: bool)
    decreases |more|
  {
    var es := Run(actions, pct).entries;
    Listed(es, domid) &&
    var v := RecordOf(actions, pct, domid);
    var c := T.Cycle(Left(v, last, memory), goal);
    more == [] || Over(c, narrow) ||
    if more[0].Decision? then
      && Fresh(v, memory) && T.Cooperative(c, v.memstat)
      && Cooperates(actions + [more[0]], more[1..], pct, domid, memory, v.memstat,
                    T.NewGoal(goal, EventsOf(es, more[0], pct, domid)), narrow)
    else
      Cooperates(actions + [more[0]], more[1..], pct, domid, memory, last, goal, narrow)
  }

  /** At the end of the episode the guest is believed back although only the first step was accepted. */
  predicate EndsEarly(actions: seq<Action>, more: seq<Action>, pct: Percents, domid: i32,
                      memory: i64, last: MemStat, goal: int)
    decreases |more|
  {
    var es := Run(actions, pct).entries;
    more != [] && Listed(es, domid) &&
    var v := RecordOf(actions, pct, domid);
    var c := T.Cycle(Left(v, last, memory), goal);
    !T.Idling(c) &&
    if more[0].Decision? then
      T.EarlyNow(c, v.memstat)
      || EndsEarly(actions + [more[0]], more[1..], pct, domid, memory, v.memstat,
                   T.NewGoal(goal, EventsOf(es, more[0], pct, domid)))
    else
      EndsEarly(actions + [more[0]], more[1..], pct, domid, memory, last, goal)
  }

  // ---------- One section ----------

  lemma {:induction false} RecordContinues(actions: seq<Action>, a: Action, pct: Percents, domid: i32)
    requires Listed(Run(actions, pct).entries, domid) && Listed(Run(actions + [a], pct).entries, domid)
    ensures Continues(Run(actions, pct).entries, a, pct, EntryOf(Run(actions, pct).entries, domid),
                      EntryOf(Run(actions + [a], pct).entries, domid))
  {
    var es := Run(actions, pct).entries;
    RunOneMore(actions, a, pct);
    RunIsOk(actions, pct);
    var k := Origin(es, a, pct, ByDomid(Entries(es, a, pct), domid));
    if k < |es| { FirstDomidAt(VmsOf(es), k); }
  }

  lemma {:induction false} DecisionKeepsListed(actions: seq<Action>, a: Action, pct: Percents, domid: i32)
    requires a.Decision? && Listed(Run(actions, pct).entries, domid)
    ensures Listed(Run(actions + [a], pct).entries, domid)
  {
    var es := Run(actions, pct).entries;
    RunOneMore(actions, a, pct);
    DecideKeepsDomids(es, a.oracle, a.first, pct);
    var k := ByDomid(es, domid);
    assert Entries(es, a, pct)[k].vm.domid == domid;
  }

  /** Two records in the same place of an episode. */
  predicate Alike(v: Vm, w: Vm) {
    SameControl(v, w) && w.memory == v.memory && w.memstat == v.memstat && w.enableFpr == v.enableFpr
  }

  lemma AlikeLives(v: Vm, w: Vm, goal: int, ticks: seq<T.Tick>)
    requires Alike(v, w) && T.Live(T.Cycle(v, goal))
    ensures T.Live(T.Cycle(w, goal)) && PhaseOf(w) == PhaseOf(v)
    ensures T.LongEnough(T.Cycle(v, goal), ticks) ==> T.LongEnough(T.Cycle(w, goal), ticks)
  {
    var c, d := T.Cycle(v, goal), T.Cycle(w, goal);
    assert T.Bound(d) == T.Bound(c) && T.Setback(d) == T.Setback(c);
  }

  lemma {:induction false} OtherSectionIsNoTick(actions: seq<Action>, more: seq<Action>, pct: Percents, domid: i32)
    requires more != [] && !more[0].Decision?
    ensures Ticks(actions, more, pct, domid) == Ticks(actions + [more[0]], more[1..], pct, domid)
  {
  }

  /** Other sections leave the record where it is. */
  lemma {:induction false} OtherSection(actions: seq<Action>, a: Action, pct: Percents, domid: i32,
                                        memory: i64, last: MemStat, goal: int)
    requires !a.Decision? && Listed(Run(actions, pct).entries, domid) && Listed(Run(actions + [a], pct).entries, domid)
    requires T.GoalOf(EntryOf(Run(actions, pct).entries, domid).trace, goal)
    ensures var v, w := RecordOf(actions, pct, domid), RecordOf(actions + [a], pct, domid);
            && Alike(Left(v, last, memory), Left(w, last, memory))
            && T.GoalOf(EntryOf(Run(actions + [a], pct).entries, domid).trace, goal)
  {
    RecordContinues(actions, a, pct, domid);
  }

  /** A decision section is a poll of the guest. */
  lemma {:induction false} DecisionIsPoll(actions: seq<Action>, a: Action, pct: Percents, domid: i32,
                                          memory: i64, last: MemStat, goal: int)
    requires a.Decision? && Listed(Run(actions, pct).entries, domid) && Fresh(RecordOf(actions, pct, domid), memory)
    requires T.GoalOf(EntryOf(Run(actions, pct).entries, domid).trace, goal)
    ensures Listed(Run(actions + [a], pct).entries, domid)
    ensures var es, v := Run(actions, pct).entries, RecordOf(actions, pct, domid);
            var w := RecordOf(actions + [a], pct, domid);
            var next := T.NewGoal(goal, EventsOf(es, a, pct, domid));
            && T.Poll(T.Cycle(Left(v, last, memory), goal), T.Tick(v.memstat, AnswerTo(es, a, pct, domid)), pct)
               == T.Cycle(w, next)
            && w == Left(w, v.memstat, memory)
            && T.GoalOf(EntryOf(Run(actions + [a], pct).entries, domid).trace, next)
  {
    DecisionKeepsListed(actions, a, pct, domid);
    RecordContinues(actions, a, pct, domid);
    var es, v := Run(actions, pct).entries, RecordOf(actions, pct, domid);
    assert T.Refreshed(Left(v, last, memory), v.memstat) == v;
    DecideKeeps(v, pct, AnswerTo(es, a, pct, domid));
    T.GoalGrows(EntryOf(es, domid).trace, goal, EventsOf(es, a, pct, domid));
  }

  // ---------- Whole runs ----------

  /** The record is idle, and the last request accepted since it was added is for `goal`. */
  predicate IdleWith(actions: seq<Action>, pct: Percents, domid: i32, memory: i64, goal: int) {
    var es := Run(actions, pct).entries;
    && Listed(es, domid)
    && PhaseOf(EntryOf(es, domid).vm).Idle? && EntryOf(es, domid).vm.memory == memory
    && T.GoalOf(EntryOf(es, domid).trace, goal)
  }

  lemma FirstSection(actions: seq<Action>, more: seq<Action>)
    requires more != []
    ensures actions + more[..1] == actions + [more[0]]
  {
  }

  lemma SectionsShift(actions: seq<Action>, more: seq<Action>, n: nat)
    requires n < |more|
    ensures actions + more[..n + 1] == actions + [more[0]] + more[1..][..n]
  {
  }

  /** In the middle of an episode of a record, or between an end that came too early and the next
      beginning, with enough decision sections to come. */
  predicate UnderWay(actions: seq<Action>, more: seq<Action>, pct: Percents, domid: i32,
                     memory: i64, last: MemStat, goal: int)
    requires Listed(Run(actions, pct).entries, domid)
  {
    var c := T.Cycle(Left(RecordOf(actions, pct, domid), last, memory), goal);
    && T.GoalOf(EntryOf(Run(actions, pct).entries, domid).trace, goal)
    && T.Live(c) && T.LongEnough(c, Ticks(actions, more, pct, domid))
  }

  lemma {:induction false} OtherSectionPasses(actions: seq<Action>, more: seq<Action>, pct: Percents, domid: i32,
                                              memory: i64, last: MemStat, goal: int)
    requires more != [] && !more[0].Decision?
    requires Listed(Run(actions, pct).entries, domid) && Listed(Run(actions + [more[0]], pct).entries, domid)
    requires UnderWay(actions, more, pct, domid, memory, last, goal)
    ensures UnderWay(actions + [more[0]], more[1..], pct, domid, memory, last, goal)
    ensures PhaseOf(RecordOf(actions + [more[0]], pct, domid)) == PhaseOf(RecordOf(actions, pct, domid))
  {
    var v, w := RecordOf(actions, pct, domid), RecordOf(actions + [more[0]], pct, domid);
    OtherSection(actions, more[0], pct, domid, memory, last, goal);
    OtherSectionIsNoTick(actions, more, pct, domid);
    AlikeLives(Left(v, last, memory), Left(w, last, memory), goal, Ticks(actions, more, pct, domid));
  }

  /** After a decision section the episode is over, or goes on. */
  lemma {:induction false} DecisionAdvances(actions: seq<Action>, more: seq<Action>, pct: Percents, domid: i32,
                                            memory: i64, last: MemStat, goal: int) returns (stat: MemStat, next: int)
    requires more != [] && more[0].Decision? && Listed(Run(actions, pct).entries, domid)
    requires UnderWay(actions, more, pct, domid, memory, last, goal)
    requires var v := RecordOf(actions, pct, domid);
             Fresh(v, memory) && T.Cooperative(T.Cycle(Left(v, last, memory), goal), v.memstat)
    ensures stat == RecordOf(actions, pct, domid).memstat
    ensures next == T.NewGoal(goal, EventsOf(Run(actions, pct).entries, more[0], pct, domid))
    ensures Listed(Run(actions + [more[0]], pct).entries, domid)
    ensures var v, w := RecordOf(actions, pct, domid), RecordOf(actions + [more[0]], pct, domid);
            && w.memory == memory && T.GoalOf(EntryOf(Run(actions + [more[0]], pct).entries, domid).trace, next)
            && (!(PhaseOf(w).Idle? && next == memory) ==>
                  UnderWay(actions + [more[0]], more[1..], pct, domid, memory, stat, next))
  {
    var es, a, v := Run(actions, pct).entries, more[0], RecordOf(actions, pct, domid);
    var c, t := T.Cycle(Left(v, last, memory), goal), T.Tick(v.memstat, AnswerTo(es, a, pct, domid));
    stat, next := v.memstat, T.NewGoal(goal, EventsOf(es, a, pct, domid));
    var ticks := Ticks(actions, more, pct, domid);
    assert ticks == [t] + Ticks(actions + [a], more[1..], pct, domid);
    assert ticks[1..] == Ticks(actions + [a], more[1..], pct, domid);
    DecisionIsPoll(actions, a, pct, domid, memory, last, goal);
    T.PollAdvances(c, t, pct);
    var d := T.Poll(c, t, pct);
    if !T.Restored(d) {
      T.StillLongEnough(c, ticks, d);
    }
  }

  lemma {:induction false} SectionsRemain(actions: seq<Action>, more: seq<Action>, pct: Percents, domid: i32,
                                          memory: i64, last: MemStat, goal: int)
    requires Listed(Run(actions, pct).entries, domid) && UnderWay(actions, more, pct, domid, memory, last, goal)
    ensures more != []
  {
    var c := T.Cycle(Left(RecordOf(actions, pct, domid), last, memory), goal);
    T.BoundIsPositive(c, Ticks(actions, more, pct, domid));
  }

  /** One section: it is over, or goes on with other statistics and another goal. */
  lemma {:induction false} GoesOn(actions: seq<Action>, more: seq<Action>, pct: Percents, domid: i32,
                                  memory: i64, last: MemStat, goal: int) returns (over: bool, stat: MemStat, next: int)
    requires Cooperates(actions, more, pct, domid, memory, last, goal, false)
    requires UnderWay(actions, more, pct, domid, memory, last, goal)
    ensures more != []
    ensures over ==> IdleWith(actions + [more[0]], pct, domid, memory, memory)
    ensures !over ==>
              && Cooperates(actions + [more[0]], more[1..], pct, domid, memory, stat, next, false)
              && UnderWay(actions + [more[0]], more[1..], pct, domid, memory, stat, next)
  {
    SectionsRemain(actions, more, pct, domid, memory, last, goal);
    if !more[0].Decision? {
      over, stat, next := false, last, goal;
      OtherSectionPasses(actions, more, pct, domid, memory, last, goal);
    } else {
      stat, next := DecisionAdvances(actions, more, pct, domid, memory, last, goal);
      over := PhaseOf(RecordOf(actions + [more[0]], pct, domid)).Idle? && next == memory;
    }
  }

  /** In every run of the daemon: a guest that was inflated, and cooperates, is in the end idle again
      with the whole memory as the last accepted request, through early ends and refusals, whatever
      the other sections do to the list in between. */
  lemma {:induction false} GuestSettles(actions: seq<Action>, more: seq<Action>, pct: Percents, domid: i32,
                                        memory: i64, last: MemStat, goal: int) returns (n: nat, end: seq<Action>)
    requires Cooperates(actions, more, pct, domid, memory, last, goal, false)
    requires UnderWay(actions, more, pct, domid, memory, last, goal)
    ensures n <= |more| && end == actions + more[..n] && IdleWith(end, pct, domid, memory, memory)
    decreases |more|
  {
    var over, stat, next := GoesOn(actions, more, pct, domid, memory, last, goal);
    if over {
      n, end := 1, actions + [more[0]];
      FirstSection(actions, more);
    } else {
      n, end := GuestSettles(actions + [more[0]], more[1..], pct, domid, memory, stat, next);
      SectionsShift(actions, more, n);
      n := n + 1;
    }
  }

  /** What the last accepted request is for when an episode is over. */
  function LastGoal(memory: i64, early: bool): int { if early then memory - BACK_RESERVED_KB else memory }

  lemma {:induction false} DecisionEnds(actions: seq<Action>, a: Action, pct: Percents, domid: i32,
                                        memory: i64, last: MemStat, goal: int)
    requires a.Decision? && Listed(Run(actions, pct).entries, domid)
    requires T.GoalOf(EntryOf(Run(actions, pct).entries, domid).trace, goal)
    requires var v := RecordOf(actions, pct, domid);
             var c := T.Cycle(Left(v, last, memory), goal);
             T.Busy(c) && Fresh(v, memory) && T.Cooperative(c, v.memstat)
    ensures Listed(Run(actions + [a], pct).entries, domid)
    ensures var v, w := RecordOf(actions, pct, domid), RecordOf(actions + [a], pct, domid);
            var early := T.EarlyNow(T.Cycle(Left(v, last, memory), goal), v.memstat);
            && (early ==> PhaseOf(w).Idle?)
            && (PhaseOf(w).Idle? ==>
                  T.NewGoal(goal, EventsOf(Run(actions, pct).entries, a, pct, domid)) == LastGoal(memory, early))
  {
    var v := RecordOf(actions, pct, domid);
    var t := T.Tick(v.memstat, AnswerTo(Run(actions, pct).entries, a, pct, domid));
    var c := T.Cycle(Left(v, last, memory), goal);
    DecisionIsPoll(actions, a, pct, domid, memory, last, goal);
    T.PollAdvances(c, t, pct);
    T.IdlingAfter(c, t, pct);
  }

  predicate Busy(actions: seq<Action>, pct: Percents, domid: i32) {
    Listed(Run(actions, pct).entries, domid) && !PhaseOf(RecordOf(actions, pct, domid)).Idle?
  }

  /** One section of an episode: it ends, or goes on. */
  lemma {:induction false} EpisodeGoesOn(actions: seq<Action>, more: seq<Action>, pct: Percents, domid: i32,
                                         memory: i64, last: MemStat, goal: int, offered: int)
      returns (over: bool, stat: MemStat, next: int)
    requires Cooperates(actions, more, pct, domid, memory, last, goal, true) && Busy(actions, pct, domid)
    requires UnderWay(actions, more, pct, domid, memory, last, goal)
    requires offered == LastGoal(memory, EndsEarly(actions, more, pct, domid, memory, last, goal))
    ensures more != []
    ensures over ==> IdleWith(actions + [more[0]], pct, domid, memory, offered)
    ensures !over ==>
              && Cooperates(actions + [more[0]], more[1..], pct, domid, memory, stat, next, true)
              && Busy(actions + [more[0]], pct, domid)
              && UnderWay(actions + [more[0]], more[1..], pct, domid, memory, stat, next)
              && offered == LastGoal(memory, EndsEarly(actions + [more[0]], more[1..], pct, domid, memory, stat, next))
  {
    SectionsRemain(actions, more, pct, domid, memory, last, goal);
    if !more[0].Decision? {
      over, stat, next := false, last, goal;
      OtherSectionPasses(actions, more, pct, domid, memory, last, goal);
    } else {
      stat, next := DecisionAdvances(actions, more, pct, domid, memory, last, goal);
      DecisionEnds(actions, more[0], pct, domid, memory, last, goal);
      over := PhaseOf(RecordOf(actions + [more[0]], pct, domid)).Idle?;
      if over {
        NoLongerEarly(actions + [more[0]], more[1..], pct, domid, memory, stat, next);
      }
    }
  }

  lemma {:induction false} NoLongerEarly(actions: seq<Action>, more: seq<Action>, pct: Percents, domid: i32,
                                         memory: i64, last: MemStat, goal: int)
    requires Listed(Run(actions, pct).entries, domid) && PhaseOf(RecordOf(actions, pct, domid)).Idle?
    ensures !EndsEarly(actions, more, pct, domid, memory, last, goal)
  {
  }

  lemma {:induction false} EndsWith(actions: seq<Action>, more: seq<Action>, pct: Percents, domid: i32,
                                    memory: i64, last: MemStat, goal: int, offered: int)
      returns (n: nat, end: seq<Action>)
    requires Cooperates(actions, more, pct, domid, memory, last, goal, true) && Busy(actions, pct, domid)
    requires UnderWay(actions, more, pct, domid, memory, last, goal)
    requires offered == LastGoal(memory, EndsEarly(actions, more, pct, domid, memory, last, goal))
    ensures n <= |more| && end == actions + more[..n] && IdleWith(end, pct, domid, memory, offered)
    decreases |more|
  {
    var over, stat, next := EpisodeGoesOn(actions, more, pct, domid, memory, last, goal, offered);
    if over {
      n, end := 1, actions + [more[0]];
      FirstSection(actions, more);
    } else {
      n, end := EndsWith(actions + [more[0]], more[1..], pct, domid, memory, stat, next, offered);
      SectionsShift(actions, more, n);
      n := n + 1;
    }
  }

  /** In every run of the daemon: the episode of a guest that cooperates ends, and the last accepted
      request is for the whole memory exactly if it does not end early, and for 2 MiB less if it
      does. */
  lemma GuestEnds(actions: seq<Action>, more: seq<Action>, pct: Percents, domid: i32,
                  memory: i64, last: MemStat, goal: int) returns (n: nat, end: seq<Action>)
    requires Cooperates(actions, more, pct, domid, memory, last, goal, true)
    requires UnderWay(actions, more, pct, domid, memory, last, goal) && Busy(actions, pct, domid)
    ensures n <= |more| && end == actions + more[..n]
    ensures IdleWith(end, pct, domid, memory,
                     LastGoal(memory, EndsEarly(actions, more, pct, domid, memory, last, goal)))
  {
    var offered := LastGoal(memory, EndsEarly(actions, more, pct, domid, memory, last, goal));
    n, end := EndsWith(actions, more, pct, domid, memory, last, goal, offered);
  }

  lemma InflateEndsPoll(v: Vm, pct: Percents, answer: bool)
    requires !v.ballooning && !v.ballooningDown && !v.incompleteBalloon
    requires PhaseOf(Decide(v, pct, answer).vm).Inflating?
    ensures var t := Decide(v, pct, answer).events;
            answer && t != [] && t[|t| - 1] == Inflate(TargetOf(v, pct), v.currentMem, v.memory, true)
  {
  }

  lemma {:induction false} InflateIsGoal(t: Trace, v: Vm, pct: Percents, answer: bool)
    requires Explains(t, v) && PhaseOf(v).Idle? && PhaseOf(Decide(v, pct, answer).vm).Inflating?
    ensures answer && T.GoalOf(t + Decide(v, pct, answer).events, TargetOf(v, pct))
  {
    X.EpisodeSafety(t);
    InflateEndsPoll(v, pct, answer);
    X.LastAcceptedConcat(t, Decide(v, pct, answer).events);
  }

  lemma {:induction false} RecordIsExplained(actions: seq<Action>, pct: Percents, domid: i32)
    requires Listed(Run(actions, pct).entries, domid)
    ensures Explains(EntryOf(Run(actions, pct).entries, domid).trace, RecordOf(actions, pct, domid))
  {
    RunIsOk(actions, pct);
    assert EntryOk(EntryOf(Run(actions, pct).entries, domid), Run(actions, pct).latest);
  }

  /** A decision section in which a guest is inflated begins such an episode. */
  lemma {:induction false} EpisodeStarts(actions: seq<Action>, a: Action, pct: Percents, domid: i32)
    requires a.Decision? && pct.Loadable() && Listed(Run(actions, pct).entries, domid)
    requires var v := RecordOf(actions, pct, domid);
             PhaseOf(v).Idle? && !v.lockall && !v.enableFpr && BACK_RESERVED_KB <= v.memory
             && 0 < v.memstat.actualBalloon <= v.memory
    requires var es := Run(actions, pct).entries;
             PhaseOf(Decide(RecordOf(actions, pct, domid), pct, AnswerTo(es, a, pct, domid)).vm).Inflating?
    ensures Listed(Run(actions + [a], pct).entries, domid)
    ensures var v, w := RecordOf(actions, pct, domid), RecordOf(actions + [a], pct, domid);
            && T.Busy(T.Cycle(Left(w, v.memstat, v.memory), TargetOf(v, pct)))
            && T.GoalOf(EntryOf(Run(actions + [a], pct).entries, domid).trace, TargetOf(v, pct))
  {
    var es, v := Run(actions, pct).entries, RecordOf(actions, pct, domid);
    var t, answer := EntryOf(es, domid).trace, AnswerTo(es, a, pct, domid);
    DecisionKeepsListed(actions, a, pct, domid);
    RecordContinues(actions, a, pct, domid);
    RecordIsExplained(actions, pct, domid);
    DecideKeeps(v, pct, answer);
    InflateIsGoal(t, v, pct, answer);
    T.InflateStartsEpisode(t, v, pct);
  }
}
