/** What holds of every legal trace, hence of every record in every run: the order of an
    episode, the hysteresis before it and the speed test inside it. */
module TraceTheorems {
  import opened Machine
  import opened Vm
  import opened Balloon
  import opened Automaton

  // ---------- Episodes ----------

  /** Events after which the daemon knows that a guest has less than its memory. */
  predicate Squeezes(e: Event) { e.Squeezed? || e.Inflated() }

  /** The first step back was accepted. */
  predicate FirstStep(e: Event) {
    e.GaveBack() && -TWO63 <= e.memory < TWO63 && e.target == GiveBackTarget(e.memory)
  }

  /** A check found the guest back at its memory. */
  predicate FoundWhole(e: Event) {
    e.Done? && SubU(e.memory, e.actual) < LOW_WATER_MARK
  }

  /** After event `i` the memory was asked back and the request accepted. */
  ghost predicate GivenBack(t: Trace, i: nat) {
    exists k :: i < k < |t| && FirstStep(t[k])
  }

  /** Between events `i` and `j` the memory was asked back, and later found returned. */
  ghost predicate Returned(t: Trace, i: nat, j: int)
    requires j <= |t|
  {
    exists k, l :: i < k < l < j && FirstStep(t[k]) && FoundWhole(t[l])
  }

  /** No guest that was inflated, or found squeezed, is even asked to inflate before it has been
      given its memory back. */
  ghost predicate EpisodesInOrder(t: Trace) {
    forall i, j | 0 <= i < j < |t| && Squeezes(t[i]) && (t[j].Inflate? || t[j].Squeezed?) :: Returned(t, i, j)
  }

  ghost predicate EpisodeState(t: Trace) {
    var c := Replay(t);
    && (c.down || c.incomplete ==> c.ballooning)
    && (forall i | 0 <= i < |t| && Squeezes(t[i]) :: c.down || c.incomplete || GivenBack(t, i))
    && (!c.ballooning ==> forall i | 0 <= i < |t| && Squeezes(t[i]) :: Returned(t, i, |t|))
  }

  lemma GivenBackGrows(t: Trace, e: Event, i: nat)
    ensures GivenBack(t, i) ==> GivenBack(t + [e], i)
    ensures i < |t| && FirstStep(e) ==> GivenBack(t + [e], i)
  {
    if GivenBack(t, i) {
      var k :| i < k < |t| && FirstStep(t[k]);
      assert FirstStep((t + [e])[k]);
    }
    if i < |t| && FirstStep(e) {
      assert FirstStep((t + [e])[|t|]);
    }
  }

  lemma ReturnedGrows(t: Trace, e: Event, i: nat, j: int)
    requires j <= |t|
    ensures Returned(t, i, j) ==> Returned(t + [e], i, j) && Returned(t + [e], i, |t| + 1) && GivenBack(t + [e], i)
    ensures GivenBack(t, i) && FoundWhole(e) ==> Returned(t + [e], i, |t| + 1)
  {
    var u := t + [e];
    if Returned(t, i, j) {
      var k, l :| i < k < l < j && FirstStep(t[k]) && FoundWhole(t[l]);
      assert FirstStep(u[k]) && FoundWhole(u[l]);
    }
    if GivenBack(t, i) && FoundWhole(e) {
      var k :| i < k < |t| && FirstStep(t[k]);
      assert FirstStep(u[k]) && FoundWhole(u[|t|]);
    }
  }

  lemma EpisodeStep(t: Trace, e: Event)
    requires EpisodesInOrder(t) && EpisodeState(t) && Allowed(t, e)
    ensures EpisodesInOrder(t + [e]) && EpisodeState(t + [e])
  {
    var u := t + [e];
    Push(t, e);
    forall i | 0 <= i < |t| && Squeezes(t[i])
      ensures Replay(u).down || Replay(u).incomplete || GivenBack(u, i)
      ensures !Replay(u).ballooning ==> Returned(u, i, |u|)
    {
      GivenBackGrows(t, e, i);
      ReturnedGrows(t, e, i, |t|);
    }
    forall i, j | 0 <= i < j < |u| && Squeezes(u[i]) && (u[j].Inflate? || u[j].Squeezed?)
      ensures Returned(u, i, j)
    {
      assert Squeezes(t[i]);
      ReturnedGrows(t, e, i, j);
    }
  }

  /** Episode safety: after an accepted inflate, and after a guest was found squeezed, the next
      inflate is not even requested before the first step back was accepted and, later, a check
      found the guest within 1 MiB of its memory. */
  lemma {:induction false} EpisodeSafety(t: Trace)
    requires Legal(t)
    ensures EpisodesInOrder(t) && EpisodeState(t)
  {
    if t != [] {
      var p, e := t[..|t| - 1], t[|t| - 1];
      EpisodeSafety(p);
      EpisodeStep(p, e);
      assert t == p + [e];
    }
  }

  /** The last request the hypervisor accepted, if any. */
  function LastAccepted(t: Trace): (r: Trace)
    ensures |r| <= 1
    ensures forall e :: e in r ==> e.Accepted() && e in t
    ensures r != [] ==> r[0].Accepted()
  {
    if t == [] then []
    else if t[|t| - 1].Accepted() then [t[|t| - 1]]
    else LastAccepted(t[..|t| - 1])
  }

  lemma {:induction false} LastAcceptedConcat(t: Trace, u: Trace)
    ensures LastAccepted(t + u) == if LastAccepted(u) != [] then LastAccepted(u) else LastAccepted(t)
  {
    if u == [] {
      assert t + u == t;
    } else {
      var v := u[..|u| - 1];
      LastAcceptedConcat(t, v);
      assert (t + u)[..|t + u| - 1] == t + v;
    }
  }

  /** Nothing stays squeezed unnoticed: a record knows that it is deflated exactly while an
      inflate is the last request its hypervisor accepted. */
  lemma {:induction false} DownIffInflateIsLast(t: Trace)
    requires Legal(t)
    ensures Replay(t).down <==> LastAccepted(t) != [] && LastAccepted(t)[0].Inflate?
    ensures Replay(t).down ==> Replay(t).ballooning
  {
    if t != [] {
      DownIffInflateIsLast(t[..|t| - 1]);
    }
  }

  // ---------- Hysteresis ----------

  /** Polls of a stretch of trace that saw the usage below the lower limit. */
  function LowPolls(t: Trace): nat {
    if t == [] then 0
    else LowPolls(t[..|t| - 1]) + if t[|t| - 1] == Looked(Below) then 1 else 0
  }

  /** Event `i` is the last arming event before `j` (`-1` stands for the creation of the
      record), and no inflate was attempted in between. */
  ghost predicate ArmedAt(t: Trace, i: int, j: int)
    requires j <= |t|
  {
    && -1 <= i < j
    && (i >= 0 ==> t[i].Arms())
    && (forall k | i < k < j :: !t[k].Arms() && !t[k].Inflate? && !t[k].NoTarget?)
  }

  /** The counter is one plus the low polls since the record was last armed, and zero when an
      inflate was attempted since. */
  ghost predicate CounterMeaning(t: Trace) {
    var flag := Replay(t).flag;
    && 0 <= flag <= NEED_BALLOON_CHECK_TIMES
    && (flag > 0 ==> exists i :: ArmedAt(t, i, |t|))
    && (forall i | ArmedAt(t, i, |t|) :: flag == 1 + LowPolls(t[i + 1..]))
  }

  lemma ArmedGrows(t: Trace, e: Event, i: int)
    ensures i < |t| ==> (ArmedAt(t + [e], i, |t| + 1) <==>
                           ArmedAt(t, i, |t|) && !e.Arms() && !e.Inflate? && !e.NoTarget?)
    ensures e.Arms() ==> ArmedAt(t + [e], |t|, |t| + 1)
  {
    var u := t + [e];
    assert u[|t|] == e && forall k | 0 <= k < |t| :: u[k] == t[k];
  }

  lemma LowPollsGrow(t: Trace, e: Event, i: int)
    requires -1 <= i < |t|
    ensures LowPolls((t + [e])[i + 1..]) == LowPolls(t[i + 1..]) + if e == Looked(Below) then 1 else 0
  {
    var s := t[i + 1..];
    assert (t + [e])[i + 1..] == s + [e];
    assert (s + [e])[..|s|] == s;
  }

  /** A counter that runs without having been armed just now was running before. */
  lemma FlagWasPositive(t: Trace, e: Event)
    requires Allowed(t, e) && Replay(t + [e]).flag > 0 && !e.Arms()
    ensures Replay(t).flag > 0 && !e.Inflate? && !e.NoTarget?
  {
    Push(t, e);
  }

  lemma ArmedStep(t: Trace, e: Event) returns (i: int)
    requires CounterMeaning(t) && Allowed(t, e) && Replay(t + [e]).flag > 0
    ensures ArmedAt(t + [e], i, |t| + 1)
  {
    if e.Arms() {
      i := |t|;
    } else {
      FlagWasPositive(t, e);
      i :| ArmedAt(t, i, |t|);
    }
    ArmedGrows(t, e, i);
  }

  /** How the counter moves when an event does not arm the record. */
  lemma FlagStep(t: Trace, e: Event)
    requires Allowed(t, e) && !e.Arms() && !e.Inflate? && !e.NoTarget? && Replay(t).flag > 0
    ensures Replay(t + [e]).flag == Replay(t).flag + if e == Looked(Below) then 1 else 0
  {
    Push(t, e);
  }

  lemma {:induction false} CountStep(t: Trace, e: Event, i: int)
    requires CounterMeaning(t) && Allowed(t, e) && -1 <= i < |t| && ArmedAt(t, i, |t|)
    requires !e.Arms() && !e.Inflate? && !e.NoTarget?
    ensures Replay(t + [e]).flag == 1 + LowPolls((t + [e])[i + 1..])
  {
    LowPollsGrow(t, e, i);
    FlagStep(t, e);
  }

  lemma CounterStep(t: Trace, e: Event)
    requires CounterMeaning(t) && Allowed(t, e)
    ensures CounterMeaning(t + [e])
  {
    var u := t + [e];
    Push(t, e);
    if Replay(u).flag > 0 {
      var i := ArmedStep(t, e);
    }
    forall i | ArmedAt(u, i, |u|)
      ensures Replay(u).flag == 1 + LowPolls(u[i + 1..])
    {
      ArmedGrows(t, e, i);
      if i == |t| {
        assert u[|t|] == e && u[i + 1..] == [];
      } else {
        CountStep(t, e, i);
      }
    }
  }

  lemma {:induction false} CounterCountsLowPolls(t: Trace)
    requires Legal(t)
    ensures CounterMeaning(t)
  {
    if t == [] {
      assert ArmedAt(t, -1, 0);
    } else {
      var p, e := t[..|t| - 1], t[|t| - 1];
      CounterCountsLowPolls(p);
      CounterStep(p, e);
      assert t == p + [e];
    }
  }

  lemma {:induction false} LegalPrefix(t: Trace, n: nat)
    requires Legal(t) && n <= |t|
    ensures Legal(t[..n])
    ensures n < |t| ==> Allowed(t[..n], t[n])
    decreases |t| - n
  {
    if n == |t| {
      assert t[..n] == t;
    } else {
      LegalPrefix(t, n + 1);
      assert t[..n + 1][..n] == t[..n];
    }
  }

  lemma FullCounterWitness(p: Trace) returns (i: int)
    requires Legal(p) && Replay(p).flag >= NEED_BALLOON_CHECK_TIMES
    ensures ArmedAt(p, i, |p|) && LowPolls(p[i + 1..]) == 19
  {
    CounterCountsLowPolls(p);
    i :| ArmedAt(p, i, |p|);
  }

  lemma ArmedInPrefix(t: Trace, i: int, j: nat)
    requires j <= |t| && ArmedAt(t[..j], i, j)
    ensures ArmedAt(t, i, j) && t[..j][i + 1..] == t[i + 1..j]
  {
    assert forall k | 0 <= k < j :: t[..j][k] == t[k];
  }

  /** Hysteresis: when an inflate is attempted, exactly nineteen polls have seen less than 30%
      used since the record was last armed, and none of the polls in between more than 50%. */
  lemma InflateNeedsNineteenLowPolls(t: Trace, j: nat) returns (i: int)
    requires Legal(t) && j < |t| && t[j].Inflate?
    ensures ArmedAt(t, i, j) && LowPolls(t[i + 1..j]) == 19
  {
    LegalPrefix(t, j);
    i := FullCounterWitness(t[..j]);
    ArmedInPrefix(t, i, j);
  }

  /** And no later: between polls the nineteenth low poll has not happened yet. */
  lemma NineteenthLowPollIsNeverPending(t: Trace, i: int)
    requires Legal(t) && Settled(t) && ArmedAt(t, i, |t|)
    ensures LowPolls(t[i + 1..]) < 19
  {
    CounterCountsLowPolls(t);
  }

  // ---------- Speed test ----------

  /** The samples taken since the ring was last cleared by an accepted first step back. */
  function Recent(t: Trace): (r: seq<u64>)
    ensures |r| <= |t|
  {
    if t == [] then []
    else if t[|t| - 1].GaveBack() then []
    else if t[|t| - 1].Sample? then Recent(t[..|t| - 1]) + [t[|t| - 1].actual]
    else Recent(t[..|t| - 1])
  }

  /** What a sample is compared with: the one before it, or the cleared slot. */
  function Before(s: seq<u64>, k: nat): i64
    requires k <= |s|
  {
    if k == 0 then 0 else ToI64(s[k - 1])
  }

  /** The ring alternates: it holds the last two samples, or the initial zeros. */
  predicate RingMeaning(c: Control, s: seq<u64>) {
    && c.index == |s| % 2
    && c.ring[1 - c.index] == Before(s, |s|)
    && c.ring[c.index] == if |s| < 2 then 0 else ToI64(s[|s| - 2])
  }

  predicate Fast(s: seq<u64>, k: nat)
    requires k < |s|
  {
    Gap([ToI64(s[k]), Before(s, k)]) >= LOW_BALLOON_SIZE_KB
  }

  ghost predicate SpeedMeaning(t: Trace) {
    var c, s := Replay(t), Recent(t);
    && RingMeaning(c, s)
    && (!c.down ==> s == [])
    && (c.down ==> c.ballooning)
    && (forall k | 0 <= k < |s| :: s[k] != 0)
    && (c.down && !c.incomplete && Settled(t) ==> forall k | 0 <= k < |s| :: Fast(s, k))
  }

  /** The order of the two slots does not matter to the speed test. */
  lemma GapIsSymmetric(a: i64, b: i64)
    ensures Gap([a, b]) == Gap([b, a])
  {
  }

  lemma RecordedGap(c: Control, s: seq<u64>, actual: u64)
    requires RingMeaning(c, s)
    ensures Gap(Record(c.ring, c.index, actual)) == Gap([ToI64(actual), Before(s, |s|)])
    ensures RingMeaning(Next(c, Sample(actual, true)), s + [actual])
    ensures RingMeaning(Next(c, Sample(actual, false)), s + [actual])
  {
    var a := ToI64(actual);
    var ring := Record(c.ring, c.index, actual);
    GapIsSymmetric(a, Before(s, |s|));
    assert ring == if c.index == 0 then [a, Before(s, |s|)] else [Before(s, |s|), a];
  }

  lemma SampleStep(t: Trace, e: Event)
    requires SpeedMeaning(t) && Allowed(t, e) && e.Sample?
    ensures SpeedMeaning(t + [e])
  {
    Push(t, e);
    assert (t + [e])[..|t|] == t;
    var s := Recent(t);
    RecordedGap(Replay(t), s, e.actual);
    var u := s + [e.actual];
    assert Recent(t + [e]) == u;
    assert Settled(t);
    if !e.slow {
      forall k | 0 <= k < |u|
        ensures Fast(u, k)
      {
        if k < |s| { assert Fast(s, k); }
      }
    }
  }

  lemma SpeedStep(t: Trace, e: Event)
    requires SpeedMeaning(t) && Allowed(t, e)
    ensures SpeedMeaning(t + [e])
  {
    if e.Sample? {
      SampleStep(t, e);
    } else {
      Push(t, e);
      assert (t + [e])[..|t|] == t;
    }
  }

  lemma {:induction false} SpeedTestMeaning(t: Trace)
    requires Legal(t)
    ensures SpeedMeaning(t)
  {
    if t != [] {
      var p, e := t[..|t| - 1], t[|t| - 1];
      SpeedTestMeaning(p);
      SpeedStep(p, e);
      assert t == p + [e];
    }
  }

  /** The sample before event `j`, or zero if none was taken since the ring was cleared. */
  function SampleBefore(t: Trace, j: nat): u64
    requires j <= |t|
  {
    var s := Recent(t[..j]);
    if s == [] then 0 else s[|s| - 1]
  }

  lemma GapOfSizes(a: i64, b: i64)
    requires a >= 0 && b >= 0
    ensures Gap([a, b]) < LOW_BALLOON_SIZE_KB <==> -307200 < a - b < 307200
  {
    var d: int := a - b;
    InRangeUnchanged(d);
  }

  lemma SlowIsGap(t: Trace, j: nat)
    requires Legal(t) && j < |t| && t[j].Sample?
    ensures t[j].slow <==> Gap([ToI64(t[j].actual), Before(Recent(t[..j]), |Recent(t[..j])|)]) < LOW_BALLOON_SIZE_KB
  {
    LegalPrefix(t, j);
    SpeedTestMeaning(t[..j]);
    RecordedGap(Replay(t[..j]), Recent(t[..j]), t[j].actual);
  }

  /** A sample is slow exactly if it is less than 300 MiB away from the one before it. */
  lemma SampleIsSlowIff(t: Trace, j: nat)
    requires Legal(t) && j < |t| && t[j].Sample? && t[j].actual < TWO63 && SampleBefore(t, j) < TWO63
    ensures t[j].slow <==> -307200 < t[j].actual - SampleBefore(t, j) < 307200
  {
    var a, b := t[j].actual, SampleBefore(t, j);
    SlowIsGap(t, j);
    InRangeUnchanged(a);
    InRangeUnchanged(b);
    GapOfSizes(a, b);
  }

  lemma {:induction false} FastSamplesFall(s: seq<u64>, k: nat)
    requires k < |s| && s[0] < TWO63
    requires forall i | 0 <= i < |s| :: Fast(s, i)
    requires forall i | 0 < i < |s| :: s[i] <= s[i - 1]
    ensures s[k] <= s[0] - k * LOW_BALLOON_SIZE_KB
  {
    if k > 0 {
      FastSamplesFall(s, k - 1);
      assert Fast(s, k);
      InRangeUnchanged(s[k]);
      InRangeUnchanged(s[k - 1]);
      var gap: int := s[k - 1] - s[k];
      InRangeUnchanged(-gap);
    }
  }

  lemma FewFastSamples(s: seq<u64>, memory: int)
    requires s != [] && 0 < s[0] <= memory < TWO63 && s[|s| - 1] != 0
    requires forall i | 0 <= i < |s| :: Fast(s, i)
    requires forall i | 0 < i < |s| :: s[i] <= s[i - 1]
    ensures |s| <= 1 + memory / LOW_BALLOON_SIZE_KB
  {
    FastSamplesFall(s, |s| - 1);
  }

  /** Inflating is bounded by the speed test: as long as a guest whose samples never grow is
      still inflating, at most `1 + memory / 300 MiB` samples have been taken. */
  lemma SpeedTestBoundsInflating(t: Trace, memory: nat)
    requires Legal(t) && Settled(t) && Replay(t).down && !Replay(t).incomplete
    requires forall i | 0 < i < |Recent(t)| :: Recent(t)[i] <= Recent(t)[i - 1]
    requires Recent(t) != [] ==> Recent(t)[0] <= memory < TWO63
    ensures |Recent(t)| <= 1 + memory / LOW_BALLOON_SIZE_KB
  {
    SpeedTestMeaning(t);
    if Recent(t) != [] {
      FewFastSamples(Recent(t), memory);
    }
  }
}
