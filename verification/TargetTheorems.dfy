/** The inflate target: machine arithmetic against the mathematics, what the target guarantees,
    and how it moves with its inputs. */
module TargetTheorems {
  import opened Machine
  import opened Vm
  import opened Balloon

  /** Above this many KiB a percentage product can leave 64 bits. */
  const MEMORY_LIMIT: int := (TWO63 - 1) / 10000

  function Least(a: int, b: int): int { if a < b then a else b }

  /** What a target has to keep for the guest: the scaled demand, the configured share of the
      memory, 1 GiB and the guarantee, each capped by the memory itself. */
  ghost predicate Sufficient(t: int, memory: int, free: int, guarantee: int, pct: Percents) {
    && t >= Least(memory, (memory - free) * pct.used / 100)
    && t >= Least(memory, memory * pct.total / 100)
    && t >= Least(memory, 1048576)
    && t >= Least(memory, guarantee)
  }

  /** The clamps of the target in unbounded integers. */
  function Clamp(memory: int, demand: int, share: int, guarantee: int): int {
    var a := if demand > TARGET_RESERVED_KB then demand else TARGET_RESERVED_KB;
    var b := if a > share then a else share;
    var c := if b > guarantee then b else guarantee;
    Least(c, memory)
  }

  predicate MemoryInRange(memory: i64, s: MemStat, guarantee: u64) {
    0 <= memory <= MEMORY_LIMIT && Free(s) <= memory && guarantee < TWO63
  }

  predicate InRange(memory: i64, s: MemStat, guarantee: u64, pct: Percents) {
    MemoryInRange(memory, s, guarantee) && pct.Loadable()
  }

  /** The wrapping additions cancel: what is scaled is exactly `memory - free`, whatever the
      guest reports as its total. */
  lemma BaseIsMemoryMinusFree(memory: i64, s: MemStat)
    ensures ToI64(SubU(memory, s.available) + Used(s)) == ToI64(memory - Free(s))
  {
    WrapSum(memory - s.available, s.available - Free(s));
  }

  lemma Scaling(x: int, y: int, p: int, q: int)
    requires 0 <= x <= y && 0 <= p <= q
    ensures 0 <= x * p <= y * q
  {
    assert x * p <= y * p <= y * q;
  }

  /** No product leaves the signed 64-bit range, so a percentage is the rounded-down quotient. */
  lemma PercentExact(x: i64, p: int)
    requires 0 <= x <= MEMORY_LIMIT && 0 <= p <= 10000
    ensures Percent(x, p) == x * p / 100
  {
    Scaling(x, MEMORY_LIMIT, p, 10000);
    var product := x * p;
    InRangeUnchanged(product);
    InRangeUnchanged(product / 100);
  }

  lemma BoundedExact(memory: i64, demand: i64, share: i64, guarantee: i64)
    requires memory >= 0
    ensures Bounded(memory, demand, share, guarantee) == Clamp(memory, demand, share, guarantee)
  {
    MinOfSigned(Max(Max(Max(demand, TARGET_RESERVED_KB), share), guarantee), memory);
  }

  /** Machine arithmetic agrees with the mathematics: no wrap shows in the result. */
  lemma TargetExact(memory: i64, s: MemStat, guarantee: u64, pct: Percents)
    requires InRange(memory, s, guarantee, pct)
    ensures Target(memory, s.available, Used(s), guarantee, pct)
         == Clamp(memory, (memory - Free(s)) * pct.used / 100, memory * pct.total / 100, guarantee)
  {
    BaseIsMemoryMinusFree(memory, s);
    var base: i64 := memory - Free(s);
    InRangeUnchanged(base);
    PercentExact(base, pct.used);
    PercentExact(memory, pct.total);
    InRangeUnchanged(guarantee);
    BoundedExact(memory, Percent(base, pct.used), Percent(memory, pct.total), guarantee);
  }

  /** The target is the least size that keeps everything it has to keep. */
  lemma TargetIsLeastSufficient(memory: i64, s: MemStat, guarantee: u64, pct: Percents)
    requires InRange(memory, s, guarantee, pct)
    ensures var r := Target(memory, s.available, Used(s), guarantee, pct);
            && Sufficient(r, memory, Free(s), guarantee, pct)
            && (forall t :: Sufficient(t, memory, Free(s), guarantee, pct) ==> r <= t)
  {
    TargetExact(memory, s, guarantee, pct);
  }

  /** Never above the memory, and never more than the free memory is reclaimed. */
  lemma TargetReclaimsOnlyFreeMemory(memory: i64, s: MemStat, guarantee: u64, pct: Percents)
    requires InRange(memory, s, guarantee, pct)
    ensures 0 <= memory - Target(memory, s.available, Used(s), guarantee, pct) <= Free(s)
  {
    TargetExact(memory, s, guarantee, pct);
    Scaling(memory - Free(s), memory - Free(s), 100, pct.used);
  }

  /** More free memory lowers the target, larger percentages raise it. */
  lemma TargetMonotone(memory: i64, s: MemStat, s': MemStat, guarantee: u64, p: Percents, p': Percents)
    requires InRange(memory, s, guarantee, p) && InRange(memory, s', guarantee, p')
    requires Free(s) >= Free(s') && p.used <= p'.used && p.total <= p'.total
    ensures Target(memory, s.available, Used(s), guarantee, p)
         <= Target(memory, s'.available, Used(s'), guarantee, p')
  {
    TargetExact(memory, s, guarantee, p);
    TargetExact(memory, s', guarantee, p');
    Scaling(memory - Free(s), memory - Free(s'), p.used, p'.used);
    Scaling(memory, memory, p.total, p'.total);
  }
}
