/** The fill-and-drain benchmark of test-crypto-perf/cperf_test_pmd_cyclecount.c.

  Every round allocates operations into an array, hands as many of them to the device as it
  takes, reads exactly those back into the same array and frees whatever was allocated.  The
  device is a first-in first-out queue; `plan` says what it takes or returns at each visit.
 */
module CycleCount {
  import opened Numbers

  type Op = nat

  datatype Outcome = Finished | PoolEmpty | OutOfSchedule

  /** Every visit of the device moves something. */
  predicate Busy(plan: seq<nat>) {
    forall i | 0 <= i < |plan| :: plan[i] > 0
  }

  /** How many of `needed` operations the device takes: bursts are offered until everything is
      taken or one of them is refused entirely. */
  function Accepted(plan: seq<nat>, needed: nat, burst: nat): (n: nat)
    ensures n <= needed
  {
    if needed == 0 || plan == [] then 0
    else
      var a := Min(plan[0], Min(needed, burst));
      if a == 0 then 0 else a + Accepted(plan[1..], needed - a, burst)
  }

  /** A device that never refuses a burst takes everything. */
  lemma {:induction false} BusyAcceptsAll(plan: seq<nat>, needed: nat, burst: nat)
    requires Busy(plan) && burst > 0 && needed <= |plan|
    ensures Accepted(plan, needed, burst) == needed
  {
    if needed > 0 {
      BusyAcceptsAll(plan[1..], needed - Min(plan[0], Min(needed, burst)), burst);
    }
  }

  /** What the device takes at most: at each visit a burst or less, until it refuses one. */
  function Capacity(plan: seq<nat>, burst: nat): nat {
    if plan == [] || plan[0] == 0 then 0 else Min(plan[0], burst) + Capacity(plan[1..], burst)
  }

  /** Offered `needed` operations it takes as many as it can, and stops at the first refused burst. */
  lemma {:induction false} AcceptedIs(plan: seq<nat>, needed: nat, burst: nat)
    requires burst > 0
    ensures Accepted(plan, needed, burst) == Min(needed, Capacity(plan, burst))
    decreases |plan|
  {
    if needed > 0 && plan != [] && plan[0] > 0 {
      AcceptedIs(plan[1..], needed - Min(plan[0], Min(needed, burst)), burst);
    }
  }

  lemma {:induction false} CapacityOfBursts(plan: seq<nat>, burst: nat)
    requires burst > 0 && forall i | 0 <= i < |plan| :: plan[i] >= burst
    ensures Capacity(plan, burst) == burst * |plan|
    decreases |plan|
  {
    if plan != [] {
      CapacityOfBursts(plan[1..], burst);
      assert burst * |plan| == burst + burst * |plan[1..]|;
    }
  }

  /** A device that takes every burst it is offered takes whole ones, and the rest. */
  lemma WholeBurstsAccepted(plan: seq<nat>, needed: nat, burst: nat)
    requires burst > 0 && forall i | 0 <= i < |plan| :: plan[i] >= burst
    ensures Accepted(plan, needed, burst) == Min(needed, burst * |plan|)
  {
    AcceptedIs(plan, needed, burst);
    CapacityOfBursts(plan, burst);
  }

  ghost predicate WholeBursts(n: nat, burst: nat) {
    exists bursts: nat :: n == bursts * burst
  }

  lemma NoBurst(burst: nat)
    ensures WholeBursts(0, burst)
  {
    assert 0 == 0 * burst;
  }

  lemma OneMore(n: nat, burst: nat)
    requires WholeBursts(n, burst)
    ensures WholeBursts(n + burst, burst)
  {
    var bursts: nat :| n == bursts * burst;
    assert n + burst == (bursts + 1) * burst;
  }

  /** The bursts that fit before one does not are floor(size / burst). */
  lemma FullBursts(size: nat, burst: nat, taken: nat)
    requires burst > 0 && WholeBursts(taken, burst) && taken <= size < taken + burst
    ensures taken == size / burst * burst
  {
    var bursts: nat :| taken == bursts * burst;
    DivMod(size, burst, bursts, size - taken);
  }

  /** Taking a block from the front of the pool and putting it back loses nothing. */
  lemma Rotate(pool: seq<Op>, n: nat)
    requires n <= |pool|
    ensures multiset(pool[n..] + pool[..n]) == multiset(pool)
  {
    assert pool == pool[..n] + pool[n..];
  }

  /** pmd_cyclecount_state with its context, pool and device queue. */
  class State {
    const total: nat
    const descriptors: nat
    const burst: nat
    const ops: array<Op>
    var pool: seq<Op>
    var queue: seq<Op>
    var plan: seq<nat>
    var opsEnqd: nat
    var opsDeqd: nat

    ghost predicate Sized() {
      burst > 0 && descriptors > 0 && ops.Length == descriptors
    }

    constructor (pool: seq<Op>, plan: seq<nat>, total: nat, descriptors: nat, burst: nat)
      requires burst > 0 && descriptors > 0
      ensures Sized() && fresh(ops) && this.pool == pool && this.plan == plan && queue == []
      ensures this.total == total && this.burst == burst && this.descriptors == descriptors
    {
      this.pool, this.plan, this.total, this.descriptors, this.burst := pool, plan, total, descriptors, burst;
      ops := new Op[descriptors](_ => 0);
      queue, opsEnqd, opsDeqd := [], 0, 0;
    }

    /** rte_mempool_get_bulk of n operations into ops[at..]: all or nothing. */
    method GetBulk(at: nat, n: nat) returns (ok: bool)
      requires at + n <= ops.Length
      modifies `pool, ops
      ensures ok == (n <= |old(pool)|)
      ensures ok ==> pool == old(pool)[n..] && ops[at..at + n] == old(pool)[..n]
      ensures !ok ==> pool == old(pool) && ops[at..at + n] == old(ops[at..at + n])
      ensures forall k | 0 <= k < ops.Length && !(at <= k < at + n) :: ops[k] == old(ops[k])
    {
      ok := n <= |pool|;
      if ok {
        for i := 0 to n
          modifies ops
          invariant ops[at..at + i] == pool[..i]
          invariant forall k | 0 <= k < ops.Length && !(at <= k < at + i) :: ops[k] == old(ops[k])
        {
          ops[at + i] := pool[i];
        }
        pool := pool[n..];
      }
    }

    /** One round of the allocate, build and free measurement: nothing is lost. */
    method BenchOps(needed: nat) returns (ok: bool)
      requires Sized() && needed <= ops.Length
      modifies `pool, ops
      ensures multiset(pool) == multiset(old(pool))
      ensures ok == (Min(needed, burst) <= |old(pool)|)
    {
      var cur := 0;
      while cur < needed
        modifies `pool, ops
        invariant 0 <= cur && multiset(pool) == multiset(old(pool)) && |pool| == |old(pool)|
        invariant cur > 0 ==> Min(needed, burst) <= |pool|
      {
        var size := Min(needed - cur, burst);
        ghost var was := pool;
        ok := GetBulk(cur, size);
        if !ok { return; }
        Rotate(was, size);
        assert |pool + ops[cur..cur + size]| == |was|;
        pool := pool + ops[cur..cur + size];
        cur := cur + burst;
      }
      ok := true;
    }

    /** pmd_cyclecount_build_ops: it succeeds exactly when the pool holds enough; when it fails,
        the full bursts taken so far are not put back. */
    method BuildOps(needed: nat) returns (ok: bool)
      requires Sized() && needed <= ops.Length
      modifies `pool, ops
      ensures ok == (needed <= |old(pool)|)
      ensures ok ==> pool == old(pool)[needed..] && ops[..needed] == old(pool)[..needed]
      ensures !ok ==> pool == old(pool)[|old(pool)| / burst * burst..]
    {
      hide WholeBursts;
      NoBurst(burst);
      var cur := 0;
      while cur < needed
        modifies `pool, ops
        invariant 0 <= cur && WholeBursts(cur, burst) && Min(cur, needed) <= |old(pool)|
        invariant pool == old(pool)[Min(cur, needed)..]
        invariant ops[..Min(cur, needed)] == old(pool)[..Min(cur, needed)]
      {
        var size := Min(needed - cur, burst);
        ghost var was := ops[..cur];
        ok := GetBulk(cur, size);
        if !ok {
          FullBursts(|old(pool)|, burst, cur);
          return;
        }
        assert ops[..cur] == was;
        assert ops[..cur + size] == ops[..cur] + ops[cur..cur + size];
        OneMore(cur, burst);
        cur := cur + burst;
      }
      ok := true;
    }

    /** pmd_cyclecount_bench_enq: the device ends up with the first n operations, where n is
        what it takes before it refuses a whole burst. */
    method BenchEnq(needed: nat) returns (n: nat)
      requires Sized() && needed <= ops.Length && queue == []
      modifies `queue, `plan, `opsEnqd
      ensures n == Accepted(old(plan), needed, burst) == Min(needed, Capacity(old(plan), burst)) && queue == ops[..n]
      ensures opsEnqd == old(opsEnqd) + n
      ensures Busy(old(plan)) ==> Busy(plan) && |plan| >= |old(plan)| - n
      ensures needed > 0 && old(plan) != [] ==> |plan| < |old(plan)|
    {
      n := 0;
      AcceptedIs(plan, needed, burst);
      while n < needed && plan != []
        invariant n <= needed && queue == ops[..n] && opsEnqd == old(opsEnqd) + n
        invariant n + Accepted(plan, needed - n, burst) == Accepted(old(plan), needed, burst)
        invariant |plan| <= |old(plan)| && (n > 0 ==> |plan| < |old(plan)|)
        invariant Busy(old(plan)) ==> Busy(plan) && |plan| >= |old(plan)| - n
        decreases |plan|
      {
        var size := Min(needed - n, burst);
        var burstEnqd := Min(plan[0], size);
        plan := plan[1..];
        if burstEnqd == 0 { return; }
        assert ops[..n + burstEnqd] == ops[..n] + ops[n..n + burstEnqd];
        queue := queue + ops[n..n + burstEnqd];
        opsEnqd := opsEnqd + burstEnqd;
        n := n + burstEnqd;
      }
    }

    /** pmd_cyclecount_bench_deq: reading back the operations that came from ops[..n] puts each
        of them in the slot it came from, whatever the device returns at a visit. */
    method BenchDeq(n: nat) returns (ok: bool)
      requires Sized() && n <= ops.Length && queue == ops[..n]
      modifies `queue, `plan, `opsDeqd, ops
      ensures ops[..] == old(ops[..])
      ensures |queue| <= n && queue == ops[n - |queue|..n] && opsDeqd == old(opsDeqd) + n - |queue|
      ensures ok <==> queue == []
      ensures !ok ==> plan == [] && (Busy(old(plan)) ==> |old(plan)| < n)
      ensures |plan| <= |old(plan)|
      ensures Busy(old(plan)) ==> Busy(plan) && |plan| >= |old(plan)| - n
    {
      var cur := 0;
      while cur < n
        invariant 0 <= cur <= n && queue == old(ops[..])[cur..n] && ops[..] == old(ops[..])
        invariant opsDeqd == old(opsDeqd) + cur
        invariant |plan| <= |old(plan)|
        invariant Busy(old(plan)) ==> Busy(plan) && |plan| >= |old(plan)| - cur
        decreases |plan|
      {
        if plan == [] { return false; }
        var size := Min(n - cur, burst);
        var burstDeqd := Min(Min(plan[0], size), |queue|);
        for i := 0 to burstDeqd
          modifies ops
          invariant ops[..] == old(ops[..])
        {
          ops[cur + i] := queue[i];
        }
        queue, plan := queue[burstDeqd..], plan[1..];
        opsDeqd := opsDeqd + burstDeqd;
        cur := cur + burstDeqd;
      }
      ok := true;
    }

    /** One round of the main loop: allocate, fill the device, drain it, free.  The pool gets
        back exactly what it gave, also when the device took only part of it. */
    method Round(needed: nat) returns (r: Outcome, n: nat)
      requires Sized() && 0 < needed <= descriptors && queue == [] && plan != []
      modifies this, ops
      ensures r.PoolEmpty? <==> |old(pool)| < needed
      ensures r.Finished? ==> multiset(pool) == multiset(old(pool)) && queue == []
      ensures r.Finished? ==> n == Accepted(old(plan), needed, burst)
      ensures r.Finished? ==> opsEnqd == old(opsEnqd) + n && opsDeqd == old(opsDeqd) + n
      ensures r.Finished? ==> |plan| < |old(plan)|
      ensures r.OutOfSchedule? ==> plan == []
      ensures Busy(old(plan)) && |old(plan)| >= 2 * needed ==> !r.OutOfSchedule?
      ensures (r.Finished? && Busy(old(plan)) && |old(plan)| >= 2 * needed ==>
                 n == needed && Busy(plan) && |plan| >= |old(plan)| - 2 * n)
    {
      hide Accepted, Busy, Capacity;
      ghost var start := plan;
      n := 0;
      var ok := BuildOps(needed);
      if !ok { return PoolEmpty, n; }
      ghost var built := ops[..needed];
      n := BenchEnq(needed);
      if Busy(start) && |start| >= 2 * needed {
        BusyAcceptsAll(start, needed, burst);
      }
      ok := BenchDeq(n);
      if !ok { return OutOfSchedule, n; }
      assert ops[..needed] == built;
      Rotate(old(pool), needed);
      pool := pool + ops[..needed];
      r := Finished;
    }

    /** pmd_cyclecount_bench_burst_sz, for as long as the device has visits left. */
    method BenchBurstSize() returns (r: Outcome)
      requires Sized() && queue == []
      modifies this, ops
      ensures r.Finished? ==> opsEnqd == total && opsDeqd == total && queue == []
      ensures r.Finished? ==> multiset(pool) == multiset(old(pool))
      ensures r.PoolEmpty? ==> |old(pool)| < Min(descriptors, total)
      ensures r.Finished? ==> |old(pool)| >= Min(descriptors, total)
      ensures r.OutOfSchedule? ==> plan == []
      ensures Busy(old(plan)) && |old(plan)| >= 2 * total ==> !r.OutOfSchedule?
    {
      opsEnqd, opsDeqd := 0, 0;
      var cur := 0;
      while cur < total
        modifies `pool, ops
        invariant 0 <= cur && multiset(pool) == multiset(old(pool))
      {
        var ok := BenchOps(Min(descriptors, total - cur));
        SameSize(pool, old(pool));
        if !ok { return PoolEmpty; }
        cur := cur + descriptors;
      }
      var curOp := 0;
      ghost var busy := Busy(plan) && |plan| >= 2 * total;
      while curOp < total && plan != []
        invariant curOp <= total && opsEnqd == curOp && opsDeqd == curOp && queue == []
        invariant multiset(pool) == multiset(old(pool))
        invariant busy ==> Busy(plan) && |plan| >= 2 * (total - curOp)
        invariant curOp > 0 ==> |old(pool)| >= Min(descriptors, total)
        decreases |plan|
      {
        SameSize(pool, old(pool));
        var n;
        r, n := Round(Min(descriptors, total - curOp));
        if !r.Finished? { return; }
        curOp := curOp + n;
      }
      r := if curOp < total then OutOfSchedule else Finished;
    }
  }

  lemma SameSize(a: seq<Op>, b: seq<Op>)
    requires multiset(a) == multiset(b)
    ensures |a| == |b|
  {
    assert |multiset(a)| == |a| && |multiset(b)| == |b|;
  }
}
