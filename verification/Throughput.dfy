/** The enqueue/dequeue loop of test-crypto-perf/cperf_test_throughput.c.

  Crypto operations move between a pool, a local array and a device that may accept any prefix
  of a burst and return any number of what it holds.  What the device left over stays in the
  array while fresh operations are put in front of it.
 */
module Throughput {
  import opened Device
  import opened Numbers

  type Op = nat

  datatype Outcome = Finished | PoolEmpty | OutOfSchedule

  /** burst_size: a full burst while that many operations are still to be submitted. */
  function BurstSize(enqdTotal: nat, burst: nat, total: nat): nat
    requires enqdTotal <= total
  {
    if enqdTotal + burst <= total then burst else total - enqdTotal
  }

  /** A full burst is offered while that many operations are left, and all that are left after that.
      Bursts never grow, so the fresh operations fit in front of what was left over. */
  lemma BurstsShrink(enqdTotal: nat, enqd: nat, burst: nat, total: nat)
    requires enqdTotal + enqd <= total
    ensures BurstSize(enqdTotal, burst, total) == Min(burst, total - enqdTotal)
    ensures BurstSize(enqdTotal + enqd, burst, total) <= BurstSize(enqdTotal, burst, total)
    ensures enqd <= BurstSize(enqdTotal, burst, total) ==>
              BurstSize(enqdTotal, burst, total) - enqd <= BurstSize(enqdTotal + enqd, burst, total)
  {}

  function Union(a: seq<Op>, b: seq<Op>, c: seq<Op>): multiset<Op> {
    multiset(a) + multiset(b) + multiset(c)
  }

  /** The first n of b go to the end of c. */
  lemma PassOn(a: seq<Op>, b: seq<Op>, c: seq<Op>, n: nat)
    requires n <= |b|
    ensures Union(a, b[n..], c + b[..n]) == Union(a, b, c)
  {
    assert b == b[..n] + b[n..];
  }

  /** The first n of a go to the front of b. */
  lemma TakeFrom(a: seq<Op>, b: seq<Op>, c: seq<Op>, n: nat)
    requires n <= |a|
    ensures Union(a[n..], a[..n] + b, c) == Union(a, b, c)
  {
    assert a == a[..n] + a[n..];
  }

  /** The first n of c go back to the end of a. */
  lemma GiveBack(a: seq<Op>, b: seq<Op>, c: seq<Op>, n: nat)
    requires n <= |c|
    ensures Union(a + c[..n], b, c[n..]) == Union(a, b, c)
  {
    assert c == c[..n] + c[n..];
  }

  lemma UnionSize(a: seq<Op>, b: seq<Op>, c: seq<Op>)
    ensures |Union(a, b, c)| == |a| + |b| + |c|
  {}

  lemma UnionOfOne(a: seq<Op>)
    ensures Union(a, [], []) == multiset(a)
  {}

  /** The locals of one burst size, with the pool and the device. */
  class Runner {
    const total: nat
    const burst: nat
    const ops: array<Op>
    ghost const all: multiset<Op>
    var pool: seq<Op>
    var queue: seq<Op>
    var enqd: nat
    var enqdTotal: nat
    var deqdTotal: nat
    var unused: nat
    var started: bool

    /** The operations the device refused, where the last burst left them. */
    ghost function Held(): seq<Op>
      requires enqd + unused <= ops.Length
      reads this, ops
    {
      ops[enqd..enqd + unused]
    }

    ghost predicate Counts()
      reads this
    {
      && burst <= ops.Length && enqdTotal <= total && deqdTotal + |queue| == enqdTotal
      && enqd + unused <= burst && unused <= total - enqdTotal
      && (started ==> BurstSize(enqdTotal, burst, total) <= enqd + unused)
      && (!started ==> enqd == 0 && unused == 0)
    }

    /** No operation is lost or in two places. */
    ghost predicate Partitioned()
      requires Counts()
      reads this, ops
    {
      Union(pool, Held(), queue) == all
    }

    ghost predicate Valid()
      reads this, ops
    {
      Counts() && Partitioned()
    }

    constructor (pool: seq<Op>, total: nat, burst: nat, maxBurst: nat)
      requires burst <= maxBurst
      ensures Valid() && fresh(ops) && all == multiset(pool)
      ensures this.total == total && this.burst == burst && enqdTotal == 0 && deqdTotal == 0
    {
      this.total, this.burst, this.pool, all := total, burst, pool, multiset(pool);
      ops := new Op[maxBurst](_ => 0);
      queue, enqd, enqdTotal, deqdTotal, unused, started := [], 0, 0, 0, 0, false;
    }

    /** rte_mempool_get_bulk into the front of the array: all or nothing.  What is held from the
        last burst is not overwritten. */
    method Fill(needed: nat) returns (ok: bool)
      requires Valid() && (needed <= enqd || unused == 0) && needed <= ops.Length
      modifies `pool, ops
      ensures ok == (needed <= |old(pool)|)
      ensures Held() == old(Held()) && Counts()
      ensures !ok ==> pool == old(pool) && ops[..] == old(ops[..])
      ensures ok ==> ops[..needed] == old(pool)[..needed] && pool == old(pool)[needed..]
    {
      ok := needed <= |pool|;
      if ok {
        for k := 0 to needed
          modifies ops
          invariant ops[..k] == pool[..k]
          invariant forall m | k <= m < ops.Length :: ops[m] == old(ops[m])
        {
          ops[k] := pool[k];
        }
        pool := pool[needed..];
      }
    }

    /** The memmove of the held operations to just behind the fresh ones. */
    method MoveHeld(needed: nat)
      requires Counts() && (needed <= enqd || unused == 0) && needed + unused <= ops.Length
      modifies ops
      ensures ops[..needed] == old(ops[..needed])
      ensures ops[needed..needed + unused] == old(Held())
    {
      if enqd > needed {
        for k := 0 to unused
          invariant ops[..needed] == old(ops[..needed])
          invariant ops[needed..needed + k] == old(Held())[..k]
          invariant forall m | enqd + k <= m < enqd + unused :: ops[m] == old(ops[m])
        {
          ops[needed + k] := ops[enqd + k];
        }
      }
    }

    /** The device takes the first `accept` of the burst. */
    method Enqueue(size: nat, accept: nat)
      requires enqdTotal < total && size == BurstSize(enqdTotal, burst, total) && size <= burst <= ops.Length
      requires deqdTotal + |queue| == enqdTotal
      requires Union(pool, ops[..size], queue) == all
      modifies `enqd, `unused, `enqdTotal, `queue, `started
      ensures Valid() && started && enqd == Min(accept, size) && enqdTotal == old(enqdTotal) + enqd
      ensures unused == size - enqd
    {
      hide Union;
      BurstsShrink(enqdTotal, Min(accept, size), burst, total);
      enqd := Min(accept, size);
      PassOn(pool, ops[..size], queue, enqd);
      assert ops[..size][..enqd] == ops[..enqd] && ops[..size][enqd..] == ops[enqd..size];
      queue := queue + ops[..enqd];
      unused, enqdTotal, started := size - enqd, enqdTotal + enqd, true;
    }

    /** The device returns up to `give`; they go back to the pool. */
    method Dequeue(give: nat) returns (n: nat)
      requires Valid()
      modifies `queue, `pool, `deqdTotal
      ensures Valid() && n == Min(Min(give, burst), |old(queue)|) && deqdTotal == old(deqdTotal) + n
    {
      n := Min(Min(give, burst), |queue|);
      hide Union;
      GiveBack(pool, Held(), queue, n);
      pool, queue, deqdTotal := pool + queue[..n], queue[n..], deqdTotal + n;
    }

    /** The pool cannot fill the next burst. */
    ghost predicate Short()
      requires Valid()
      reads this, ops
    {
      enqdTotal < total && BurstSize(enqdTotal, burst, total) - unused > |pool|
    }

    /** One iteration of the submission loop.  It fails exactly when the pool is short, which takes
        more than all operations less one burst to be in the device. */
    method Round(v: Visit) returns (ok: bool)
      requires Valid() && enqdTotal < total
      modifies this, ops
      ensures Valid()
      ensures ok ==> enqdTotal == old(enqdTotal) + Min(v.accept, Min(burst, total - old(enqdTotal)))
      ensures (ok ==> var inDevice := old(|queue|) + enqdTotal - old(enqdTotal);
                      deqdTotal == old(deqdTotal) + Min(Min(v.give, burst), inDevice))
      ensures ok <==> !old(Short())
      ensures !ok ==> enqdTotal == old(enqdTotal) && Short() && |queue| + burst > |all|
    {
      hide Union;
      var size := BurstSize(enqdTotal, burst, total);
      var needed := size - unused;
      ghost var held, before := Held(), pool;
      ok := Fill(needed);
      if !ok {
        UnionSize(pool, held, queue);
        return;
      }
      BurstsShrink(enqdTotal, 0, burst, total);
      MoveHeld(needed);
      assert ops[..size] == before[..needed] + held;
      TakeFrom(before, held, queue, needed);
      Enqueue(size, v.accept);
      var _ := Dequeue(v.give);
    }

    /** The run at one burst size, for as long as the schedule lasts. */
    method Run(schedule: seq<Visit>) returns (r: Outcome)
      requires Valid() && enqdTotal == 0 && deqdTotal == 0
      modifies this, ops
      ensures Valid()
      ensures r.Finished? ==> enqdTotal == total && deqdTotal == total && unused == 0
      ensures r.Finished? ==> queue == [] && multiset(pool) == all
      ensures r.PoolEmpty? ==> Short() && |queue| + burst > |all|
      ensures r.OutOfSchedule? ==> deqdTotal < total
      ensures burst > 0 && Eager(schedule) && |schedule| >= 2 * total ==> !r.OutOfSchedule?
    {
      hide Union;
      var step := 0;
      ghost var eager := burst > 0 && Eager(schedule);
      while enqdTotal < total && step < |schedule|
        invariant Valid() && 0 <= step <= |schedule|
        invariant eager ==> step <= enqdTotal
        decreases |schedule| - step
      {
        assert schedule[step] in schedule;
        var ok := Round(schedule[step]);
        if !ok { return PoolEmpty; }
        step := step + 1;
      }
      ghost var rounds, sent := step, enqdTotal;
      while enqdTotal == total && deqdTotal < total && step < |schedule|
        invariant Valid() && 0 <= rounds <= step <= |schedule| && enqdTotal == sent
        invariant eager ==> rounds <= sent && step - rounds <= deqdTotal
        decreases |schedule| - step
      {
        assert schedule[step] in schedule;
        var _ := Dequeue(schedule[step].give);
        step := step + 1;
      }
      if deqdTotal < total { return OutOfSchedule; }
      assert Held() == [];
      UnionOfOne(pool);
      r := Finished;
    }
  }
}
