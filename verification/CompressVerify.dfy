/** The verification pass of test-compress-perf/comp_perf_test_verify.c.

  main_loop feeds the buffers of a test through a compression device that may accept any
  prefix of a burst and return any part of what it holds.  The device is a FIFO whose choices
  come from a schedule; cperf_verification compresses and then decompresses.
 */
module CompressVerify {
  import opened Device
  import opened Mbuf
  import opened Numbers

  type Codec = seq<Byte> -> seq<Byte>

  /** Bytes of outputs 0 .. n in buffer order. */
  function Outputs(f: Codec, src: seq<Chain>, n: nat): seq<Byte>
    requires n <= |src| && forall i | 0 <= i < |src| :: Readable(src[i])
  {
    if n == 0 then [] else Outputs(f, src, n - 1) + f(Input(src[n - 1]))
  }

  /** Every output fits its chain: the device reports success for every operation. */
  predicate Succeeds(f: Codec, src: seq<Chain>, dst: seq<Chain>, sz: nat) {
    && |src| == |dst|
    && (forall i | 0 <= i < |src| :: Readable(src[i]))
    && (forall i | 0 <= i < |dst| :: Uniform(dst[i].segs, sz))
    && (forall i | 0 <= i < |dst| :: |f(Input(src[i]))| <= sz * |dst[i].segs|)
  }

  /** An output chain as it is when its operation is submitted. */
  function Prime(c: Chain, sz: nat): Chain {
    Chain(Reset(c.segs), sz * |c.segs|)
  }

  /** The same chain once the device has stored b in it, lengths not yet set. */
  function Delivered(c: Chain, b: seq<Byte>, sz: nat): Chain {
    Chain(Write(Reset(c.segs), b), sz * |c.segs|)
  }

  lemma PrimeDelivered(c: Chain, sz: nat, b: seq<Byte>)
    ensures Prime(c, sz).(segs := Write(Prime(c, sz).segs, b)) == Delivered(c, b, sz)
  {}

  /** One call of main_loop: its locals, the op pool and the device. */
  class Pass {
    const f: Codec
    const src: seq<Chain>
    const dst0: seq<Chain>
    const sz: nat
    const burst: nat
    const total: nat
    // ops[..total] holds operations to submit, ops[total..] the ones that came back; an
    // operation is known by the buffer attached to it.
    const ops: array<nat>
    var dst: seq<Chain>
    var pool: nat
    var queue: seq<nat>
    var remaining: nat
    var enq: nat
    var deq: nat
    var unused: nat
    var numEnq: nat
    var taken: nat
    var output: seq<Byte>
    ghost var submitted: seq<nat>

    ghost predicate Setting()
      reads this
    {
      && total == |src| == |dst0| && 1 <= burst && Succeeds(f, src, dst0, sz) && ops.Length == 2 * total
    }

    /** The counters; nothing is lost between pool, array and device. */
    ghost predicate Counts()
      reads this
    {
      && remaining + enq == total && deq + |queue| == enq
      && unused <= remaining && unused <= burst && numEnq + unused <= total
      && taken == unused + |queue| && pool + taken == total
    }

    /** Operations reach the device, and come back, in buffer order, each once. */
    ghost predicate Order()
      requires Setting() && Counts()
      reads this, ops
    {
      && (forall k | numEnq <= k < numEnq + unused :: ops[k] == enq + (k - numEnq))
      && (forall k | 0 <= k < |queue| :: queue[k] == deq + k)
      && submitted == seq(enq, i => i)
    }

    /** The output chains by stage, and the bytes delivered so far. */
    ghost predicate Data()
      requires Setting() && Counts()
      reads this
    {
      && |dst| == total && output == Outputs(f, src, deq)
      && (forall i | 0 <= i < deq :: dst[i] == Finish(dst0[i].segs, f(Input(src[i])), sz))
      && (forall i | deq <= i < enq + unused :: dst[i] == Prime(dst0[i], sz))
      && (forall i | enq + unused <= i < total :: dst[i] == dst0[i])
    }

    ghost predicate Valid()
      reads this, ops
    {
      Setting() && Counts() && Order() && Data()
    }

    constructor (f: Codec, src: seq<Chain>, dst: seq<Chain>, sz: nat, burst: nat)
      requires Succeeds(f, src, dst, sz) && 1 <= burst
      ensures Valid() && fresh(ops)
      ensures this.f == f && this.src == src && dst0 == dst && this.sz == sz && this.burst == burst
      ensures enq == 0 && deq == 0
    {
      this.f, this.src, dst0, this.sz, this.burst, total := f, src, dst, sz, burst, |src|;
      ops := new nat[2 * |src|];
      this.dst := dst;
      pool, queue, remaining := |src|, [], |src|;
      enq, deq, unused, numEnq, taken := 0, 0, 0, 0, 0;
      output, submitted := [], [];
    }

    /** Moves what the device left over to the front of the array. */
    method Compact()
      requires Valid()
      modifies ops
      ensures Setting() && Counts() && Data()
      ensures forall k | 0 <= k < unused :: ops[k] == enq + k
    {
      hide Prime, Outputs, Finish;
      if unused > 0 && numEnq > 0 {
        for k := 0 to unused
          invariant forall m | 0 <= m < k :: ops[m] == enq + m
          invariant forall m | numEnq + k <= m < numEnq + unused :: ops[m] == enq + (m - numEnq)
        {
          ops[k] := ops[numEnq + k];
        }
      }
    }

    /** Attaches the next buffers to fresh operations behind the leftovers. */
    method Attach(needed: nat)
      requires pool >= needed && |dst| == |dst0| == total && ops.Length == 2 * total
      requires enq + unused + needed <= total
      requires forall k | 0 <= k < unused :: ops[k] == enq + k
      requires forall i | enq + unused <= i < total :: dst[i] == dst0[i]
      modifies `dst, `pool, `taken, ops
      ensures pool == old(pool) - needed && taken == old(taken) + needed
      ensures forall k | 0 <= k < unused + needed :: ops[k] == enq + k
      ensures |dst| == total && forall i | 0 <= i < enq + unused :: dst[i] == old(dst)[i]
      ensures forall i | enq + unused <= i < enq + unused + needed :: dst[i] == Prime(dst0[i], sz)
      ensures forall i | enq + unused + needed <= i < total :: dst[i] == dst0[i]
    {
      hide Prime;
      pool, taken := pool - needed, taken + needed;
      for i := 0 to needed
        modifies `dst, ops
        invariant forall k | 0 <= k < unused + i :: ops[k] == enq + k
        invariant |dst| == total && forall j | 0 <= j < enq + unused :: dst[j] == old(dst)[j]
        invariant forall j | enq + unused <= j < enq + unused + i :: dst[j] == Prime(dst0[j], sz)
        invariant forall j | enq + unused + i <= j < total :: dst[j] == dst0[j]
      {
        var buf := enq + i + unused;
        dst := dst[buf := Prime(dst[buf], sz)];
        ops[unused + i] := buf;
      }
    }

    /** The device takes the first `accept` of the burst. */
    method Enqueue(numOps: nat, accept: nat)
      requires Setting() && |dst| == total && numOps <= remaining && numOps <= burst
      requires remaining + enq == total && deq + |queue| == enq
      requires forall k | 0 <= k < numOps :: ops[k] == enq + k
      requires forall k | 0 <= k < |queue| :: queue[k] == deq + k
      requires submitted == seq(enq, i => i)
      modifies `numEnq, `queue, `unused, `remaining, `enq, `submitted
      ensures numEnq == Min(accept, numOps) && unused == numOps - numEnq
      ensures remaining + enq == total && deq + |queue| == enq == old(enq) + numEnq
      ensures forall k | numEnq <= k < numEnq + unused :: ops[k] == enq + (k - numEnq)
      ensures forall k | 0 <= k < |queue| :: queue[k] == deq + k
      ensures submitted == seq(enq, i => i)
    {
      numEnq := Min(accept, numOps);
      submitted := submitted + ops[..numEnq];
      queue := queue + ops[..numEnq];
      unused, remaining, enq := numOps - numEnq, remaining - numEnq, enq + numEnq;
    }

    /** rte_compressdev_dequeue_burst: the oldest `give` operations, at most a burst, come back
        in the second half of the array, their output stored by the device. */
    method Dequeue(give: nat) returns (numDeq: nat)
      requires Valid()
      modifies `queue, `dst, ops
      ensures numDeq == Min(Min(give, burst), |old(queue)|)
      ensures Setting() && queue == old(queue)[numDeq..] && |dst| == total
      ensures forall k | 0 <= k < total :: ops[k] == old(ops[k])
      ensures forall k | total <= k < total + numDeq :: ops[k] == deq + (k - total)
      ensures forall i | deq <= i < deq + numDeq :: dst[i] == Delivered(dst0[i], f(Input(src[i])), sz)
      ensures forall i | 0 <= i < total && !(deq <= i < deq + numDeq) :: dst[i] == old(dst)[i]
    {
      hide Prime, Outputs, Finish, Delivered, Input, Readable, Uniform, Write;
      numDeq := Min(Min(give, burst), |queue|);
      for i := 0 to numDeq
        modifies `dst, ops
        invariant |dst| == total
        invariant forall k | 0 <= k < total :: ops[k] == old(ops[k])
        invariant forall k | total <= k < total + i :: ops[k] == deq + (k - total)
        invariant forall j | deq <= j < deq + i :: dst[j] == Delivered(dst0[j], f(Input(src[j])), sz)
        invariant forall j | 0 <= j < total && !(deq <= j < deq + i) :: dst[j] == old(dst)[j]
      {
        var buf := queue[i];
        ops[total + i] := buf;
        assert dst[buf] == Prime(dst0[buf], sz);
        PrimeDelivered(dst0[buf], sz, f(Input(src[buf])));
        dst := dst[buf := dst[buf].(segs := Write(dst[buf].segs, f(Input(src[buf]))))];
      }
      queue := queue[numDeq..];
    }

    /** The loop that appends the bytes of the operations that came back to the output. */
    method CollectBytes(numDeq: nat)
      requires Setting() && |dst| == total && deq + numDeq <= total
      requires output == Outputs(f, src, deq)
      requires forall k | total <= k < total + numDeq :: ops[k] == deq + (k - total)
      requires forall i | deq <= i < deq + numDeq :: dst[i] == Delivered(dst0[i], f(Input(src[i])), sz)
      modifies `output
      ensures output == Outputs(f, src, deq + numDeq)
    {
      hide Prime, Finish, Delivered, Input, Readable;
      for i := 0 to numDeq
        invariant output == Outputs(f, src, deq + i)
      {
        var buf := ops[total + i];
        var produced := |f(Input(src[buf]))|;
        assert dst[buf] == Delivered(dst0[buf], f(Input(src[buf])), sz);
        DeliveredReads(dst0[buf], f(Input(src[buf])), sz);
        output := output + Content(dst[buf].segs)[..produced];
      }
    }

    /** The loop that sets the lengths of their chains to what was produced. */
    method SetLengths(numDeq: nat)
      requires Setting() && |dst| == total && deq + numDeq <= total
      requires forall k | total <= k < total + numDeq :: ops[k] == deq + (k - total)
      requires forall i | deq <= i < deq + numDeq :: dst[i] == Delivered(dst0[i], f(Input(src[i])), sz)
      modifies `dst
      ensures |dst| == total
      ensures forall i | deq <= i < deq + numDeq :: dst[i] == Finish(dst0[i].segs, f(Input(src[i])), sz)
      ensures forall i | 0 <= i < total && !(deq <= i < deq + numDeq) :: dst[i] == old(dst)[i]
    {
      hide Prime, Finish, Delivered, Input, Readable, Outputs;
      for i := 0 to numDeq
        invariant |dst| == total
        invariant forall j | deq <= j < deq + i :: dst[j] == Finish(dst0[j].segs, f(Input(src[j])), sz)
        invariant forall j | deq + i <= j < deq + numDeq :: dst[j] == Delivered(dst0[j], f(Input(src[j])), sz)
        invariant forall j | 0 <= j < total && !(deq <= j < deq + numDeq) :: dst[j] == old(dst)[j]
      {
        var buf := ops[total + i];
        var produced := |f(Input(src[buf]))|;
        DeliveredResized(dst0[buf], f(Input(src[buf])), sz);
        var segs := Resize(dst[buf].segs, produced, sz);
        dst := dst[buf := Chain(segs, produced)];
      }
    }

    /** Dequeue, collect, and give the operations back to the pool. */
    method TakeBack(give: nat) returns (numDeq: nat)
      requires Valid()
      modifies `queue, `dst, `output, `pool, `taken, `deq, ops
      ensures Valid() && numDeq == Min(Min(give, burst), |old(queue)|) && deq == old(deq) + numDeq
    {
      hide Prime, Outputs, Finish, Delivered, Input, Readable, Succeeds;
      numDeq := Dequeue(give);
      CollectBytes(numDeq);
      SetLengths(numDeq);
      pool, taken, deq := pool + numDeq, taken - numDeq, deq + numDeq;
      assert Counts() && Order();
      assert forall i | 0 <= i < total && !(old(deq) <= i < deq) :: dst[i] == old(dst)[i];
    }

    /** One iteration of the submission loop.  The pool is never short, so the error exit of
        the allocation is not there to take. */
    method Round(v: Visit)
      requires Valid() && remaining > 0
      modifies this, ops
      ensures Valid()
      ensures enq == old(enq) + Min(v.accept, Min(old(remaining), burst)) && deq >= old(deq)
    {
      hide Prime, Outputs, Finish, Delivered, Input, Readable, Succeeds;
      var numOps := Min(remaining, burst);
      var needed := numOps - unused;
      Compact();
      assert needed <= pool;
      Attach(needed);
      Enqueue(numOps, v.accept);
      assert Valid();
      var _ := TakeBack(v.give);
    }

    /** main_loop for as long as the schedule lasts. */
    method MainLoop(schedule: seq<Visit>) returns (done: bool)
      requires Valid() && enq == 0 && deq == 0
      modifies this, ops
      ensures Valid() && (done <==> deq == total)
      ensures done ==> unused == 0 && taken == 0 && pool == total && submitted == seq(total, i => i)
      ensures done ==> |dst| == total && output == Outputs(f, src, total)
      ensures done ==> forall i | 0 <= i < total :: dst[i] == Finish(dst0[i].segs, f(Input(src[i])), sz)
      ensures Eager(schedule) && |schedule| >= 2 * total ==> done
    {
      hide Prime, Outputs, Finish, Delivered, Input, Readable, Succeeds;
      var step := 0;
      ghost var eager := Eager(schedule);
      while remaining > 0 && step < |schedule|
        invariant Valid() && 0 <= step <= |schedule|
        invariant eager ==> step <= enq
        decreases |schedule| - step
      {
        assert schedule[step] in schedule;
        Round(schedule[step]);
        step := step + 1;
      }
      ghost var rounds, left := step, remaining;
      while remaining == 0 && deq < total && step < |schedule|
        invariant Valid() && 0 <= rounds <= step <= |schedule|
        invariant remaining == left && (eager ==> rounds <= enq && step - rounds <= deq)
        decreases |schedule| - step
      {
        assert schedule[step] in schedule;
        var _ := TakeBack(schedule[step].give);
        step := step + 1;
      }
      done := deq == total;
    }
  }

  /** All room of a chain counts, so the device's output is read back from its start. */
  lemma DeliveredReads(c: Chain, b: seq<Byte>, sz: nat)
    requires Uniform(c.segs, sz) && |b| <= sz * |c.segs|
    ensures var d := Delivered(c, b, sz); SegsOk(d.segs) && |b| <= |Content(d.segs)| && Content(d.segs)[..|b|] == b
    ensures |b| <= Delivered(c, b, sz).pktLen
  {
    WriteReads(Reset(c.segs), b, sz);
  }

  lemma {:induction false} WriteReads(segs: seq<Seg>, b: seq<Byte>, sz: nat)
    requires forall k | 0 <= k < |segs| :: |segs[k].mem| == sz && segs[k].dataLen == sz
    requires |b| <= sz * |segs|
    ensures var w := Write(segs, b); SegsOk(w) && |b| <= |Content(w)| && Content(w)[..|b|] == b
    decreases |segs|
  {
    if segs != [] {
      var n := Min(|b|, sz);
      var w := Write(segs, b);
      assert sz * |segs| == sz + sz * |segs[1..]|;
      WriteReads(segs[1..], b[n..], sz);
      assert w[1..] == Write(segs[1..], b[n..]);
      assert w[0].mem[..w[0].dataLen] == b[..n] + segs[0].mem[n..];
      assert b == b[..n] + b[n..];
      if n < |b| { assert segs[0].mem[n..] == []; }
    }
  }

  lemma DeliveredResized(c: Chain, b: seq<Byte>, sz: nat)
    requires Uniform(c.segs, sz) && |b| <= sz * |c.segs|
    ensures Finish(c.segs, b, sz) == Chain(SetLens(Delivered(c, b, sz).segs, |b|, sz), |b|)
    ensures |b| <= sz * |Delivered(c, b, sz).segs|
  {}

  lemma SetLensStep(segs: seq<Seg>, m: nat, n: nat, sz: nat)
    requires m < |segs| && n > 0
    ensures SetLens(segs[m..], n, sz) ==
              [segs[m].(dataLen := Min(n, sz))] + SetLens(segs[m + 1..], n - Min(n, sz), sz)
  {
    assert segs[m..][1..] == segs[m + 1..];
  }

  lemma RoomStep(sz: nat, left: nat, n: nat)
    requires 0 < n <= sz * left
    ensures left > 0 && 0 <= n - Min(n, sz) <= sz * (left - 1) && sz > 0 && Min(n, sz) > 0
  {
    assert sz * left == sz + sz * (left - 1);
  }

  /** The first m segments are done, the others as they were. */
  predicate Resizing(r: seq<Seg>, segs: seq<Seg>, m: nat, remaining: nat, sz: nat, goal: seq<Seg>) {
    && m <= |segs| == |r| && r[m..] == segs[m..]
    && r[..m] + SetLens(segs[m..], remaining, sz) == goal
  }

  lemma Regroup(a: seq<Seg>, x: Seg, c: seq<Seg>)
    ensures a + ([x] + c) == (a + [x]) + c
  {}

  lemma UpdateAt(r: seq<Seg>, m: nat, x: Seg)
    requires m < |r|
    ensures r[m := x][..m + 1] == r[..m] + [x] && r[m := x][m + 1..] == r[m..][1..]
  {}

  lemma ResizeStep(r: seq<Seg>, segs: seq<Seg>, m: nat, remaining: nat, sz: nat, goal: seq<Seg>)
    requires Resizing(r, segs, m, remaining, sz, goal) && m < |segs| && remaining > 0
    ensures var x := segs[m].(dataLen := Min(remaining, sz));
            Resizing(r[m := x], segs, m + 1, remaining - Min(remaining, sz), sz, goal)
  {
    SetLensStep(segs, m, remaining, sz);
    hide SetLens;
    var x := segs[m].(dataLen := Min(remaining, sz));
    UpdateAt(r, m, x);
    Regroup(r[..m], x, SetLens(segs[m + 1..], remaining - Min(remaining, sz), sz));
    assert segs[m..][1..] == segs[m + 1..];
  }

  lemma ResizeEnds(r: seq<Seg>, segs: seq<Seg>, m: nat, sz: nat, goal: seq<Seg>)
    requires Resizing(r, segs, m, 0, sz, goal)
    ensures r == goal
  {
    SetLensZero(segs[m..], sz);
    hide SetLens;
    assert r == r[..m] + r[m..];
  }

  /** The loop that walks the chain and sets data_len. */
  method Resize(segs: seq<Seg>, produced: nat, sz: nat) returns (r: seq<Seg>)
    requires produced <= sz * |segs|
    ensures r == SetLens(segs, produced, sz)
  {
    ResizeStarts(segs, produced, sz);
    hide SetLens, Resizing, Min;
    r := segs;
    var remaining := produced;
    var m := 0;
    while remaining > 0
      invariant 0 <= m <= |segs| == |r| && 0 <= remaining <= sz * (|segs| - m)
      invariant Resizing(r, segs, m, remaining, sz, SetLens(segs, produced, sz))
      decreases remaining
    {
      RoomStep(sz, |segs| - m, remaining);
      ResizeStep(r, segs, m, remaining, sz, SetLens(segs, produced, sz));
      var len := Min(remaining, sz);
      r := r[m := segs[m].(dataLen := len)];
      remaining := remaining - len;
      m := m + 1;
    }
    ResizeEnds(r, segs, m, sz, SetLens(segs, produced, sz));
  }

  lemma ResizeStarts(segs: seq<Seg>, n: nat, sz: nat)
    ensures Resizing(segs, segs, 0, n, sz, SetLens(segs, n, sz))
  {
    assert segs[0..] == segs;
  }

  lemma SetLensZero(segs: seq<Seg>, sz: nat)
    ensures SetLens(segs, 0, sz) == segs
  {}

  // ---------------------------------------------------------------- compress, then decompress

  /** What the buffers have to be: as many output chains as input chains, segment for segment;
      inputs packed; and room for the output of either pass. */
  predicate Fits(comp: Codec, decomp: Codec, ins: seq<Chain>, outs: seq<Chain>, segSz: nat, outSegSz: nat) {
    && |ins| == |outs|
    && (forall i | 0 <= i < |ins| :: InputChain(ins[i], segSz))
    && (forall i | 0 <= i < |outs| :: Uniform(outs[i].segs, outSegSz))
    && (forall i | 0 <= i < |ins| :: |comp(Content(ins[i].segs))| <= outSegSz * |outs[i].segs|)
    && (forall i | 0 <= i < |ins| :: |decomp(comp(Content(ins[i].segs)))| <= segSz * |ins[i].segs|)
  }

  /** The second half of the codec undoes the first on each of these buffers. */
  predicate GivesBack(comp: Codec, decomp: Codec, ins: seq<Chain>)
    requires forall i | 0 <= i < |ins| :: SegsOk(ins[i].segs)
  {
    forall i | 0 <= i < |ins| :: decomp(comp(Content(ins[i].segs))) == Content(ins[i].segs)
  }

  /** What comes out of the two passes. */
  function RoundTripped(comp: Codec, decomp: Codec, ins: seq<Chain>, n: nat): seq<Byte>
    requires n <= |ins| && forall i | 0 <= i < |ins| :: SegsOk(ins[i].segs)
  {
    if n == 0 then [] else RoundTripped(comp, decomp, ins, n - 1) + decomp(comp(Content(ins[n - 1].segs)))
  }

  predicate InputChain(c: Chain, segSz: nat) {
    SegsOk(c.segs) && Uniform(c.segs, segSz) && Packed(c.segs, segSz) && c.pktLen == |Content(c.segs)|
  }

  /** The bytes of all chains in order. */
  function AllBytes(ins: seq<Chain>, n: nat): seq<Byte>
    requires n <= |ins| && forall i | 0 <= i < |ins| :: SegsOk(ins[i].segs)
  {
    if n == 0 then [] else AllBytes(ins, n - 1) + Content(ins[n - 1].segs)
  }

  lemma InputOfChain(c: Chain, segSz: nat)
    requires InputChain(c, segSz)
    ensures Readable(c) && Input(c) == Content(c.segs)
  {
    assert Content(c.segs)[..c.pktLen] == Content(c.segs);
  }

  lemma {:induction false} PackedFits(segs: seq<Seg>, sz: nat)
    requires SegsOk(segs) && Packed(segs, sz)
    ensures |Content(segs)| <= sz * |segs|
    decreases |segs|
  {
    if |segs| == 1 {
      assert Content(segs[1..]) == [];
    } else {
      PackedFits(segs[1..], sz);
      assert sz * |segs| == sz + sz * |segs[1..]|;
    }
  }

  /** The first pass succeeds on prepared buffers. */
  lemma CompressSucceeds(comp: Codec, decomp: Codec, ins: seq<Chain>, outs: seq<Chain>, segSz: nat, outSegSz: nat)
    requires Fits(comp, decomp, ins, outs, segSz, outSegSz)
    ensures Succeeds(comp, ins, outs, outSegSz)
  {
    hide Readable, Input, Uniform;
    forall i | 0 <= i < |ins|
      ensures Readable(ins[i]) && |comp(Input(ins[i]))| <= outSegSz * |outs[i].segs|
    {
      InputOfChain(ins[i], segSz);
    }
  }

  /** After the first pass chain i holds the compressed form of input i, and nothing else counts. */
  lemma CompressedChain(comp: Codec, c: Chain, o: Chain, segSz: nat, outSegSz: nat)
    requires InputChain(c, segSz) && Uniform(o.segs, outSegSz)
    requires |comp(Content(c.segs))| <= outSegSz * |o.segs|
    ensures Readable(c)
    ensures var z := Finish(o.segs, comp(Input(c)), outSegSz);
            Readable(z) && Input(z) == comp(Content(c.segs))
  {
    InputOfChain(c, segSz);
    ReadBack(o.segs, comp(Content(c.segs)), outSegSz);
  }

  /** The second pass puts back exactly the chain the first one read. */
  lemma DecompressedChain(c: Chain, segSz: nat)
    requires InputChain(c, segSz)
    ensures Finish(c.segs, Content(c.segs), segSz) == c
  {
    Restore(c.segs, segSz);
  }

  /** The chains between the two passes. */
  predicate Compressed(comp: Codec, ins: seq<Chain>, outs: seq<Chain>, mid: seq<Chain>, outSegSz: nat)
    requires |ins| == |outs|
  {
    |mid| == |ins| && forall i | 0 <= i < |ins| ::
      Readable(ins[i]) && mid[i] == Finish(outs[i].segs, comp(Input(ins[i])), outSegSz)
  }

  lemma DecompressSucceeds(comp: Codec, decomp: Codec, ins: seq<Chain>, outs: seq<Chain>, mid: seq<Chain>,
                           segSz: nat, outSegSz: nat)
    requires Fits(comp, decomp, ins, outs, segSz, outSegSz)
    requires Compressed(comp, ins, outs, mid, outSegSz)
    ensures Succeeds(decomp, mid, ins, segSz)
    ensures forall i | 0 <= i < |ins| :: Input(mid[i]) == comp(Content(ins[i].segs))
  {
    hide Readable, Input, Uniform, Finish, Content, Packed;
    forall i | 0 <= i < |ins|
      ensures Readable(mid[i]) && Input(mid[i]) == comp(Content(ins[i].segs))
    {
      CompressedChain(comp, ins[i], outs[i], segSz, outSegSz);
    }
  }

  lemma {:induction false} OutputsRoundTrip(comp: Codec, decomp: Codec, ins: seq<Chain>, mid: seq<Chain>, n: nat)
    requires n <= |ins| == |mid| && (forall i | 0 <= i < |ins| :: SegsOk(ins[i].segs) && Readable(mid[i]))
    requires forall i | 0 <= i < |ins| :: Input(mid[i]) == comp(Content(ins[i].segs))
    ensures Outputs(decomp, mid, n) == RoundTripped(comp, decomp, ins, n)
    decreases n
  {
    if n > 0 { OutputsRoundTrip(comp, decomp, ins, mid, n - 1); }
  }

  /** A codec that gives every buffer back gives back the whole input. */
  lemma {:induction false} LosslessRoundTrip(comp: Codec, decomp: Codec, ins: seq<Chain>, n: nat)
    requires n <= |ins| && (forall i | 0 <= i < |ins| :: SegsOk(ins[i].segs)) && GivesBack(comp, decomp, ins)
    ensures RoundTripped(comp, decomp, ins, n) == AllBytes(ins, n)
    decreases n
  {
    if n > 0 { LosslessRoundTrip(comp, decomp, ins, n - 1); }
  }

  /** A lossless codec needs no more room than the input had. */
  lemma LosslessFits(comp: Codec, decomp: Codec, ins: seq<Chain>, outs: seq<Chain>, segSz: nat, outSegSz: nat)
    requires |ins| == |outs| && (forall i | 0 <= i < |ins| :: SegsOk(ins[i].segs) && InputChain(ins[i], segSz))
    requires forall i | 0 <= i < |outs| :: Uniform(outs[i].segs, outSegSz)
    requires forall i | 0 <= i < |ins| :: |comp(Content(ins[i].segs))| <= outSegSz * |outs[i].segs|
    requires GivesBack(comp, decomp, ins)
    ensures Fits(comp, decomp, ins, outs, segSz, outSegSz)
  {
    hide Content, Packed, Uniform;
    forall i | 0 <= i < |ins| ensures |decomp(comp(Content(ins[i].segs)))| <= segSz * |ins[i].segs| {
      PackedFits(ins[i].segs, segSz);
    }
  }

  /** One call of main_loop seen from outside. */
  method RunPass(f: Codec, src: seq<Chain>, dst: seq<Chain>, sz: nat, burst: nat, schedule: seq<Visit>)
    returns (done: bool, output: seq<Byte>, dst': seq<Chain>)
    requires Succeeds(f, src, dst, sz) && 1 <= burst
    ensures |src| == |dst| && forall i | 0 <= i < |src| :: Readable(src[i])
    ensures done ==> output == Outputs(f, src, |src|) && |dst'| == |src|
    ensures done ==> forall i | 0 <= i < |src| :: dst'[i] == Finish(dst[i].segs, f(Input(src[i])), sz)
    ensures Eager(schedule) && |schedule| >= 2 * |src| ==> done
  {
    hide Outputs, Finish, Input, Readable;
    var p := new Pass(f, src, dst, sz, burst);
    done := p.MainLoop(schedule);
    output, dst' := p.output, p.dst;
  }

  /** The two passes, the length check and the comparison of cperf_verification.  For every codec and
      every schedule of the device in either pass: if both passes come to an end, the verdict is
      success exactly when the bytes that came back are the input.  With a codec that gives every
      buffer back the input chains are then byte for byte and length for length what they were,
      ready for the next level.  The passes do come to an end if the device keeps moving. */
  method Verify(comp: Codec, decomp: Codec, inputData: seq<Byte>, ins: seq<Chain>, outs: seq<Chain>,
                segSz: nat, outSegSz: nat, burst: nat, s1: seq<Visit>, s2: seq<Visit>)
    returns (done: bool, success: bool, ins': seq<Chain>, outs': seq<Chain>)
    requires Fits(comp, decomp, ins, outs, segSz, outSegSz) && 1 <= burst
    requires inputData == AllBytes(ins, |ins|)
    ensures done ==> (success <==> RoundTripped(comp, decomp, ins, |ins|) == inputData)
    ensures done ==> Compressed(comp, ins, outs, outs', outSegSz)
    ensures done && GivesBack(comp, decomp, ins) ==> success && ins' == ins
    ensures Eager(s1) && Eager(s2) && |s1| >= 2 * |ins| && |s2| >= 2 * |ins| ==> done
  {
    CompressSucceeds(comp, decomp, ins, outs, segSz, outSegSz);
    var output;
    hide Outputs, Finish, Input, Readable, Content, Packed, Uniform, Succeeds, Eager;
    done, output, outs' := RunPass(comp, ins, outs, outSegSz, burst, s1);
    success, ins' := false, ins;
    if !done { return; }
    DecompressSucceeds(comp, decomp, ins, outs, outs', segSz, outSegSz);
    done, output, ins' := RunPass(decomp, outs', ins, segSz, burst, s2);
    if !done { return; }
    OutputsRoundTrip(comp, decomp, ins, outs', |ins|);
    success := |output| == |inputData| && output == inputData;
    if GivesBack(comp, decomp, ins) {
      LosslessRoundTrip(comp, decomp, ins, |ins|);
      forall i | 0 <= i < |ins| ensures ins'[i] == ins[i] {
        DecompressedChain(ins[i], segSz);
      }
    }
  }
}
