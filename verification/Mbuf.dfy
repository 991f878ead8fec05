/** Chained packet buffers, as far as the compression test and the packet copy use them. */
module Mbuf {
  import opened Numbers

  type Byte = bv8

  /** One segment: its room, of which the first dataLen bytes count. */
  datatype Seg = Seg(mem: seq<Byte>, dataLen: nat)

  predicate SegOk(s: Seg) {
    s.dataLen <= |s.mem|
  }

  predicate SegsOk(segs: seq<Seg>) {
    forall k | 0 <= k < |segs| :: SegOk(segs[k])
  }

  /** All bytes of the chain in order. */
  function Content(segs: seq<Seg>): (b: seq<Byte>)
    requires SegsOk(segs)
  {
    if segs == [] then [] else segs[0].mem[..segs[0].dataLen] + Content(segs[1..])
  }

  /** Every segment has room for exactly sz bytes. */
  predicate Uniform(segs: seq<Seg>, sz: nat) {
    forall k | 0 <= k < |segs| :: |segs[k].mem| == sz
  }

  /** rte_pktmbuf_pkt_len and the segments. */
  datatype Chain = Chain(segs: seq<Seg>, pktLen: nat)

  /** Bytes the device reads: pkt_len of them. */
  predicate Readable(c: Chain) {
    SegsOk(c.segs) && c.pktLen <= |Content(c.segs)|
  }

  function Input(c: Chain): seq<Byte>
    requires Readable(c)
  {
    Content(c.segs)[..c.pktLen]
  }

  /** The state an output chain is put in before its operation is submitted. */
  function Reset(segs: seq<Seg>): (r: seq<Seg>)
    ensures |r| == |segs| && SegsOk(r)
    ensures forall k | 0 <= k < |segs| :: r[k].mem == segs[k].mem && r[k].dataLen == |segs[k].mem|
  {
    if segs == [] then [] else [segs[0].(dataLen := |segs[0].mem|)] + Reset(segs[1..])
  }

  /** The device stores its output from the start of the chain, segment by segment. */
  function Write(segs: seq<Seg>, b: seq<Byte>): (r: seq<Seg>)
    ensures |r| == |segs|
    ensures forall k | 0 <= k < |segs| :: |r[k].mem| == |segs[k].mem| && r[k].dataLen == segs[k].dataLen
  {
    if segs == [] then []
    else
      var n := Min(|b|, |segs[0].mem|);
      [segs[0].(mem := b[..n] + segs[0].mem[n..])] + Write(segs[1..], b[n..])
  }

  /** Lengths after `n` bytes were produced: full segments of sz, then the rest; segments not
      reached keep their length. */
  function SetLens(segs: seq<Seg>, n: nat, sz: nat): (r: seq<Seg>)
    ensures |r| == |segs|
    ensures forall k | 0 <= k < |segs| :: r[k].mem == segs[k].mem
  {
    if segs == [] || n == 0 then segs
    else [segs[0].(dataLen := Min(n, sz))] + SetLens(segs[1..], n - Min(n, sz), sz)
  }

  /** An output chain after its operation: b written from the start, lengths set to match. */
  function Finish(segs: seq<Seg>, b: seq<Byte>, sz: nat): (c: Chain)
    ensures |c.segs| == |segs| && c.pktLen == |b|
  {
    Chain(SetLens(Write(Reset(segs), b), |b|, sz), |b|)
  }

  /** Filled as an input chain is: full segments of sz, a last one that is not empty. */
  predicate Packed(segs: seq<Seg>, sz: nat) {
    if |segs| <= 1 then |segs| == 1 && 1 <= segs[0].dataLen <= sz
    else segs[0].dataLen == sz && Packed(segs[1..], sz)
  }

  /** One segment after the device wrote the start of b and the lengths were set. */
  function FinishSeg(seg: Seg, b: seq<Byte>): Seg
    requires |b| <= |seg.mem|
  {
    Seg(b + seg.mem[|b|..], if b == [] then |seg.mem| else |b|)
  }

  lemma WriteNothing(segs: seq<Seg>)
    ensures Write(segs, []) == segs
  {
    if segs != [] {
      WriteNothing(segs[1..]);
      assert [] + segs[0].mem[0..] == segs[0].mem;
      var none: seq<Byte> := [];
      assert none[0..] == none;
    }
  }

  lemma FinishStep(segs: seq<Seg>, b: seq<Byte>, sz: nat)
    requires Uniform(segs, sz) && segs != []
    ensures Finish(segs, b, sz).segs ==
              [FinishSeg(segs[0], b[..Min(|b|, sz)])] + Finish(segs[1..], b[Min(|b|, sz)..], sz).segs
  {
    var n := Min(|b|, sz);
    var w := Write(Reset(segs), b);
    assert Reset(segs)[1..] == Reset(segs[1..]);
    assert w[0].mem == b[..n] + segs[0].mem[n..] && w[0].dataLen == |segs[0].mem|;
    assert w[1..] == Write(Reset(segs[1..]), b[n..]);
    if b == [] {
      WriteNothing(Reset(segs[1..]));
      assert w == [w[0]] + w[1..];
    }
  }

  /** What was written can be read back from the front. */
  lemma {:induction false} ReadBack(segs: seq<Seg>, b: seq<Byte>, sz: nat)
    requires Uniform(segs, sz) && |b| <= sz * |segs|
    ensures var r := Finish(segs, b, sz).segs;
            SegsOk(r) && |b| <= |Content(r)| && Content(r)[..|b|] == b
    decreases |segs|
  {
    hide Write, SetLens, Reset, Finish;
    if segs != [] {
      var n := Min(|b|, sz);
      FinishStep(segs, b, sz);
      assert sz * |segs| == sz + sz * |segs[1..]|;
      ReadBack(segs[1..], b[n..], sz);
      var r := Finish(segs, b, sz).segs;
      var tail := Finish(segs[1..], b[n..], sz).segs;
      assert r[1..] == tail;
      SegsOkCons(r);
      if b != [] {
        assert r[0].mem[..r[0].dataLen] == b[..n];
        assert Content(r) == b[..n] + Content(tail);
        assert b == b[..n] + b[n..];
      }
    } else {
      assert b == [];
    }
  }

  lemma SegsOkCons(segs: seq<Seg>)
    requires segs != [] && SegOk(segs[0]) && SegsOk(segs[1..])
    ensures SegsOk(segs)
  {
    forall k | 0 <= k < |segs| ensures SegOk(segs[k]) {
      if k > 0 { assert segs[k] == segs[1..][k - 1]; }
    }
  }

  /** Writing a packed chain's own bytes over it and setting the lengths restores it. */
  lemma {:induction false} Restore(segs: seq<Seg>, sz: nat)
    requires Uniform(segs, sz) && SegsOk(segs) && Packed(segs, sz)
    ensures Finish(segs, Content(segs), sz).segs == segs
    decreases |segs|
  {
    hide Write, SetLens, Reset;
    var b := Content(segs);
    var n := Min(|b|, sz);
    FinishStep(segs, b, sz);
    if |segs| == 1 {
      assert Content(segs[1..]) == [];
      assert b == segs[0].mem[..segs[0].dataLen];
      assert Finish([], b[n..], sz).segs == [];
    } else {
      assert b[n..] == Content(segs[1..]) && b[..n] == segs[0].mem[..sz];
      Restore(segs[1..], sz);
    }
    assert FinishSeg(segs[0], b[..n]) == segs[0];
    assert [segs[0]] + segs[1..] == segs;
  }
}
