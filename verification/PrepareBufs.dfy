/** Buffer set-up of test-compress-perf/main.c: comp_perf_allocate_memory sizes the pools, and
  prepare_bufs cuts the input into chains of segments. */
module PrepareBufs {
  import opened CompressVerify
  import opened Device
  import opened Mbuf
  import opened Numbers

  /** DIV_CEIL */
  function DivCeil(a: nat, b: nat): nat
    requires b > 0
  {
    a / b + if a % b != 0 then 1 else 0
  }

  /** k pieces do not yet cover a exactly when k is below the rounded-up quotient. */
  lemma DivCeilBound(a: nat, b: nat, k: nat)
    requires b > 0
    ensures k < DivCeil(a, b) <==> k * b < a
  {
    assert a == (a / b) * b + a % b;
    if k <= a / b { MulMono(k, a / b, b); }
    if k >= a / b + 1 { MulMono(a / b + 1, k, b); }
  }

  /** An mbuf fresh from its pool with `b` appended. */
  function Filled(b: seq<Byte>, room: nat): (s: Seg)
    requires |b| <= room
    ensures SegOk(s) && |s.mem| == room && s.mem[..s.dataLen] == b
  {
    Seg(b + seq(room - |b|, _ => 0), |b|)
  }

  lemma {:induction false} ContentSnoc(segs: seq<Seg>, s: Seg)
    requires SegsOk(segs) && SegOk(s)
    ensures SegsOk(segs + [s]) && Content(segs + [s]) == Content(segs) + s.mem[..s.dataLen]
    decreases |segs|
  {
    if segs == [] {
      assert [s][1..] == [] && segs + [s] == [s];
    } else {
      assert (segs + [s])[1..] == segs[1..] + [s];
      ContentSnoc(segs[1..], s);
    }
  }

  lemma {:induction false} PackedSnoc(segs: seq<Seg>, s: Seg, sz: nat)
    requires Packed(segs, sz) && segs[|segs| - 1].dataLen == sz && 1 <= s.dataLen <= sz
    ensures Packed(segs + [s], sz)
    decreases |segs|
  {
    if |segs| > 1 {
      assert (segs + [s])[1..] == segs[1..] + [s];
      PackedSnoc(segs[1..], s, sz);
    } else {
      assert (segs + [s])[1..] == [s];
    }
  }

  /** One more segment of input on a chain whose segments so far are full. */
  lemma Extend(segs: seq<Seg>, s: Seg, sz: nat)
    requires SegOk(s) && |s.mem| == sz && 1 <= s.dataLen <= sz
    requires SegsOk(segs)
    requires segs == [] || (InputChain(Chain(segs, |Content(segs)|), sz) && segs[|segs| - 1].dataLen == sz)
    ensures SegsOk(segs + [s]) && Content(segs + [s]) == Content(segs) + s.mem[..s.dataLen]
    ensures InputChain(Chain(segs + [s], |Content(segs + [s])|), sz)
  {
    ContentSnoc(segs, s);
    if segs != [] { PackedSnoc(segs, s, sz); } else { assert [] + [s] == [s]; }
  }

  /** Input consumed by the first k segments. */
  function Pos(size: nat, seg: nat, k: nat): (p: nat)
    ensures p <= size
  {
    Min(k * seg, size)
  }

  lemma PosStep(size: nat, seg: nat, k: nat)
    requires seg > 0 && k < DivCeil(size, seg)
    ensures Pos(size, seg, k) < size
    ensures Pos(size, seg, k + 1) == Pos(size, seg, k) + Min(size - Pos(size, seg, k), seg)
    ensures Pos(size, seg, k + 1) < size <==> k + 1 < DivCeil(size, seg)
  {
    DivCeilBound(size, seg, k);
    DivCeilBound(size, seg, k + 1);
    assert (k + 1) * seg == k * seg + seg;
  }

  /** segs is an input chain, or nothing yet, holding the input from start to pos; while more
      is to come all its segments are full. */
  predicate Covers(input: seq<Byte>, seg: nat, start: nat, pos: nat, segs: seq<Seg>) {
    && start <= pos <= |input| && SegsOk(segs) && Content(segs) == input[start..pos]
    && (segs != [] ==> InputChain(Chain(segs, |Content(segs)|), seg))
    && (segs != [] && pos < |input| ==> segs[|segs| - 1].dataLen == seg)
  }

  lemma CoversNothing(input: seq<Byte>, seg: nat, start: nat)
    requires start <= |input|
    ensures Covers(input, seg, start, start, [])
  {}

  lemma JoinSlices(input: seq<Byte>, a: nat, b: nat, c: nat)
    requires a <= b <= c <= |input|
    ensures input[a..b] + input[b..c] == input[a..c]
  {}

  lemma CoversMore(input: seq<Byte>, seg: nat, start: nat, pos: nat, segs: seq<Seg>)
    requires Covers(input, seg, start, pos, segs) && pos < |input| && seg > 0
    ensures var n := Min(|input| - pos, seg);
            Covers(input, seg, start, pos + n, segs + [Filled(input[pos..pos + n], seg)])
  {
    var n := Min(|input| - pos, seg);
    hide Content, Packed, InputChain, Filled, Uniform, SegsOk;
    Extend(segs, Filled(input[pos..pos + n], seg), seg);
    JoinSlices(input, start, pos, pos + n);
  }

  lemma CoversChain(input: seq<Byte>, seg: nat, start: nat, pos: nat, segs: seq<Seg>)
    requires Covers(input, seg, start, pos, segs) && segs != []
    ensures SegsOk(segs) && InputChain(Chain(segs, |Content(segs)|), seg) && Content(segs) == input[start..pos]
    ensures start <= pos <= |input|
  {}

  /** The chain under way after n segments of it. */
  predicate Filling(input: seq<Byte>, seg: nat, drawn: nat, n: nat, segs: seq<Seg>) {
    && seg > 0 && drawn + n <= DivCeil(|input|, seg) && |segs| == n
    && Covers(input, seg, Pos(|input|, seg, drawn), Pos(|input|, seg, drawn + n), segs)
  }

  lemma FillingMore(input: seq<Byte>, seg: nat, drawn: nat, n: nat, segs: seq<Seg>)
    requires Filling(input, seg, drawn, n, segs) && drawn + n < DivCeil(|input|, seg)
    ensures var pos, next := Pos(|input|, seg, drawn + n), Pos(|input|, seg, drawn + n + 1);
            && next == pos + Min(|input| - pos, seg)
            && (next < |input| <==> drawn + n + 1 < DivCeil(|input|, seg))
            && Filling(input, seg, drawn, n + 1, segs + [Filled(input[pos..pos + Min(|input| - pos, seg)], seg)])
  {
    PosStep(|input|, seg, drawn + n);
    hide DivCeil, Pos, Covers, Filled;
    CoversMore(input, seg, Pos(|input|, seg, drawn), Pos(|input|, seg, drawn + n), segs);
  }

  lemma FillingStarts(input: seq<Byte>, seg: nat, drawn: nat)
    requires seg > 0 && drawn < DivCeil(|input|, seg)
    ensures Filling(input, seg, drawn, 0, [])
  {
    CoversNothing(input, seg, Pos(|input|, seg, drawn));
  }

  lemma FillingIsChain(input: seq<Byte>, seg: nat, drawn: nat, n: nat, segs: seq<Seg>)
    requires Filling(input, seg, drawn, n, segs) && n > 0
    ensures SegsOk(segs) && InputChain(Chain(segs, |Content(segs)|), seg)
    ensures Pos(|input|, seg, drawn) <= Pos(|input|, seg, drawn + n) <= |input|
    ensures Content(segs) == input[Pos(|input|, seg, drawn)..Pos(|input|, seg, drawn + n)]
  {
    hide DivCeil, Pos;
    CoversChain(input, seg, Pos(|input|, seg, drawn), Pos(|input|, seg, drawn + n), segs);
  }

  /** What the chain under way is: part of the data while there is some, a single empty segment
      after that. */
  predicate Underway(data: seq<Byte>, seg: nat, drawn: nat, n: nat, segs: seq<Seg>)
    requires seg > 0
  {
    if drawn < DivCeil(|data|, seg) then Filling(data, seg, drawn, n, segs)
    else n == 1 && segs == [Filled([], seg)]
  }

  lemma UnderwayStarts(data: seq<Byte>, seg: nat, drawn: nat)
    requires seg > 0 && drawn <= DivCeil(|data|, seg)
    ensures var pos := Pos(|data|, seg, drawn);
            var size := Min(|data| - pos, seg);
            && pos + size == Pos(|data|, seg, drawn + 1)
            && (pos + size < |data| <==> drawn + 1 < DivCeil(|data|, seg))
            && Underway(data, seg, drawn, 1, [Filled(data[pos..pos + size], seg)])
  {
    if drawn < DivCeil(|data|, seg) {
      hide Pos, DivCeil, Filling, Filled;
      FillingStarts(data, seg, drawn);
      FillingMore(data, seg, drawn, 0, []);
      var pos := Pos(|data|, seg, drawn);
      assert [] + [Filled(data[pos..pos + Min(|data| - pos, seg)], seg)] == [Filled(data[pos..pos + Min(|data| - pos, seg)], seg)];
    } else {
      PosEnd(|data|, seg);
      MulMono(drawn, drawn + 1, seg);
      assert data[|data|..|data|] == [];
    }
  }

  lemma UnderwayEnds(data: seq<Byte>, seg: nat, drawn: nat, n: nat, segs: seq<Seg>)
    requires seg > 0 && drawn <= DivCeil(|data|, seg) && n > 0 && Underway(data, seg, drawn, n, segs)
    ensures SegsOk(segs) && |segs| == n
    ensures drawn < DivCeil(|data|, seg) ==> InputChain(Chain(segs, |Content(segs)|), seg)
    ensures Pos(|data|, seg, drawn) <= Pos(|data|, seg, drawn + n)
    ensures Content(segs) == data[Pos(|data|, seg, drawn)..Pos(|data|, seg, drawn + n)]
  {
    if drawn < DivCeil(|data|, seg) {
      FillingIsChain(data, seg, drawn, n, segs);
    } else {
      PosEnd(|data|, seg);
      MulMono(drawn, drawn + 1, seg);
      assert segs[1..] == [];
    }
  }

  /** The loops for one input buffer: segments are taken from the pool and data from the input
      until the chain is full, the data is used up or the pool is empty.  `left` segments are in
      the pool; `drawn` segments of data went before. */
  method FillChain(data: seq<Byte>, pos: nat, seg: nat, maxSegs: nat, left: nat, ghost drawn: nat)
    returns (ok: bool, c: Chain, n: nat, pos': nat)
    requires seg > 0 && maxSegs > 0 && drawn <= DivCeil(|data|, seg) && pos == Pos(|data|, seg, drawn)
    ensures drawn < DivCeil(|data|, seg) && Min(maxSegs, DivCeil(|data|, seg) - drawn) <= left ==> ok
    ensures ok ==> 1 <= n <= left && n <= maxSegs && |c.segs| == n && SegsOk(c.segs)
    ensures ok && drawn < DivCeil(|data|, seg) ==>
              InputChain(c, seg) && n == Min(maxSegs, DivCeil(|data|, seg) - drawn)
    ensures ok && drawn == DivCeil(|data|, seg) ==> n == 1
    ensures ok ==> pos <= pos' == Pos(|data|, seg, drawn + n) && Content(c.segs) == data[pos..pos']
  {
    c, n, pos' := Chain([], 0), 0, pos;
    if left == 0 { return false, c, n, pos'; }
    UnderwayStarts(data, seg, drawn);
    hide Pos, DivCeil, Packed, Content, Filled, InputChain, Underway, Filling;
    var remaining := |data| - pos;
    var size := Min(remaining, seg);
    var segs := [Filled(data[pos..pos + size], seg)];
    pos', remaining := pos + size, remaining - size;
    n := 1;
    while n < maxSegs && remaining > 0
      invariant 1 <= n <= maxSegs && n <= left && pos' == Pos(|data|, seg, drawn + n) && remaining == |data| - pos'
      invariant remaining > 0 <==> drawn + n < DivCeil(|data|, seg)
      invariant drawn < DivCeil(|data|, seg) ==> drawn + n <= DivCeil(|data|, seg)
      invariant drawn == DivCeil(|data|, seg) ==> n == 1
      invariant |segs| == n && Underway(data, seg, drawn, n, segs)
      decreases maxSegs - n
    {
      if n == left { return false, c, n, pos'; }
      UnderwayMore(data, seg, drawn, n, segs);
      size := Min(remaining, seg);
      segs := segs + [Filled(data[pos'..pos' + size], seg)];
      pos', remaining := pos' + size, remaining - size;
      n := n + 1;
    }
    UnderwayEnds(data, seg, drawn, n, segs);
    ok, c := true, Chain(segs, |Content(segs)|);
  }

  lemma UnderwayMore(data: seq<Byte>, seg: nat, drawn: nat, n: nat, segs: seq<Seg>)
    requires seg > 0 && Underway(data, seg, drawn, n, segs) && drawn + n < DivCeil(|data|, seg)
    ensures var pos, next := Pos(|data|, seg, drawn + n), Pos(|data|, seg, drawn + n + 1);
            && next == pos + Min(|data| - pos, seg)
            && (next < |data| <==> drawn + n + 1 < DivCeil(|data|, seg))
            && Underway(data, seg, drawn, n + 1, segs + [Filled(data[pos..pos + Min(|data| - pos, seg)], seg)])
  {
    hide Pos, DivCeil, Filled, Filling;
    FillingMore(data, seg, drawn, n, segs);
  }

  /** The output chain: as many segments, each appended to the full. */
  method OutChain(n: nat, outSeg: nat) returns (c: Chain)
    requires n >= 1
    ensures |c.segs| == n && Uniform(c.segs, outSeg) && SegsOk(c.segs) && c.pktLen == outSeg * n
    ensures forall k | 0 <= k < n :: c.segs[k].dataLen == outSeg
  {
    var segs := [Filled(seq(outSeg, _ => 0), outSeg)];
    for j := 1 to n
      invariant |segs| == j && Uniform(segs, outSeg) && SegsOk(segs)
      invariant forall k | 0 <= k < j :: segs[k].dataLen == outSeg
    {
      segs := segs + [Filled(seq(outSeg, _ => 0), outSeg)];
    }
    c := Chain(segs, outSeg * n);
  }

  /** Number of buffers. */
  function TotalBufs(size: nat, seg: nat, maxSegs: nat): nat
    requires seg > 0 && maxSegs > 0
  {
    DivCeil(DivCeil(size, seg), maxSegs)
  }

  lemma ChainStep(total: nat, maxSegs: nat, i: nat)
    requires maxSegs > 0 && i < DivCeil(total, maxSegs)
    ensures Pos(total, maxSegs, i) < total
    ensures Pos(total, maxSegs, i + 1) == Pos(total, maxSegs, i) + Min(maxSegs, total - Pos(total, maxSegs, i))
    ensures i + 1 == DivCeil(total, maxSegs) ==> Pos(total, maxSegs, i + 1) == total
  {
    PosStep(total, maxSegs, i);
  }

  lemma AllBytesSnoc(ins: seq<Chain>, c: Chain, n: nat)
    requires n <= |ins| && (forall i | 0 <= i < |ins| :: SegsOk(ins[i].segs)) && SegsOk(c.segs)
    ensures forall i | 0 <= i < |ins + [c]| :: SegsOk((ins + [c])[i].segs)
    ensures AllBytes(ins + [c], n) == AllBytes(ins, n)
    ensures n == |ins| ==> AllBytes(ins + [c], n + 1) == AllBytes(ins, n) + Content(c.segs)
    decreases n
  {
    if n > 0 { AllBytesSnoc(ins, c, n - 1); }
  }

  /** The segments of the first n chains. */
  function SegCount(cs: seq<Chain>, n: nat): nat
    requires n <= |cs|
  {
    if n == 0 then 0 else SegCount(cs, n - 1) + |cs[n - 1].segs|
  }

  lemma {:induction false} SegCountSnoc(cs: seq<Chain>, c: Chain, n: nat)
    requires n <= |cs|
    ensures SegCount(cs + [c], n) == SegCount(cs, n)
    ensures n == |cs| ==> SegCount(cs + [c], n + 1) == SegCount(cs, n) + |c.segs|
    decreases n
  {
    if n > 0 { SegCountSnoc(cs, c, n - 1); }
  }

  /** The first buffer pairs are ready and hold the data as far as `drawn` segments go.  When
      `exact`, every one of them holds some. */
  predicate Ready(data: seq<Byte>, seg: nat, maxSegs: nat, outSeg: nat, ins: seq<Chain>, outs: seq<Chain>,
                  drawn: nat, exact: bool) {
    && |ins| == |outs|
    && (forall j | 0 <= j < |ins| :: SegsOk(ins[j].segs) && 1 <= |ins[j].segs| <= maxSegs)
    && (forall j | 0 <= j < |outs| :: |outs[j].segs| == |ins[j].segs| && Uniform(outs[j].segs, outSeg))
    && AllBytes(ins, |ins|) == data[0..Pos(|data|, seg, drawn)]
    && (exact ==> SegCount(ins, |ins|) == SegCount(outs, |outs|) == drawn)
    && (exact ==> forall j | 0 <= j < |ins| :: InputChain(ins[j], seg))
  }

  lemma ReadyStart(data: seq<Byte>, seg: nat, maxSegs: nat, outSeg: nat, exact: bool)
    ensures Ready(data, seg, maxSegs, outSeg, [], [], 0, exact)
  {
    PosStart(|data|, seg);
  }

  lemma ReadyMore(data: seq<Byte>, seg: nat, maxSegs: nat, outSeg: nat, ins: seq<Chain>, outs: seq<Chain>,
                  drawn: nat, exact: bool, c: Chain, o: Chain, drawn': nat)
    requires Ready(data, seg, maxSegs, outSeg, ins, outs, drawn, exact)
    requires SegsOk(c.segs) && 1 <= |c.segs| == |o.segs| <= maxSegs && Uniform(o.segs, outSeg)
    requires exact ==> InputChain(c, seg) && drawn' == drawn + |c.segs|
    requires Pos(|data|, seg, drawn) <= Pos(|data|, seg, drawn')
    requires Content(c.segs) == data[Pos(|data|, seg, drawn)..Pos(|data|, seg, drawn')]
    ensures Ready(data, seg, maxSegs, outSeg, ins + [c], outs + [o], drawn', exact)
  {
    hide Pos, InputChain, Content, Packed, Uniform, SegCount, AllBytes, SegsOk;
    AllBytesSnoc(ins, c, |ins|);
    SegCountSnoc(ins, c, |ins|);
    SegCountSnoc(outs, o, |outs|);
    JoinSlices(data, 0, Pos(|data|, seg, drawn), Pos(|data|, seg, drawn'));
  }

  /** prepare_bufs with the pools it draws from, remaining_data and the segment count in 32 bits.
      Below 2^32 bytes no pool runs dry: the result is exactly TotalBufs chains of one to maxSegs
      segments whose concatenation is the input, every output chain has as many segments as its
      input chain, and each pool gives out exactly what it was created with.  The chains hold the
      input only then. */
  method Prepare(input: seq<Byte>, seg: nat, maxSegs: nat, outSeg: nat)
    returns (ok: bool, ins: seq<Chain>, outs: seq<Chain>)
    requires input != [] && seg > 0 && maxSegs > 0
    ensures ok ==> forall i | 0 <= i < |ins| :: SegsOk(ins[i].segs)
    ensures ok && AllBytes(ins, |ins|) == input <==> |input| < U32
    ensures |input| < U32 ==> |ins| == |outs| == TotalBufs(|input|, seg, maxSegs)
    ensures |input| < U32 ==> forall i | 0 <= i < |ins| :: InputChain(ins[i], seg) && 1 <= |ins[i].segs| <= maxSegs
    ensures (|input| < U32 ==>
               forall i | 0 <= i < |outs| :: |outs[i].segs| == |ins[i].segs| && Uniform(outs[i].segs, outSeg))
    ensures |input| < U32 ==> SegCount(ins, |ins|) == SegCount(outs, |outs|) == DivCeil(|input|, seg)
  {
    var totalSegs := DivCeil(|input|, seg) % U32;
    var totalBufs := DivCeil(totalSegs, maxSegs);
    var remaining: nat := |input| % U32;
    var data := input[..remaining];
    ghost var exact := |input| < U32;
    StageStart(|input|, seg, maxSegs);
    ReadyStart(data, seg, maxSegs, outSeg, exact);
    hide Pos, DivCeil, InputChain, Content, Packed, Uniform, SegCount, AllBytes, SegsOk, Ready, Stage, TotalBufs, Min;
    ins, outs := [], [];
    var pos: nat, left: nat := 0, totalSegs;
    ghost var drawn: nat := 0;
    for i := 0 to totalBufs
      invariant |ins| == |outs| == i && pos == Pos(remaining, seg, drawn) && drawn <= DivCeil(remaining, seg)
      invariant Stage(|input|, seg, maxSegs, i, drawn, left)
      invariant Ready(data, seg, maxSegs, outSeg, ins, outs, drawn, exact)
    {
      StageFits(|input|, seg, maxSegs, i, drawn, left);
      var c, n;
      ok, c, n, pos := FillChain(data, pos, seg, maxSegs, left, drawn);
      if !ok { return; }
      var o := OutChain(n, outSeg);
      ghost var drawn' := if drawn < DivCeil(remaining, seg) then drawn + n else drawn;
      StageStep(|input|, seg, maxSegs, i, drawn, left, n, drawn');
      ReadyMore(data, seg, maxSegs, outSeg, ins, outs, drawn, exact, c, o, drawn');
      ins, outs, left, drawn := ins + [c], outs + [o], left - n, drawn';
    }
    StageEnd(|input|, seg, maxSegs, drawn, left);
    ReadyFacts(data, seg, maxSegs, outSeg, ins, outs, drawn, exact);
    Sizes(|input|, seg);
    HoldsInput(input, AllBytes(ins, |ins|), remaining, Pos(remaining, seg, drawn));
    ok := true;
  }

  /** Where the loop of prepare_bufs stands before buffer i. */
  ghost predicate Stage(size: nat, seg: nat, maxSegs: nat, i: nat, drawn: nat, left: nat)
    requires seg > 0 && maxSegs > 0
  {
    var total := DivCeil(size, seg) % U32;
    && drawn <= DivCeil(size % U32, seg)
    && (size < U32 ==>
          && DivCeil(size % U32, seg) == total == DivCeil(size, seg)
          && drawn == Pos(total, maxSegs, i) && left == total - drawn)
  }

  lemma StageStart(size: nat, seg: nat, maxSegs: nat)
    requires seg > 0 && maxSegs > 0
    ensures Stage(size, seg, maxSegs, 0, 0, DivCeil(size, seg) % U32) && Pos(size % U32, seg, 0) == 0
    ensures size < U32 ==> DivCeil(DivCeil(size, seg) % U32, maxSegs) == TotalBufs(size, seg, maxSegs)
  {
    Sizes(size, seg);
    PosStart(size % U32, seg);
    PosStart(DivCeil(size, seg) % U32, maxSegs);
    hide DivCeil, Pos;
  }

  lemma StageFits(size: nat, seg: nat, maxSegs: nat, i: nat, drawn: nat, left: nat)
    requires seg > 0 && maxSegs > 0 && Stage(size, seg, maxSegs, i, drawn, left)
    requires i < DivCeil(DivCeil(size, seg) % U32, maxSegs)
    ensures (size < U32 ==>
               && drawn < DivCeil(size % U32, seg)
               && Min(maxSegs, DivCeil(size % U32, seg) - drawn) <= left)
  {
    ChainStep(DivCeil(size, seg) % U32, maxSegs, i);
    hide DivCeil, Pos;
  }

  lemma StageStep(size: nat, seg: nat, maxSegs: nat, i: nat, drawn: nat, left: nat, n: nat, drawn': nat)
    requires seg > 0 && maxSegs > 0 && Stage(size, seg, maxSegs, i, drawn, left)
    requires i < DivCeil(DivCeil(size, seg) % U32, maxSegs) && n <= left
    requires drawn < DivCeil(size % U32, seg) ==> n == Min(maxSegs, DivCeil(size % U32, seg) - drawn)
    requires drawn' == if drawn < DivCeil(size % U32, seg) then drawn + n else drawn
    ensures Stage(size, seg, maxSegs, i + 1, drawn', left - n)
    ensures Pos(size % U32, seg, drawn + n) == Pos(size % U32, seg, drawn')
    ensures size < U32 ==> drawn' == drawn + n
  {
    ChainStep(DivCeil(size, seg) % U32, maxSegs, i);
    StaysAtEnd(size % U32, seg, drawn + n);
    hide DivCeil, Pos;
  }

  lemma StageEnd(size: nat, seg: nat, maxSegs: nat, drawn: nat, left: nat)
    requires seg > 0 && maxSegs > 0
    requires Stage(size, seg, maxSegs, DivCeil(DivCeil(size, seg) % U32, maxSegs), drawn, left)
    ensures size < U32 ==> drawn == DivCeil(size, seg) && Pos(size % U32, seg, drawn) == size
  {
    Sizes(size, seg);
    PosEnd(size, seg);
    PosEnd(DivCeil(size, seg) % U32, maxSegs);
    hide DivCeil, Pos;
  }

  lemma HoldsInput(input: seq<Byte>, held: seq<Byte>, size: nat, pos: nat)
    requires pos <= size <= |input| && held == input[..size][0..pos]
    ensures held == input <==> pos == |input|
  {
    assert |held| == pos;
  }

  /** Beyond the last segment of data there is nothing more. */
  lemma StaysAtEnd(size: nat, seg: nat, k: nat)
    requires seg > 0
    ensures k >= DivCeil(size, seg) ==> Pos(size, seg, k) == size == Pos(size, seg, DivCeil(size, seg))
  {
    PosEnd(size, seg);
    if k >= DivCeil(size, seg) { MulMono(DivCeil(size, seg), k, seg); }
  }

  /** Below 2^32 bytes neither size is cut. */
  lemma Sizes(size: nat, seg: nat)
    requires seg > 0
    ensures size < U32 <==> size % U32 == size
    ensures size < U32 ==> DivCeil(size, seg) % U32 == DivCeil(size, seg)
  {
    if size < U32 {
      DivMod(size, U32, 0, size);
      DivCeilBound(size, seg, size);
      MulMono(1, seg, size);
      DivMod(DivCeil(size, seg), U32, 0, DivCeil(size, seg));
    }
  }

  lemma ReadyFacts(data: seq<Byte>, seg: nat, maxSegs: nat, outSeg: nat, ins: seq<Chain>, outs: seq<Chain>,
                   drawn: nat, exact: bool)
    requires Ready(data, seg, maxSegs, outSeg, ins, outs, drawn, exact)
    ensures |ins| == |outs|
    ensures forall i | 0 <= i < |ins| :: SegsOk(ins[i].segs) && 1 <= |ins[i].segs| <= maxSegs
    ensures forall i | 0 <= i < |outs| :: |outs[i].segs| == |ins[i].segs| && Uniform(outs[i].segs, outSeg)
    ensures exact ==> SegCount(ins, |ins|) == SegCount(outs, |outs|) == drawn
    ensures exact ==> forall i | 0 <= i < |ins| :: InputChain(ins[i], seg)
    ensures AllBytes(ins, |ins|) == data[0..Pos(|data|, seg, drawn)]
  {}

  lemma PosStart(size: nat, seg: nat)
    ensures Pos(size, seg, 0) == 0
  {}

  lemma PosEnd(size: nat, seg: nat)
    requires seg > 0
    ensures Pos(size, seg, DivCeil(size, seg)) == size
  {
    DivCeilBound(size, seg, DivCeil(size, seg));
  }

  /** A compression level: the codec of the device, and its schedule in either pass. */
  datatype Level = Level(comp: Codec, decomp: Codec, s1: seq<Visit>, s2: seq<Visit>)

  /** Between levels only the bytes and lengths of the output chains change. */
  lemma PreparedAgain(comp: Codec, decomp: Codec, prev: Codec, ins: seq<Chain>, outs: seq<Chain>, mid: seq<Chain>,
                      segSz: nat, outSegSz: nat)
    requires Fits(comp, decomp, ins, outs, segSz, outSegSz)
    requires Compressed(prev, ins, outs, mid, outSegSz)
    ensures Fits(comp, decomp, ins, mid, segSz, outSegSz)
  {
    hide Content, Packed, Readable, Input;
    forall i | 0 <= i < |mid| ensures Uniform(mid[i].segs, outSegSz) && |mid[i].segs| == |outs[i].segs| {
      FinishShape(outs[i].segs, prev(Input(ins[i])), outSegSz);
    }
  }

  lemma FinishShape(segs: seq<Seg>, b: seq<Byte>, sz: nat)
    requires Uniform(segs, sz)
    ensures Uniform(Finish(segs, b, sz).segs, sz)
  {}

  /** A level gives back every buffer, or what it gives back is not the input. */
  predicate Decided(l: Level, input: seq<Byte>, ins: seq<Chain>)
    requires forall i | 0 <= i < |ins| :: SegsOk(ins[i].segs)
  {
    GivesBack(l.comp, l.decomp, ins) || RoundTripped(l.comp, l.decomp, ins, |ins|) != input
  }

  /** The level loop of main.  It goes on as long as levels give back the input, whatever the ones
      before left in the buffers, and fails at the first one that does not; otherwise it ends early
      only where the device's schedule does. */
  method RunLevels(levels: seq<Level>, input: seq<Byte>, ins: seq<Chain>, outs: seq<Chain>,
                   segSz: nat, outSegSz: nat, burst: nat) returns (finished: nat, failed: bool)
    requires 1 <= burst && forall l | l in levels :: Fits(l.comp, l.decomp, ins, outs, segSz, outSegSz)
    requires (forall i | 0 <= i < |ins| :: SegsOk(ins[i].segs)) && input == AllBytes(ins, |ins|)
    requires forall l | l in levels :: Decided(l, input, ins)
    ensures finished <= |levels| && forall k | 0 <= k < finished :: GivesBack(levels[k].comp, levels[k].decomp, ins)
    ensures failed ==> finished < |levels| && !GivesBack(levels[finished].comp, levels[finished].decomp, ins)
    ensures (forall l | l in levels :: Eager(l.s1) && Eager(l.s2) && |l.s1| >= 2 * |ins| && |l.s2| >= 2 * |ins|)
            ==> (failed <==> finished < |levels|)
  {
    hide Fits, GivesBack, RoundTripped, Eager, AllBytes, Compressed;
    var ins', outs' := ins, outs;
    finished, failed := 0, false;
    while finished < |levels|
      invariant finished <= |levels| && ins' == ins
      invariant forall k | 0 <= k < finished :: GivesBack(levels[k].comp, levels[k].decomp, ins)
      invariant forall l | l in levels :: Fits(l.comp, l.decomp, ins, outs', segSz, outSegSz)
      decreases |levels| - finished
    {
      var l := levels[finished];
      assert l in levels && Decided(l, input, ins);
      if GivesBack(l.comp, l.decomp, ins) { LosslessRoundTrip(l.comp, l.decomp, ins, |ins|); }
      var done, success, mid;
      ghost var was := outs';
      done, success, ins', mid := Verify(l.comp, l.decomp, input, ins', outs', segSz, outSegSz, burst, l.s1, l.s2);
      if !done { return; }
      if !success { return finished, true; }
      outs' := mid;
      forall k | k in levels ensures Fits(k.comp, k.decomp, ins, outs', segSz, outSegSz) {
        PreparedAgain(k.comp, k.decomp, l.comp, ins, was, mid, segSz, outSegSz);
      }
      finished := finished + 1;
    }
  }

  // ---------------------------------------------------------------- reading the input file

  /** data is the file over and over. */
  predicate Repeats(file: seq<Byte>, data: seq<Byte>) {
    forall i | 0 <= i < |data| :: file != [] && data[i] == file[i % |file|]
  }

  lemma RepeatsMore(file: seq<Byte>, data: seq<Byte>, q: nat, chunk: nat)
    requires Repeats(file, data) && |data| == q * |file| && chunk <= |file|
    ensures Repeats(file, data + file[..chunk])
  {
    var more := data + file[..chunk];
    forall i | 0 <= i < |more| ensures file != [] && more[i] == file[i % |file|] {
      if i >= |data| { DivMod(i, |file|, q, i - |data|); }
    }
  }

  /** comp_perf_dump_input_data: the file is read over and over until the wanted size is reached.
      An empty file cannot be extended, and there is no memory of size zero to read it into. */
  method ReadInput(file: seq<Byte>, wanted: nat) returns (ok: bool, data: seq<Byte>)
    ensures ok <==> file != []
    ensures ok ==> |data| == if wanted == 0 then |file| else wanted
    ensures ok ==> Repeats(file, data)
  {
    hide Repeats;
    var size := if wanted == 0 then |file| else wanted;
    data := [];
    if size == 0 { return false, data; }
    var remaining := size;
    ghost var q := 0;
    assert Repeats(file, data) by { NothingRepeats(file); }
    while remaining > 0
      invariant 0 <= remaining <= size && |data| == size - remaining
      invariant remaining > 0 ==> |data| == q * |file|
      invariant Repeats(file, data) && (data != [] ==> file != [])
    {
      var chunk := Min(remaining, |file|);
      if chunk == 0 { return false, []; }
      RepeatsMore(file, data, q, chunk);
      assert (q + 1) * |file| == q * |file| + |file|;
      data := data + file[..chunk];
      remaining := remaining - chunk;
      q := q + 1;
    }
    ok := true;
  }

  lemma NothingRepeats(file: seq<Byte>)
    ensures Repeats(file, [])
  {}

  // ---------------------------------------------------------------- the whole test

  /** A codec that gives back every non-empty input, with output that fits as many output segments
      as the input has segments. */
  ghost predicate Lossless(comp: Codec, decomp: Codec, seg: nat, outSeg: nat) {
    && seg > 0
    && forall b: seq<Byte> | b != [] :: decomp(comp(b)) == b && |comp(b)| <= outSeg * DivCeil(|b|, seg)
  }

  lemma {:induction false} PackedLength(segs: seq<Seg>, sz: nat)
    requires SegsOk(segs) && Packed(segs, sz)
    ensures |segs| >= 1 && (|segs| - 1) * sz < |Content(segs)|
    decreases |segs|
  {
    if |segs| > 1 {
      PackedLength(segs[1..], sz);
      assert (|segs| - 1) * sz == sz + (|segs[1..]| - 1) * sz;
    } else {
      assert Content(segs[1..]) == [];
    }
  }

  /** A packed chain has no more segments than its content needs. */
  lemma PackedCount(segs: seq<Seg>, sz: nat)
    requires SegsOk(segs) && Packed(segs, sz) && sz > 0
    ensures |segs| == DivCeil(|Content(segs)|, sz)
  {
    PackedLength(segs, sz);
    PackedFits(segs, sz);
    hide DivCeil, Content, Packed;
    DivCeilBound(|Content(segs)|, sz, |segs| - 1);
    DivCeilBound(|Content(segs)|, sz, |segs|);
  }

  /** What prepare_bufs makes suits every lossless codec. */
  lemma SuitsCodec(comp: Codec, decomp: Codec, ins: seq<Chain>, outs: seq<Chain>, seg: nat, outSeg: nat)
    requires Lossless(comp, decomp, seg, outSeg) && |ins| == |outs|
    requires forall i | 0 <= i < |ins| :: InputChain(ins[i], seg)
    requires forall i | 0 <= i < |outs| :: |outs[i].segs| == |ins[i].segs| && Uniform(outs[i].segs, outSeg)
    ensures Fits(comp, decomp, ins, outs, seg, outSeg) && GivesBack(comp, decomp, ins)
  {
    forall i | 0 <= i < |ins|
      ensures InputChain(ins[i], seg) && |comp(Content(ins[i].segs))| <= outSeg * |outs[i].segs|
      ensures decomp(comp(Content(ins[i].segs))) == Content(ins[i].segs)
    {
      PackedCount(ins[i].segs, seg);
      PackedLength(ins[i].segs, seg);
      assert Content(ins[i].segs) != [];
      hide DivCeil, Content, Packed, Uniform;
      assert |comp(Content(ins[i].segs))| <= outSeg * DivCeil(|Content(ins[i].segs)|, seg);
    }
    LosslessFits(comp, decomp, ins, outs, seg, outSeg);
  }

  /** main, from the file to the last level: for every non-empty file, segment size, chain limit,
      burst size and schedule, with lossless codecs no level fails as long as the input is below
      2^32 bytes; above, the buffers do not hold it. */
  method RunTest(file: seq<Byte>, wanted: nat, seg: nat, maxSegs: nat, outSeg: nat, burst: nat, levels: seq<Level>)
    returns (finished: nat, failed: bool)
    requires file != [] && |file| < U32 && wanted < U32 && seg > 0 && maxSegs > 0 && burst >= 1
    requires forall l | l in levels :: Lossless(l.comp, l.decomp, seg, outSeg)
    ensures !failed && finished <= |levels|
    ensures var n := TotalBufs(if wanted == 0 then |file| else wanted, seg, maxSegs);
            (forall l | l in levels :: Eager(l.s1) && Eager(l.s2) && |l.s1| >= 2 * n && |l.s2| >= 2 * n)
            ==> finished == |levels|
  {
    hide Lossless, InputChain, Uniform, AllBytes, Repeats, Fits, GivesBack, RoundTripped, Eager, SegsOk, DivCeil;
    var ok, input := ReadInput(file, wanted);
    assert input != [];
    var ready, ins, outs := Prepare(input, seg, maxSegs, outSeg);
    forall l | l in levels ensures Fits(l.comp, l.decomp, ins, outs, seg, outSeg) && GivesBack(l.comp, l.decomp, ins) {
      SuitsCodec(l.comp, l.decomp, ins, outs, seg, outSeg);
    }
    finished, failed := RunLevels(levels, input, ins, outs, seg, outSeg, burst);
  }
}
