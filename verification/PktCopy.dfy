/** The segmented packet copy of test-pmd/csumonly.c: mbuf_copy_split and pkt_copy_split.

  A packet is copied from one chain of buffers into another with its own segment lengths.  A
  destination segment never spans two source segments, so not every packet can be copied.
 */
module PktCopy {
  import opened Numbers

  type Byte = bv8

  const ENOBUFS := -105
  const EINVAL := -22
  const NULL := -1

  function Flatten(s: seq<seq<Byte>>): seq<Byte> {
    if s == [] then [] else s[0] + Flatten(s[1..])
  }

  function Sum(lens: seq<nat>): nat {
    if lens == [] then 0 else lens[0] + Sum(lens[1..])
  }

  lemma {:induction false} FlattenAppend(a: seq<seq<Byte>>, b: seq<seq<Byte>>)
    ensures Flatten(a + b) == Flatten(a) + Flatten(b)
  {
    if a == [] {
      assert a + b == b;
    } else {
      assert (a + b)[1..] == a[1..] + b;
      FlattenAppend(a[1..], b);
    }
  }

  // ---------------------------------------------------------------- cutting the source

  /** Source segment j, offset o: how far the copy has read. */
  datatype Pos = Pos(j: nat, o: nat)

  predicate PosOk(src: seq<seq<Byte>>, p: Pos) {
    if p.j < |src| then p.o == 0 || p.o < |src[p.j]| else p == Pos(|src|, 0)
  }

  function Advance(src: seq<seq<Byte>>, p: Pos, n: nat): (q: Pos)
    requires PosOk(src, p) && p.j < |src| && n <= |src[p.j]| - p.o
    ensures PosOk(src, q)
  {
    if p.o + n == |src[p.j]| then Pos(p.j + 1, 0) else Pos(p.j, p.o + n)
  }

  /** What is still to be read. */
  function From(src: seq<seq<Byte>>, p: Pos): seq<Byte>
    requires PosOk(src, p)
  {
    if p.j == |src| then [] else src[p.j][p.o..] + Flatten(src[p.j + 1..])
  }

  lemma FromNext(src: seq<seq<Byte>>, j: nat)
    requires j < |src|
    ensures Flatten(src[j..]) == From(src, Pos(j, 0)) == src[j] + Flatten(src[j + 1..])
  {
    assert src[j..][0] == src[j] && src[j..][1..] == src[j + 1..];
    assert src[j][0..] == src[j];
  }

  lemma Assoc<T>(a: seq<T>, b: seq<T>, c: seq<T>)
    ensures (a + b) + c == a + (b + c)
  {}

  lemma CutSlice(s: seq<Byte>, from: nat, n: nat)
    requires from + n <= |s|
    ensures s[from..] == s[from..from + n] + s[from + n..]
    ensures from + n == |s| ==> s[from..] == s[from..from + n]
  {}

  lemma FromHere(src: seq<seq<Byte>>, p: Pos)
    requires PosOk(src, p)
    ensures p.j < |src| ==> From(src, p) == src[p.j][p.o..] + Flatten(src[p.j + 1..])
    ensures p.j == |src| ==> From(src, p) == []
  {}

  lemma StartOk(src: seq<seq<Byte>>, j: nat)
    requires j <= |src|
    ensures PosOk(src, Pos(j, 0)) && From(src, Pos(j, 0)) == Flatten(src[j..])
  {
    if j < |src| { FromNext(src, j); }
  }

  lemma FromStepInside(src: seq<seq<Byte>>, p: Pos, n: nat)
    requires PosOk(src, p) && p.j < |src| && n < |src[p.j]| - p.o
    ensures From(src, p) == src[p.j][p.o..p.o + n] + From(src, Pos(p.j, p.o + n))
  {
    hide From, Flatten;
    CutSlice(src[p.j], p.o, n);
    FromHere(src, p);
    FromHere(src, Pos(p.j, p.o + n));
    Assoc(src[p.j][p.o..p.o + n], src[p.j][p.o + n..], Flatten(src[p.j + 1..]));
  }

  lemma FromStepOver(src: seq<seq<Byte>>, p: Pos, n: nat)
    requires PosOk(src, p) && p.j < |src| && n == |src[p.j]| - p.o
    ensures PosOk(src, Pos(p.j + 1, 0))
    ensures From(src, p) == src[p.j][p.o..p.o + n] + From(src, Pos(p.j + 1, 0))
  {
    hide From, Flatten;
    CutSlice(src[p.j], p.o, n);
    FromHere(src, p);
    StartOk(src, p.j + 1);
  }

  lemma FromStep(src: seq<seq<Byte>>, p: Pos, n: nat)
    requires PosOk(src, p) && p.j < |src| && n <= |src[p.j]| - p.o
    ensures From(src, p) == src[p.j][p.o..p.o + n] + From(src, Advance(src, p, n))
  {
    hide From;
    if p.o + n < |src[p.j]| {
      FromStepInside(src, p, n);
    } else {
      FromStepOver(src, p, n);
    }
  }

  lemma FlattenNone(s: seq<seq<Byte>>)
    requires s == []
    ensures Flatten(s) == []
  {}

  lemma FromStart(src: seq<seq<Byte>>)
    ensures From(src, Pos(0, 0)) == Flatten(src)
  {
    StartOk(src, 0);
    assert src[0..] == src;
  }

  /** What one destination segment receives: as much as its limit and the current source
      segment allow. */
  function PieceAt(src: seq<seq<Byte>>, p: Pos, limit: nat): (r: seq<Byte>)
    requires PosOk(src, p) && p.j < |src|
    ensures |r| == Min(limit, |src[p.j]| - p.o) <= limit
  {
    src[p.j][p.o..p.o + Min(limit, |src[p.j]| - p.o)]
  }

  function Next(src: seq<seq<Byte>>, p: Pos, limit: nat): (q: Pos)
    requires PosOk(src, p) && p.j < |src|
    ensures PosOk(src, q)
  {
    Advance(src, p, Min(limit, |src[p.j]| - p.o))
  }

  /** The pieces the copy puts into the destination segments. */
  function Pieces(src: seq<seq<Byte>>, p: Pos, lens: seq<nat>): (r: seq<seq<Byte>>)
    requires PosOk(src, p)
    ensures |r| <= |lens| && forall k | 0 <= k < |r| :: |r[k]| <= lens[k]
    decreases |lens|
  {
    if lens == [] || p.j == |src| then []
    else [PieceAt(src, p, lens[0])] + Pieces(src, Next(src, p, lens[0]), lens[1..])
  }

  function EndPos(src: seq<seq<Byte>>, p: Pos, lens: seq<nat>): (q: Pos)
    requires PosOk(src, p)
    ensures PosOk(src, q)
    decreases |lens|
  {
    if lens == [] || p.j == |src| then p else EndPos(src, Next(src, p, lens[0]), lens[1..])
  }

  lemma FlattenCons(s: seq<Byte>, rest: seq<seq<Byte>>)
    ensures Flatten([s] + rest) == s + Flatten(rest)
  {
    assert ([s] + rest)[1..] == rest;
  }

  lemma PiecesHead(src: seq<seq<Byte>>, p: Pos, lens: seq<nat>)
    requires PosOk(src, p) && lens != [] && p.j < |src|
    ensures Pieces(src, p, lens) == [PieceAt(src, p, lens[0])] + Pieces(src, Next(src, p, lens[0]), lens[1..])
  {
    hide PieceAt, Next;
  }

  lemma EndHead(src: seq<seq<Byte>>, p: Pos, lens: seq<nat>)
    requires PosOk(src, p) && lens != [] && p.j < |src|
    ensures EndPos(src, p, lens) == EndPos(src, Next(src, p, lens[0]), lens[1..])
  {
    hide Next;
  }

  lemma FromHead(src: seq<seq<Byte>>, p: Pos, limit: nat)
    requires PosOk(src, p) && p.j < |src|
    ensures From(src, p) == PieceAt(src, p, limit) + From(src, Next(src, p, limit))
  {
    hide From, Advance;
    FromStep(src, p, Min(limit, |src[p.j]| - p.o));
  }

  /** The pieces are the source up to where the copy stopped: nothing lost or reordered. */
  lemma {:induction false} PiecesCover(src: seq<seq<Byte>>, p: Pos, lens: seq<nat>)
    requires PosOk(src, p)
    ensures Flatten(Pieces(src, p, lens)) + From(src, EndPos(src, p, lens)) == From(src, p)
    decreases |lens|
  {
    if lens == [] || p.j == |src| {
      PiecesStop(src, p, lens);
      FlattenNone([]);
    } else {
      hide *;
      var q, piece := Next(src, p, lens[0]), PieceAt(src, p, lens[0]);
      PiecesHead(src, p, lens);
      EndHead(src, p, lens);
      FromHead(src, p, lens[0]);
      FlattenCons(piece, Pieces(src, q, lens[1..]));
      PiecesCover(src, q, lens[1..]);
      Assoc(piece, Flatten(Pieces(src, q, lens[1..])), From(src, EndPos(src, q, lens[1..])));
    }
  }

  /** All of the source fits. */
  predicate Completes(src: seq<seq<Byte>>, lens: seq<nat>) {
    EndPos(src, Pos(0, 0), lens).j == |src|
  }

  /** Any way at all of cutting the rest of the source into pieces, the k-th at most lens[k]
      long and none across the end of a source segment. */
  predicate CutBy(src: seq<seq<Byte>>, p: Pos, lens: seq<nat>, cut: seq<nat>)
    requires PosOk(src, p)
    decreases |cut|
  {
    if p.j == |src| then cut == []
    else
      && cut != [] && lens != [] && cut[0] <= lens[0] && cut[0] <= |src[p.j]| - p.o
      && CutBy(src, Advance(src, p, cut[0]), lens[1..], cut[1..])
  }

  ghost predicate Cuttable(src: seq<seq<Byte>>, lens: seq<nat>) {
    exists cut :: CutBy(src, Pos(0, 0), lens, cut)
  }

  predicate Ahead(p: Pos, q: Pos) {
    p.j > q.j || (p.j == q.j && p.o >= q.o)
  }

  /** Taking as much as possible never falls behind another way of cutting. */
  lemma {:induction false} GreedyStaysAhead(src: seq<seq<Byte>>, p: Pos, q: Pos, lens: seq<nat>, cut: seq<nat>)
    requires PosOk(src, p) && PosOk(src, q) && Ahead(p, q) && CutBy(src, q, lens, cut)
    ensures EndPos(src, p, lens).j == |src|
    decreases |lens|
  {
    if p.j < |src| {
      var p' := Next(src, p, lens[0]);
      var q' := Advance(src, q, cut[0]);
      assert Ahead(p', q');
      GreedyStaysAhead(src, p', q', lens[1..], cut[1..]);
    }
  }

  /** The cut the copy itself makes. */
  lemma {:induction false} GreedyCuts(src: seq<seq<Byte>>, p: Pos, lens: seq<nat>) returns (cut: seq<nat>)
    requires PosOk(src, p) && EndPos(src, p, lens).j == |src|
    ensures CutBy(src, p, lens, cut)
    decreases |lens|
  {
    if p.j == |src| {
      cut := [];
    } else {
      var n := Min(lens[0], |src[p.j]| - p.o);
      var rest := GreedyCuts(src, Next(src, p, lens[0]), lens[1..]);
      cut := [n] + rest;
      assert cut[1..] == rest;
    }
  }

  /** The copy fails for lack of segments only when no cutting of the source would do. */
  lemma CompletesIffCuttable(src: seq<seq<Byte>>, lens: seq<nat>)
    ensures Completes(src, lens) <==> Cuttable(src, lens)
  {
    if Completes(src, lens) {
      var cut := GreedyCuts(src, Pos(0, 0), lens);
    }
    if Cuttable(src, lens) {
      var cut :| CutBy(src, Pos(0, 0), lens, cut);
      GreedyStaysAhead(src, Pos(0, 0), Pos(0, 0), lens, cut);
    }
  }

  /** A source in one segment never runs out of destination segments. */
  lemma {:induction false} OneSegmentCompletes(src: seq<seq<Byte>>, p: Pos, lens: seq<nat>)
    requires |src| == 1 && PosOk(src, p) && p.j == 0 && lens != [] && |src[0]| - p.o <= Sum(lens)
    ensures EndPos(src, p, lens).j == 1
    decreases |lens|
  {
    var n := Min(lens[0], |src[0]| - p.o);
    if n < |src[0]| - p.o {
      assert Sum(lens[1..]) > 0;
      OneSegmentCompletes(src, Next(src, p, lens[0]), lens[1..]);
    }
  }

  /** A packet of more segments than the destination has is never copied, however short. */
  lemma {:induction false} MoreSegmentsNeverComplete(src: seq<seq<Byte>>, p: Pos, lens: seq<nat>)
    requires PosOk(src, p) && |src| - p.j > |lens|
    ensures EndPos(src, p, lens).j < |src|
    decreases |lens|
  {
    if lens != [] {
      MoreSegmentsNeverComplete(src, Next(src, p, lens[0]), lens[1..]);
    }
  }

  // ---------------------------------------------------------------- choosing the segments

  /** Limits of the destination segments: as many of the configured lengths as the packet needs,
      the last one stretched when even all of them are too short. */
  function Chosen(lens: seq<nat>, pktLen: nat): (r: seq<nat>)
    requires lens != [] && pktLen > 0
    ensures 0 < |r| <= |lens|
  {
    if |lens| == 1 then [Max(lens[0], pktLen)]
    else if lens[0] >= pktLen then [lens[0]]
    else [lens[0]] + Chosen(lens[1..], pktLen - lens[0])
  }

  /** The chosen segments hold the packet and none of them is superfluous.  They have the configured
      lengths, except that the last of all is stretched to what is left of the packet. */
  lemma {:induction false} ChosenTight(lens: seq<nat>, pktLen: nat)
    requires lens != [] && pktLen > 0
    ensures var c := Chosen(lens, pktLen);
            && Sum(c[..|c| - 1]) < pktLen <= Sum(c)
            && (forall k | 0 <= k < |c| - 1 :: c[k] == lens[k])
            && (c[|c| - 1] == if |c| < |lens| then lens[|c| - 1] else Max(lens[|c| - 1], pktLen - Sum(c[..|c| - 1])))
            && (forall k | 0 <= k < |c| :: c[k] <= Max(lens[k], pktLen))
  {
    var c := Chosen(lens, pktLen);
    if |lens| > 1 && lens[0] < pktLen {
      ChosenTight(lens[1..], pktLen - lens[0]);
      var t := Chosen(lens[1..], pktLen - lens[0]);
      assert c[1..] == t && c[..|c| - 1][1..] == t[..|t| - 1];
    } else {
      assert c[..|c| - 1] == [];
    }
  }

  lemma ChosenAt(lens: seq<nat>, i: nat, rest: nat)
    requires i < |lens| && rest > 0
    ensures (if i + 1 == |lens| || lens[i] >= rest then Chosen(lens[i..], rest) == [Max(lens[i], rest)]
             else Chosen(lens[i..], rest) == [lens[i]] + Chosen(lens[i + 1..], rest - lens[i]))
  {
    assert lens[i..][0] == lens[i] && lens[i..][1..] == lens[i + 1..];
  }

  lemma AppendOne(lens: seq<nat>, i: nat, tail: seq<nat>)
    requires i < |lens|
    ensures lens[..i] + ([lens[i]] + tail) == lens[..i + 1] + tail
  {
    assert lens[..i + 1] == lens[..i] + [lens[i]];
  }

  /** The segment-counting loop of pkt_copy_split, with its 16-bit lengths. */
  method ChooseSegments(txLens: seq<nat>, pktLen: nat) returns (seglen: seq<nat>, nbSeg: nat)
    requires 0 < pktLen < 0x1_0000 && txLens != []
    requires forall k | 0 <= k < |txLens| :: txLens[k] < 0x1_0000
    ensures nbSeg == |Chosen(txLens, pktLen)| <= |seglen| && seglen[..nbSeg] == Chosen(txLens, pktLen)
  {
    hide Chosen;
    seglen := txLens;
    var len, i := 0, 0;
    ghost var last := 0;
    assert txLens[0..] == txLens && txLens[..0] + Chosen(txLens, pktLen) == Chosen(txLens, pktLen);
    while i != |txLens| && len < pktLen
      invariant 0 <= i <= |txLens| && 0 <= len
      invariant (i < |txLens| && len < pktLen ==>
                   Chosen(txLens, pktLen) == txLens[..i] + Chosen(txLens[i..], pktLen - len))
      invariant (i == |txLens| || len >= pktLen ==>
                   && i > 0 && last == txLens[i - 1] && pktLen > len - last >= 0
                   && Chosen(txLens, pktLen) == txLens[..i - 1] + [Max(last, pktLen - (len - last))])
    {
      ChosenAt(txLens, i, pktLen - len);
      if i + 1 < |txLens| && len + txLens[i] < pktLen {
        AppendOne(txLens, i, Chosen(txLens[i + 1..], pktLen - len - txLens[i]));
      }
      last := txLens[i];
      len, i := len + txLens[i], i + 1;
    }
    var n := pktLen - len;
    if n >= 0 {
      seglen := seglen[i - 1 := (seglen[i - 1] + n) % 0x1_0000];
      len := len + n;
    }
    nbSeg := i;
    assert seglen[..nbSeg] == txLens[..i - 1] + [seglen[i - 1]];
  }

  /** So a packet in one segment can always be copied ... */
  lemma OneSegmentIsCuttable(src: seq<seq<Byte>>, txLens: seq<nat>)
    requires |src| == 1 && src[0] != [] && txLens != []
    ensures Cuttable(src, Chosen(txLens, |src[0]|))
  {
    ChosenTight(txLens, |src[0]|);
    OneSegmentCompletes(src, Pos(0, 0), Chosen(txLens, |src[0]|));
    CompletesIffCuttable(src, Chosen(txLens, |src[0]|));
  }

  /** ... and one in more segments than the configuration has lengths never. */
  lemma TooManySegmentsIsNot(src: seq<seq<Byte>>, txLens: seq<nat>, pktLen: nat)
    requires txLens != [] && pktLen > 0 && |src| > |txLens|
    ensures !Cuttable(src, Chosen(txLens, pktLen))
  {
    MoreSegmentsNeverComplete(src, Pos(0, 0), Chosen(txLens, pktLen));
    CompletesIffCuttable(src, Chosen(txLens, pktLen));
  }

  // ---------------------------------------------------------------- buffers

  /** A packet buffer: its room, of which the first dataLen bytes count, and the next one. */
  datatype Node = Node(id: nat, mem: seq<Byte>, dataLen: nat, next: int)

  predicate NodeOk(n: Node) {
    n.dataLen <= |n.mem|
  }

  function Data(n: Node): seq<Byte>
    requires NodeOk(n)
  {
    n.mem[..n.dataLen]
  }

  /** The data read by following the links from md[i]. */
  function Walk(md: seq<Node>, i: nat): seq<seq<Byte>>
    requires forall k | 0 <= k < |md| :: NodeOk(md[k])
    decreases |md| - i
  {
    if i >= |md| then []
    else if md[i].next <= i then [Data(md[i])]
    else [Data(md[i])] + Walk(md, md[i].next)
  }

  /** md[i] is the i-th of nbSeg segments, holding exactly `piece`. */
  predicate Holds(n: Node, i: nat, nbSeg: nat, piece: seq<Byte>) {
    NodeOk(n) && Data(n) == piece && n.next == if i + 1 == nbSeg then NULL else i + 1
  }

  lemma {:induction false} WalkAll(md: seq<Node>, i: nat, pieces: seq<seq<Byte>>)
    requires |pieces| == |md| && i < |md|
    requires forall k | 0 <= k < |md| :: NodeOk(md[k]) && Holds(md[k], k, |md|, pieces[k])
    ensures Walk(md, i) == pieces[i..]
    decreases |md| - i
  {
    assert Holds(md[i], i, |md|, pieces[i]);
    if i + 1 < |md| {
      WalkAll(md, i + 1, pieces);
    }
    assert pieces[i..] == [pieces[i]] + pieces[i + 1..];
  }

  /** The buffers are the same, whatever is in them. */
  ghost predicate SameBuffers(now: seq<Node>, was: seq<Node>) {
    |now| == |was| && forall k | 0 <= k < |now| :: now[k].id == was[k].id && |now[k].mem| == |was[k].mem|
  }

  ghost predicate AllHold(md: seq<Node>, pieces: seq<seq<Byte>>) {
    |pieces| <= |md| && forall k | 0 <= k < |pieces| :: Holds(md[k], k, |md|, pieces[k])
  }

  /** Starts destination segment i and copies its piece. */
  method CopyPiece(md: array<Node>, i: nat, dlen: nat, piece: seq<Byte>, ghost done: seq<seq<Byte>>)
    requires i == |done| < md.Length && |piece| == dlen <= |md[i].mem| && AllHold(md[..], done)
    modifies md
    ensures SameBuffers(md[..], old(md[..])) && AllHold(md[..], done + [piece])
  {
    md[i] := md[i].(dataLen := dlen, next := if i + 1 == md.Length then NULL else i + 1);
    md[i] := md[i].(mem := piece + md[i].mem[dlen..]);
    assert Holds(md[i], i, md.Length, piece);
  }

  /** One step of the copy in terms of what is left. */
  lemma PieceStep(src: seq<seq<Byte>>, p: Pos, lens: seq<nat>, i: nat, done: seq<seq<Byte>>)
    requires PosOk(src, p) && p.j < |src| && i < |lens|
    ensures var piece, q := PieceAt(src, p, lens[i]), Next(src, p, lens[i]);
            && done + Pieces(src, p, lens[i..]) == (done + [piece]) + Pieces(src, q, lens[i + 1..])
            && EndPos(src, p, lens[i..]) == EndPos(src, q, lens[i + 1..])
            && |Flatten(done + [piece])| == |Flatten(done)| + |piece|
  {
    hide PieceAt, Next, Flatten;
    var piece := PieceAt(src, p, lens[i]);
    Tail(lens, i);
    FlattenLast(done, piece);
    Assoc(done, [piece], Pieces(src, Next(src, p, lens[i]), lens[i + 1..]));
  }

  lemma Tail(lens: seq<nat>, i: nat)
    requires i < |lens|
    ensures lens[i..][0] == lens[i] && lens[i..][1..] == lens[i + 1..]
  {}

  lemma FlattenLast(done: seq<seq<Byte>>, piece: seq<Byte>)
    ensures |Flatten(done + [piece])| == |Flatten(done)| + |piece|
  {
    FlattenAppend(done, [piece]);
  }

  lemma PiecesStop(src: seq<seq<Byte>>, p: Pos, lens: seq<nat>)
    requires PosOk(src, p) && (lens == [] || p.j == |src|)
    ensures Pieces(src, p, lens) == [] && EndPos(src, p, lens) == p
  {}

  /** After i pieces the copy stands at pos, tlen bytes on. */
  ghost predicate Progress(src: seq<seq<Byte>>, lens: seq<nat>, pos: Pos, done: seq<seq<Byte>>, tlen: nat) {
    && PosOk(src, pos) && |done| <= |lens| && tlen == |Flatten(done)|
    && Pieces(src, Pos(0, 0), lens) == done + Pieces(src, pos, lens[|done|..])
    && EndPos(src, Pos(0, 0), lens) == EndPos(src, pos, lens[|done|..])
  }

  lemma ProgressStart(src: seq<seq<Byte>>, lens: seq<nat>)
    ensures Progress(src, lens, Pos(0, 0), [], 0)
  {
    assert lens[0..] == lens;
    assert [] + Pieces(src, Pos(0, 0), lens) == Pieces(src, Pos(0, 0), lens);
  }

  lemma ProgressStep(src: seq<seq<Byte>>, lens: seq<nat>, pos: Pos, done: seq<seq<Byte>>, tlen: nat)
    requires Progress(src, lens, pos, done, tlen) && pos.j < |src| && |done| < |lens|
    ensures PosOk(src, pos)
    ensures var n := Min(lens[|done|], |src[pos.j]| - pos.o);
            && Progress(src, lens, Advance(src, pos, n), done + [src[pos.j][pos.o..pos.o + n]], tlen + n)
            && |done| < |Pieces(src, Pos(0, 0), lens)| && |Pieces(src, Pos(0, 0), lens)[|done|]| == n
            && (Advance(src, pos, n) == if n < |src[pos.j]| - pos.o then Pos(pos.j, pos.o + n) else Pos(pos.j + 1, 0))
  {
    hide Pieces, EndPos, Flatten;
    PieceStep(src, pos, lens, |done|, done);
    var whole := Pieces(src, Pos(0, 0), lens);
    var n := Min(lens[|done|], |src[pos.j]| - pos.o);
    PieceAfter(whole, done, src[pos.j][pos.o..pos.o + n], Pieces(src, Advance(src, pos, n), lens[|done| + 1..]));
  }

  lemma PieceAfter(whole: seq<seq<Byte>>, done: seq<seq<Byte>>, piece: seq<Byte>, more: seq<seq<Byte>>)
    requires whole == (done + [piece]) + more
    ensures |done| < |whole| && whole[|done|] == piece
  {}

  lemma ProgressEnd(src: seq<seq<Byte>>, lens: seq<nat>, pos: Pos, done: seq<seq<Byte>>, tlen: nat)
    requires Progress(src, lens, pos, done, tlen) && (pos.j == |src| || |done| == |lens|)
    ensures Pieces(src, Pos(0, 0), lens) == done && (Completes(src, lens) <==> pos.j == |src|)
    ensures Completes(src, lens) ==> Flatten(done) == Flatten(src) && tlen == |Flatten(src)|
  {
    hide Pieces, EndPos, Flatten;
    PiecesStop(src, pos, lens[|done|..]);
    PiecesCover(src, Pos(0, 0), lens);
    FromStart(src);
    FromHere(src, pos);
    assert done + [] == done;
  }

  lemma SameBuffersTrans(c: seq<Node>, b: seq<Node>, a: seq<Node>)
    requires SameBuffers(c, b) && SameBuffers(b, a)
    ensures SameBuffers(c, a)
  {}

  lemma Room(now: seq<Node>, was: seq<Node>, i: nat)
    requires SameBuffers(now, was) && i < |now|
    ensures |now[i].mem| == |was[i].mem|
  {}

  /** Every piece fits the buffer of its segment. */
  ghost predicate PiecesFit(md: seq<Node>, pieces: seq<seq<Byte>>) {
    |pieces| <= |md| && forall k | 0 <= k < |pieces| :: |pieces[k]| <= |md[k].mem|
  }

  lemma PieceFits(md: seq<Node>, pieces: seq<seq<Byte>>, k: nat)
    requires PiecesFit(md, pieces) && k < |pieces|
    ensures |pieces[k]| <= |md[k].mem|
  {}

  /** mbuf_copy_split.  It succeeds exactly when everything was copied and amounts to pkt_len;
      the destination segments then hold the pieces. */
  method MbufCopySplit(src: seq<seq<Byte>>, pktLen: nat, md: array<Node>, seglen: seq<nat>) returns (rc: int)
    requires md.Length == |seglen|
    requires PiecesFit(md[..], Pieces(src, Pos(0, 0), seglen))
    modifies md
    ensures rc == md.Length || rc == ENOBUFS || rc == EINVAL
    ensures rc == ENOBUFS <==> !Completes(src, seglen)
    ensures rc == md.Length <==> Completes(src, seglen) && pktLen == |Flatten(src)|
    ensures SameBuffers(md[..], old(md[..])) && AllHold(md[..], Pieces(src, Pos(0, 0), seglen))
    ensures Completes(src, seglen) ==> Flatten(Pieces(src, Pos(0, 0), seglen)) == Flatten(src)
  {
    hide Pieces, EndPos, Advance, Flatten, Holds, AllHold, SameBuffers, Progress, Completes, PiecesFit;
    ghost var pos := Pos(0, 0);
    ghost var done: seq<seq<Byte>> := [];
    var dlen, slen, tlen, from := 0, 0, 0, 0;
    var ms, i := 0, 0;
    ProgressStart(src, seglen);
    NothingHeld(md[..], seglen);
    while ms != |src| && i != md.Length
      invariant 0 <= ms <= |src| && pos.j == ms && dlen == 0 && 0 <= tlen && |done| == i <= md.Length
      invariant 0 <= slen && 0 <= from && (slen == 0 ==> pos.o == 0)
      invariant slen > 0 ==> ms < |src| && from == pos.o && slen == |src[ms]| - from
      invariant Progress(src, seglen, pos, done, tlen)
      invariant SameBuffers(md[..], old(md[..])) && AllHold(md[..], done)
      decreases md.Length - i
    {
      if slen == 0 {
        slen, from := |src[ms]|, 0;
      }
      ProgressStep(src, seglen, pos, done, tlen);
      Shorter(seglen[i], slen);
      if dlen == 0 {
        dlen := Min(seglen[i], slen);
      }
      var len := Min(slen, dlen);
      var piece := src[ms][from..from + len];
      ghost var was := md[..];
      Room(was, old(md[..]), i);
      PieceFits(old(md[..]), Pieces(src, Pos(0, 0), seglen), i);
      CopyPiece(md, i, dlen, piece, done);
      SameBuffersTrans(md[..], was, old(md[..]));
      done, pos := done + [piece], Advance(src, pos, len);
      tlen, slen, dlen, from := tlen + len, slen - len, dlen - len, from + len;
      if slen == 0 {
        ms := ms + 1;
      }
      if dlen == 0 {
        i := i + 1;
      }
    }
    ProgressEnd(src, seglen, pos, done, tlen);
    if ms != |src| {
      rc := ENOBUFS;
    } else if tlen != pktLen {
      rc := EINVAL;
    } else {
      rc := md.Length;
    }
  }

  lemma Shorter(limit: nat, slen: nat)
    ensures Min(slen, Min(limit, slen)) == Min(limit, slen) <= limit
  {}

  lemma NothingHeld(md: seq<Node>, lens: seq<nat>)
    ensures SameBuffers(md, md) && AllHold(md, [])
  {}

  // ---------------------------------------------------------------- the whole copy

  datatype Outcome = Failed | Copied(md: seq<Node>, pktLen: nat)

  function Ids(s: seq<Node>): multiset<nat> {
    if s == [] then multiset{} else multiset{s[0].id} + Ids(s[1..])
  }

  lemma {:induction false} IdsAppend(a: seq<Node>, b: seq<Node>)
    ensures Ids(a + b) == Ids(a) + Ids(b)
  {
    if a == [] {
      assert a + b == b;
    } else {
      assert (a + b)[1..] == a[1..] + b;
      IdsAppend(a[1..], b);
    }
  }

  lemma IdsSame(a: seq<Node>, b: seq<Node>)
    requires SameBuffers(a, b)
    ensures Ids(a) == Ids(b)
  {
    if a != [] {
      IdsSame(a[1..], b[1..]);
    }
  }

  /** One buffer moves from the front of the pool to the front of the allocated ones. */
  lemma IdsTake(pool: seq<Node>, md: seq<Node>, i: nat, p: Node)
    requires pool != [] && p.id == pool[0].id && i < |md|
    ensures Ids(pool[1..]) + Ids(md[i := p][i..]) == Ids(pool) + Ids(md[i + 1..])
  {
    assert md[i := p][i..] == [p] + md[i + 1..];
  }

  /** One buffer goes back. */
  lemma IdsGive(pool: seq<Node>, md: seq<Node>, i: nat)
    requires i < |md|
    ensures Ids(pool + [md[i]]) + Ids(md[i + 1..]) == Ids(pool) + Ids(md[i..])
  {
    IdsAppend(pool, [md[i]]);
    assert md[i..] == [md[i]] + md[i + 1..];
  }

  /** Where the allocation loop of pkt_copy_split stops: segments are filled from the last to the
      first, until the pool is empty or a buffer is too small for its segment. */
  function Stop(pool: seq<Node>, limits: seq<nat>): (i: nat)
    ensures i <= |limits|
    decreases |limits|
  {
    if limits == [] then 0
    else if pool == [] then |limits|
    else if |pool[0].mem| < limits[|limits| - 1] then |limits| - 1
    else Stop(pool[1..], limits[..|limits| - 1])
  }

  /** The pool has a buffer for every segment, of sufficient room for all but the first. */
  predicate LaterSegmentsFit(pool: seq<Node>, limits: seq<nat>) {
    |pool| >= |limits| && forall k | 1 <= k < |limits| :: limits[k] <= |pool[|limits| - 1 - k].mem|
  }

  /** What goes into the first segment fits the buffer the loop would give it. */
  predicate FirstPieceFits(pool: seq<Node>, src: seq<seq<Byte>>, limits: seq<nat>) {
    var pieces := Pieces(src, Pos(0, 0), limits);
    LaterSegmentsFit(pool, limits) && pieces != [] ==> |pieces[0]| <= |pool[|limits| - 1].mem|
  }

  /** The loop reaches segment 0, so that the copy starts, exactly when the later segments fit:
      the room of the first one makes no difference. */
  lemma {:induction false} CopyStartsIff(pool: seq<Node>, limits: seq<nat>)
    requires limits != []
    ensures Stop(pool, limits) == 0 <==> LaterSegmentsFit(pool, limits)
    decreases |limits|
  {
    var n := |limits| - 1;
    if pool != [] && n > 0 {
      var shorter := limits[..n];
      CopyStartsIff(pool[1..], shorter);
      if LaterSegmentsFit(pool, limits) {
        forall k | 1 <= k < n ensures shorter[k] <= |pool[1..][n - 1 - k].mem| {
          assert limits[k] <= |pool[n - k].mem|;
        }
        assert limits[n] <= |pool[0].mem|;
      }
      if LaterSegmentsFit(pool[1..], shorter) && |pool[0].mem| >= limits[n] {
        forall k | 1 <= k < |limits| ensures limits[k] <= |pool[n - k].mem| {
          if k < n { assert shorter[k] <= |pool[1..][n - 1 - k].mem|; }
        }
      }
    }
  }

  /** A started copy stays inside its buffers exactly when the first piece fits. */
  lemma CopyStaysInsideIff(pool: seq<Node>, src: seq<seq<Byte>>, limits: seq<nat>)
    requires LaterSegmentsFit(pool, limits)
    ensures ((forall k | 0 <= k < |Pieces(src, Pos(0, 0), limits)| ::
                |Pieces(src, Pos(0, 0), limits)[k]| <= |pool[|limits| - 1 - k].mem|)
             <==> FirstPieceFits(pool, src, limits))
  {
    hide Pieces;
    var pieces := Pieces(src, Pos(0, 0), limits);
    if FirstPieceFits(pool, src, limits) {
      forall k | 0 <= k < |pieces| ensures |pieces[k]| <= |pool[|limits| - 1 - k].mem| {
        if k > 0 { assert limits[k] <= |pool[|limits| - 1 - k].mem|; }
      }
    } else {
      assert |pieces[0]| > |pool[|limits| - 1 - 0].mem|;
    }
  }

  /** A buffer of 10 bytes does not stop the copy of 20 bytes into one segment of 20. */
  lemma FirstSegmentUnchecked(mem: seq<Byte>, data: seq<Byte>)
    requires |mem| == 10 && |data| == 20
    ensures var pool := [Node(7, mem, 0, NULL)];
            Stop(pool, [20]) == 0 && LaterSegmentsFit(pool, [20]) && !FirstPieceFits(pool, [data], [20])
  {
    assert PieceAt([data], Pos(0, 0), 20) == data;
  }

  lemma StopStep(pool: seq<Node>, limits: seq<nat>, i: nat)
    requires 0 < i <= |limits|
    ensures pool == [] ==> Stop(pool, limits[..i]) == i
    ensures (pool != [] && |pool[0].mem| < limits[i - 1] ==> Stop(pool, limits[..i]) == i - 1)
    ensures (pool != [] && |pool[0].mem| >= limits[i - 1] ==>
               Stop(pool, limits[..i]) == Stop(pool[1..], limits[..i - 1]))
  {
    assert limits[..i][..i - 1] == limits[..i - 1];
  }

  /** A chain of exactly the chosen segments, linked in order and ended by NULL, each within its limit,
      with the source's bytes. */
  ghost predicate FaithfulCopy(md: seq<Node>, src: seq<seq<Byte>>, limits: seq<nat>) {
    && |md| == |limits| > 0
    && (forall k | 0 <= k < |md| :: NodeOk(md[k]) && md[k].dataLen <= limits[k])
    && (forall k | 0 <= k < |md| - 1 :: md[k].next == k + 1) && md[|md| - 1].next == NULL
    && |Walk(md, 0)| == |md| && Flatten(Walk(md, 0)) == Flatten(src)
  }

  /** A complete copy of pkt_len bytes needs every chosen segment. */
  lemma AllSegmentsUsed(src: seq<seq<Byte>>, limits: seq<nat>)
    requires limits != [] && Completes(src, limits) && Sum(limits[..|limits| - 1]) < |Flatten(src)|
    requires Flatten(Pieces(src, Pos(0, 0), limits)) == Flatten(src)
    ensures |Pieces(src, Pos(0, 0), limits)| == |limits|
  {
    var r := Pieces(src, Pos(0, 0), limits);
    if |r| < |limits| {
      BoundedSum(r, limits[..|limits| - 1]);
    }
  }

  lemma {:induction false} BoundedSum(r: seq<seq<Byte>>, lens: seq<nat>)
    requires |r| <= |lens| && forall k | 0 <= k < |r| :: |r[k]| <= lens[k]
    ensures |Flatten(r)| <= Sum(lens)
  {
    if r != [] {
      BoundedSum(r[1..], lens[1..]);
    }
  }

  lemma CopyIsFaithful(md: seq<Node>, src: seq<seq<Byte>>, limits: seq<nat>)
    requires |md| == |limits| > 0 && AllHold(md, Pieces(src, Pos(0, 0), limits)) && Completes(src, limits)
    requires Sum(limits[..|limits| - 1]) < |Flatten(src)|
    requires Flatten(Pieces(src, Pos(0, 0), limits)) == Flatten(src)
    ensures FaithfulCopy(md, src, limits)
  {
    var r := Pieces(src, Pos(0, 0), limits);
    AllSegmentsUsed(src, limits);
    forall k | 0 <= k < |md|
      ensures NodeOk(md[k]) && md[k].dataLen <= limits[k]
      ensures md[k].next == if k == |md| - 1 then NULL else k + 1
    {
      assert Holds(md[k], k, |md|, r[k]);
    }
    WalkAll(md, 0, r);
    assert r[0..] == r;
  }

  class Copier {
    var pool: seq<Node>

    constructor (pool: seq<Node>)
      ensures this.pool == pool
    {
      this.pool := pool;
    }

    /** rte_pktmbuf_alloc for segments nb - 1 down to 0, with the tailroom check. */
    method AllocSegments(limits: seq<nat>) returns (md: array<Node>, i: nat)
      requires limits != []
      modifies `pool
      ensures fresh(md) && md.Length == |limits| && i == Stop(old(pool), limits)
      ensures Ids(pool) + Ids(md[i..]) == Ids(old(pool))
      ensures i == 0 ==> |old(pool)| >= |limits|
      ensures (i == 0 ==>
                 forall k | 0 <= k < |limits| :: |md[k].mem| == |old(pool)[|limits| - 1 - k].mem|)
    {
      hide Ids, Stop;
      md := new Node[|limits|](_ => Node(0, [], 0, NULL));
      i := |limits|;
      NoIds(md[i..]);
      assert limits[..i] == limits;
      while i != 0
        invariant i <= |limits| && Ids(pool) + Ids(md[i..]) == Ids(old(pool))
        invariant Stop(old(pool), limits) == Stop(pool, limits[..i])
        invariant |limits| - i <= |old(pool)| && pool == old(pool)[|limits| - i..]
        invariant forall k | i <= k < |limits| :: |md[k].mem| == |old(pool)[|limits| - 1 - k].mem|
      {
        StopStep(pool, limits, i);
        if pool == [] { return; }
        var p := pool[0].(dataLen := 0, next := NULL);
        i := i - 1;
        IdsTake(pool, md[..], i, p);
        ghost var was := md[..];
        md[i] := p;
        assert md[i..] == was[i := p][i..] && md[..] == was[i := p];
        pool := pool[1..];
        if |md[i].mem| < limits[i] { break; }
      }
      assert limits[..0] == [];
      CopyStartsIff(old(pool), limits);
    }

    method FreeSegments(md: array<Node>, from: nat)
      requires from <= md.Length
      modifies `pool
      ensures Ids(pool) == Ids(old(pool)) + Ids(md[from..])
    {
      hide Ids;
      NoIds(md[md.Length..]);
      for k := from to md.Length
        invariant Ids(pool) + Ids(md[k..]) == Ids(old(pool)) + Ids(md[from..])
      {
        IdsGive(pool, md[..], k);
        assert md[..][k..] == md[k..] && md[..][k + 1..] == md[k + 1..];
        pool := pool + [md[k]];
      }
    }

    /** pkt_copy_split: all or nothing.  Either every buffer taken is back in the pool, or the
        result is a faithful copy in exactly the chosen segments; the second exactly when the
        pool has fitting buffers, pkt_len is right and the packet can be cut that way. */
    method PktCopySplit(src: seq<seq<Byte>>, pktLen: nat, txLens: seq<nat>) returns (r: Outcome)
      requires 0 < pktLen < 0x1_0000 && txLens != []
      requires forall k | 0 <= k < |txLens| :: txLens[k] < 0x1_0000
      requires FirstPieceFits(pool, src, Chosen(txLens, pktLen))
      modifies `pool
      ensures r.Failed? ==> Ids(pool) == Ids(old(pool))
      ensures r.Copied? ==> Ids(pool) + Ids(r.md) == Ids(old(pool))
      ensures r.Copied? ==> FaithfulCopy(r.md, src, Chosen(txLens, pktLen)) && r.pktLen == pktLen
      ensures (r.Copied? <==> && LaterSegmentsFit(old(pool), Chosen(txLens, pktLen)) && pktLen == |Flatten(src)|
                              && Cuttable(src, Chosen(txLens, pktLen)))
    {
      hide Ids, Chosen, Flatten, Pieces, Completes, AllHold, SameBuffers, Sum, Stop, LaterSegmentsFit, FirstPieceFits, PiecesFit;
      var seglen, nbSeg := ChooseSegments(txLens, pktLen);
      var limits := seglen[..nbSeg];
      CompletesIffCuttable(src, limits);
      ChosenTight(txLens, pktLen);
      CopyStartsIff(pool, limits);
      var md, i := AllocSegments(limits);
      var rc := 0;
      ghost var taken := md[..];
      if i == 0 {
        RoomForPieces(old(pool), md[..], src, limits);
        rc := MbufCopySplit(src, pktLen, md, limits);
        IdsSame(md[..], taken);
        assert md[0..] == md[..] && taken[0..] == taken;
        i := if rc < 0 then 0 else rc;
      }
      NoIds(md[md.Length..]);
      FreeSegments(md, i);
      if rc <= 0 { return Failed; }
      CopyIsFaithful(md[..], src, limits);
      r := Copied(md[..], pktLen);
    }
  }

  lemma RoomForPieces(pool: seq<Node>, md: seq<Node>, src: seq<seq<Byte>>, limits: seq<nat>)
    requires LaterSegmentsFit(pool, limits) && FirstPieceFits(pool, src, limits) && |md| == |limits|
    requires forall k | 0 <= k < |limits| :: |md[k].mem| == |pool[|limits| - 1 - k].mem|
    ensures PiecesFit(md, Pieces(src, Pos(0, 0), limits))
  {
    CopyStaysInsideIff(pool, src, limits);
    hide Pieces;
  }

  lemma NoIds(s: seq<Node>)
    requires s == []
    ensures Ids(s) == multiset{}
  {}
}
