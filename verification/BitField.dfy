/** Bit-field arguments of test-pmd/cmdline_flow.c.

  arg_entry_bf_fill spreads the bits of a value over the bits a mask selects, walking the
  bytes upwards or, for network order, downwards.
 */
module BitField {
  import opened Numbers

  /** A bit of the object: byte offset and bit number in the byte. */
  type Pos = (nat, nat)

  predicate Bit(b: bv8, k: nat)
    requires k < 8
  {
    (b >> (k as bv8)) & 1 == 1
  }

  function One(k: nat): bv8
    requires k < 8
  {
    1 << (k as bv8)
  }

  /** The two assignments in the inner loop. */
  function PutBit(b: bv8, k: nat, v: bool): bv8
    requires k < 8
  {
    (b & !One(k)) | (if v then One(k) else 0)
  }

  lemma PutBitBv(b: bv8, s: bv8, v: bool, t: bv8)
    requires s < 8 && t < 8
    ensures (((b & !(1 << s)) | (if v then 1 << s else 0)) >> t) & 1 == 1
        <==> if t == s then v else (b >> t) & 1 == 1
  {}

  lemma SameShift(k: nat, j: nat)
    requires k < 8 && j < 8
    ensures (k as bv8) < 8 && (j as bv8) < 8 && (k as bv8 == j as bv8 <==> k == j)
  {
    assert (k as bv8) as nat == k && (j as bv8) as nat == j;
  }

  lemma PutBitBit(b: bv8, k: nat, v: bool, j: nat)
    requires k < 8 && j < 8
    ensures Bit(PutBit(b, k, v), j) == if j == k then v else Bit(b, j)
  {
    SameShift(k, j);
    PutBitBv(b, k as bv8, v, j as bv8);
  }

  lemma SameBits(a: bv8, b: bv8)
    requires forall k: nat | k < 8 :: Bit(a, k) == Bit(b, k)
    ensures a == b
  {
    assert Bit(a, 0) == Bit(b, 0) && Bit(a, 1) == Bit(b, 1) && Bit(a, 2) == Bit(b, 2) && Bit(a, 3) == Bit(b, 3);
    assert Bit(a, 4) == Bit(b, 4) && Bit(a, 5) == Bit(b, 5) && Bit(a, 6) == Bit(b, 6) && Bit(a, 7) == Bit(b, 7);
  }

  /** The condition that ends the inner loop: mask >> shift is zero. */
  predicate NothingAbove(m: bv8, shift: nat)
    requires shift <= 8
  {
    m >> (shift as bv8) == 0
  }

  lemma NothingAbove8(m: bv8)
    ensures NothingAbove(m, 8)
  {}

  lemma NothingAboveStepBv(m: bv8, s: bv8)
    requires s < 8 && m >> s == 0
    ensures m >> (s + 1) == 0 && (m >> s) & 1 != 1
  {}

  lemma NothingAboveStep(m: bv8, s: nat)
    requires s < 8 && NothingAbove(m, s)
    ensures NothingAbove(m, s + 1) && !Bit(m, s)
  {
    NothingAboveStepBv(m, s as bv8);
    assert (s as bv8) + 1 == (s + 1) as bv8;
  }

  // ---------------------------------------------------------------- deposit and extract

  predicate InMemory(mem: seq<bv8>, ps: seq<Pos>) {
    forall p | p in ps :: p.0 < |mem| && p.1 < 8
  }

  ghost predicate Distinct(ps: seq<Pos>) {
    forall a, b | 0 <= a < b < |ps| :: ps[a] != ps[b]
  }

  function Put(mem: seq<bv8>, p: Pos, v: bool): (r: seq<bv8>)
    requires p.0 < |mem| && p.1 < 8
    ensures |r| == |mem|
  {
    mem[p.0 := PutBit(mem[p.0], p.1, v)]
  }

  /** The low bits of val go to the positions in turn. */
  function Deposit(mem: seq<bv8>, ps: seq<Pos>, val: nat): (r: seq<bv8>)
    requires InMemory(mem, ps)
    ensures |r| == |mem|
    decreases |ps|
  {
    if ps == [] then mem else Deposit(Put(mem, ps[0], val % 2 == 1), ps[1..], val / 2)
  }

  /** The number whose low bits stand at the positions in turn. */
  function Extract(mem: seq<bv8>, ps: seq<Pos>): nat
    requires InMemory(mem, ps)
  {
    if ps == [] then 0
    else (if Bit(mem[ps[0].0], ps[0].1) then 1 else 0) + 2 * Extract(mem, ps[1..])
  }

  lemma PutElsewhere(mem: seq<bv8>, p: Pos, v: bool, q: Pos)
    requires p.0 < |mem| && p.1 < 8 && q.0 < |mem| && q.1 < 8
    ensures Bit(Put(mem, p, v)[q.0], q.1) == if p == q then v else Bit(mem[q.0], q.1)
  {
    PutBitBit(mem[p.0], p.1, v, q.1);
  }

  /** Bits outside the positions keep their value. */
  lemma {:induction false} DepositFrame(mem: seq<bv8>, ps: seq<Pos>, val: nat, q: Pos)
    requires InMemory(mem, ps) && q.0 < |mem| && q.1 < 8 && q !in ps
    ensures Bit(Deposit(mem, ps, val)[q.0], q.1) == Bit(mem[q.0], q.1)
    decreases |ps|
  {
    if ps != [] {
      PutElsewhere(mem, ps[0], val % 2 == 1, q);
      DepositFrame(Put(mem, ps[0], val % 2 == 1), ps[1..], val / 2, q);
    }
  }

  /** A byte none of whose bits is a position is not touched at all. */
  lemma DepositOtherBytes(mem: seq<bv8>, ps: seq<Pos>, val: nat, i: nat)
    requires InMemory(mem, ps) && i < |mem| && forall p | p in ps :: p.0 != i
    ensures Deposit(mem, ps, val)[i] == mem[i]
  {
    forall k: nat | k < 8 ensures Bit(Deposit(mem, ps, val)[i], k) == Bit(mem[i], k) {
      DepositFrame(mem, ps, val, (i, k));
    }
    SameBits(Deposit(mem, ps, val)[i], mem[i]);
  }

  /** Reading back what was spread gives the value modulo two to the number of mask bits. */
  lemma {:induction false} ExtractDeposit(mem: seq<bv8>, ps: seq<Pos>, val: nat)
    requires InMemory(mem, ps) && Distinct(ps)
    ensures Extract(Deposit(mem, ps, val), ps) == val % Pow2(|ps|)
    decreases |ps|
  {
    if ps != [] {
      var m1 := Put(mem, ps[0], val % 2 == 1);
      var out := Deposit(mem, ps, val);
      ExtractDeposit(m1, ps[1..], val / 2);
      assert ps[0] !in ps[1..];
      DepositFrame(m1, ps[1..], val / 2, ps[0]);
      PutElsewhere(mem, ps[0], val % 2 == 1, ps[0]);
      HalfMod(val, Pow2(|ps| - 1));
    }
  }

  lemma HalfMod(v: nat, m: nat)
    requires m >= 1
    ensures v % (2 * m) == v % 2 + 2 * ((v / 2) % m)
  {
    var q := (v / 2) / m;
    var r := v % 2 + 2 * ((v / 2) % m);
    assert v / 2 == m * q + (v / 2) % m;
    assert v == q * (2 * m) + r;
    DivMod(v, 2 * m, q, r);
  }

  /** Two objects that agree at every position hold the same number there, and conversely. */
  lemma {:induction false} ExtractPattern(a: seq<bv8>, b: seq<bv8>, ps: seq<Pos>)
    requires InMemory(a, ps) && InMemory(b, ps)
    ensures Extract(a, ps) == Extract(b, ps) <==>
            forall k | 0 <= k < |ps| :: Bit(a[ps[k].0], ps[k].1) == Bit(b[ps[k].0], ps[k].1)
  {
    if ps != [] {
      ExtractPattern(a, b, ps[1..]);
      if forall k | 0 <= k < |ps| :: Bit(a[ps[k].0], ps[k].1) == Bit(b[ps[k].0], ps[k].1) {
        forall k | 0 <= k < |ps[1..]|
          ensures Bit(a[ps[1..][k].0], ps[1..][k].1) == Bit(b[ps[1..][k].0], ps[1..][k].1)
        {
          assert ps[1..][k] == ps[k + 1];
        }
      } else {
        var k :| 0 <= k < |ps| && Bit(a[ps[k].0], ps[k].1) != Bit(b[ps[k].0], ps[k].1);
        if k > 0 { assert ps[1..][k - 1] == ps[k]; }
      }
    }
  }

  // ---------------------------------------------------------------- positions of a mask

  /** struct arg, as far as the storage goes; an empty mask stands for none. */
  datatype Arg = Arg(hton: bool, offset: nat, size: nat, mask: seq<bv8>)

  predicate MaskOk(arg: Arg) {
    |arg.mask| == arg.size
  }

  /** The j-th byte the outer loop visits. */
  function ByteAt(arg: Arg, j: nat): nat
    requires j < arg.size
  {
    if arg.hton then arg.size - 1 - j else j
  }

  /** A step of the two loops: visited byte j, bit number shift. */
  datatype Visit = Visit(j: nat, shift: nat)

  predicate Before(v: Visit, w: Visit) {
    v.j < w.j || (v.j == w.j && v.shift < w.shift)
  }

  predicate VisitOk(arg: Arg, v: Visit) {
    v.j < arg.size && v.shift < 8
  }

  function PosAt(arg: Arg, v: Visit): Pos
    requires VisitOk(arg, v)
  {
    (arg.offset + ByteAt(arg, v.j), v.shift)
  }

  predicate Masked(arg: Arg, v: Visit)
    requires MaskOk(arg) && VisitOk(arg, v)
  {
    Bit(arg.mask[ByteAt(arg, v.j)], v.shift)
  }

  /** The visits from (j, shift) on that hit a mask bit. */
  function Visits(arg: Arg, j: nat, shift: nat): (vs: seq<Visit>)
    requires MaskOk(arg) && j <= arg.size && shift <= 8
    ensures forall k | 0 <= k < |vs| ::
              VisitOk(arg, vs[k]) && Masked(arg, vs[k]) && !Before(vs[k], Visit(j, shift))
    ensures forall a, b | 0 <= a < b < |vs| :: Before(vs[a], vs[b])
    decreases arg.size - j, 8 - shift
  {
    if j == arg.size then []
    else if shift == 8 then Visits(arg, j + 1, 0)
    else if Masked(arg, Visit(j, shift)) then [Visit(j, shift)] + Visits(arg, j, shift + 1)
    else Visits(arg, j, shift + 1)
  }

  lemma {:induction false} VisitsComplete(arg: Arg, j: nat, shift: nat, v: Visit)
    requires MaskOk(arg) && j <= arg.size && shift <= 8
    requires VisitOk(arg, v) && Masked(arg, v) && !Before(v, Visit(j, shift))
    ensures v in Visits(arg, j, shift)
    decreases arg.size - j, 8 - shift
  {
    if shift == 8 {
      VisitsComplete(arg, j + 1, 0, v);
    } else if v != Visit(j, shift) {
      VisitsComplete(arg, j, shift + 1, v);
    }
  }

  /** The masked bits still to come from (j, shift) on. */
  function Remaining(arg: Arg, j: nat, shift: nat): (ps: seq<Pos>)
    requires MaskOk(arg) && j <= arg.size && shift <= 8
    ensures |ps| == |Visits(arg, j, shift)|
  {
    var vs := Visits(arg, j, shift);
    seq(|vs|, k requires 0 <= k < |vs| => PosAt(arg, vs[k]))
  }

  function Positions(arg: Arg): seq<Pos>
    requires MaskOk(arg)
  {
    Remaining(arg, 0, 0)
  }

  /** One bit further. */
  lemma RemainingStep(arg: Arg, j: nat, shift: nat)
    requires MaskOk(arg) && j < arg.size && shift < 8
    ensures var v := Visit(j, shift);
            Remaining(arg, j, shift) ==
              if Masked(arg, v) then [PosAt(arg, v)] + Remaining(arg, j, shift + 1)
              else Remaining(arg, j, shift + 1)
  {}

  ghost function MaskBits(arg: Arg): set<Pos>
    requires MaskOk(arg)
  {
    set i: nat, k: nat | i < arg.size && k < 8 && Bit(arg.mask[i], k) :: (arg.offset + i, k)
  }

  lemma {:induction false} DistinctCount(ps: seq<Pos>, s: set<Pos>)
    requires Distinct(ps) && forall p: Pos :: p in ps <==> p in s
    ensures |ps| == |s|
  {
    if ps == [] {
      assert s == {};
    } else {
      forall p: Pos ensures p in ps[1..] <==> p in s - {ps[0]} {
        if p in s - {ps[0]} {
          var k :| 0 <= k < |ps| && ps[k] == p;
          assert ps[1..][k - 1] == p;
        }
      }
      DistinctCount(ps[1..], s - {ps[0]});
    }
  }

  lemma PositionsDistinct(arg: Arg)
    requires MaskOk(arg)
    ensures Distinct(Positions(arg))
  {
    hide Bit;
    var ps := Positions(arg);
    var vs := Visits(arg, 0, 0);
    forall a, b | 0 <= a < b < |ps| ensures ps[a] != ps[b] {
      assert Before(vs[a], vs[b]);
    }
  }

  lemma MaskBitIsPosition(arg: Arg, i: nat, k: nat)
    requires MaskOk(arg) && i < arg.size && k < 8 && Bit(arg.mask[i], k)
    ensures (arg.offset + i, k) in Positions(arg)
  {
    hide Bit;
    var v := Visit(if arg.hton then arg.size - 1 - i else i, k);
    VisitsComplete(arg, 0, 0, v);
    var vs := Visits(arg, 0, 0);
    var n :| 0 <= n < |vs| && vs[n] == v;
    assert Positions(arg)[n] == (arg.offset + i, k);
  }

  lemma PositionIsMaskBit(arg: Arg, p: Pos)
    requires MaskOk(arg) && p in Positions(arg)
    ensures p in MaskBits(arg)
  {
    hide Bit;
    var vs := Visits(arg, 0, 0);
    var n :| 0 <= n < |vs| && Positions(arg)[n] == p;
    assert Masked(arg, vs[n]);
  }

  /** Each masked bit is visited once and no other; the length the routine returns is the
      number of bits set in the mask. */
  lemma PositionsAreMaskBits(arg: Arg)
    requires MaskOk(arg)
    ensures var ps := Positions(arg);
            && Distinct(ps) && |ps| == |MaskBits(arg)|
            && forall p: Pos :: p in ps <==> p in MaskBits(arg)
  {
    PositionsDistinct(arg);
    forall p | p in Positions(arg) ensures p in MaskBits(arg) {
      PositionIsMaskBit(arg, p);
    }
    forall p | p in MaskBits(arg) ensures p in Positions(arg) {
      MaskBitIsPosition(arg, p.0 - arg.offset, p.1);
    }
    DistinctCount(Positions(arg), MaskBits(arg));
  }

  /** Once the rest of the mask byte is zero the inner loop may stop. */
  lemma {:induction false} SkipRest(arg: Arg, j: nat, shift: nat)
    requires MaskOk(arg) && j < arg.size && shift <= 8
    requires NothingAbove(arg.mask[ByteAt(arg, j)], shift)
    ensures Remaining(arg, j, shift) == Remaining(arg, j + 1, 0)
    decreases 8 - shift
  {
    hide Bit, NothingAbove;
    if shift < 8 {
      NothingAboveStep(arg.mask[ByteAt(arg, j)], shift);
      RemainingStep(arg, j, shift);
      SkipRest(arg, j, shift + 1);
    }
  }

  // ---------------------------------------------------------------- byte order

  /** The number that bytes stand for, most significant byte first. */
  function BigEndian(b: seq<bv8>): nat {
    if b == [] then 0 else 256 * BigEndian(b[..|b| - 1]) + b[|b| - 1] as nat
  }

  /** The number that bytes stand for, least significant byte first. */
  function LittleEndian(b: seq<bv8>): nat {
    if b == [] then 0 else b[0] as nat + 256 * LittleEndian(b[1..])
  }

  /** The masked bits are walked from the least significant to the most significant one: in network
      order the last byte comes first, otherwise the first one, and in a byte bit 0. */
  lemma PositionsAscend(arg: Arg, a: nat, b: nat)
    requires MaskOk(arg) && a < b < |Positions(arg)|
    ensures var p, q := Positions(arg)[a], Positions(arg)[b];
            if arg.hton then p.0 > q.0 || (p.0 == q.0 && p.1 < q.1) else p.0 < q.0 || (p.0 == q.0 && p.1 < q.1)
  {
    hide Bit;
    var vs := Visits(arg, 0, 0);
    assert Before(vs[a], vs[b]);
  }

  lemma Halves(x: bv8)
    ensures x as nat == (if x & 1 == 1 then 1 else 0) + 2 * ((x >> 1) as nat)
  {
    var h: bv8 := x >> 1;
    assert x == if x & 1 == 1 then h + h + 1 else h + h;
  }

  lemma ShiftOneMore(b: bv8, s: bv8)
    requires s < 8
    ensures b >> (s + 1) == (b >> s) >> 1
  {}

  /** The bits of a byte from `shift` on, as a number. */
  function HighBits(b: bv8, shift: nat): nat
    requires shift <= 8
  {
    (b >> (shift as bv8)) as nat
  }

  lemma HighBitsStep(b: bv8, shift: nat)
    requires shift < 8
    ensures HighBits(b, shift) == (if Bit(b, shift) then 1 else 0) + 2 * HighBits(b, shift + 1)
  {
    var s := shift as bv8;
    Halves(b >> s);
    ShiftOneMore(b, s);
    assert s + 1 == (shift + 1) as bv8;
  }

  lemma HighBitsEnds(b: bv8)
    ensures HighBits(b, 0) == b as nat && HighBits(b, 8) == 0
  {
    assert b >> (0 as bv8) == b && b >> (8 as bv8) == 0;
  }

  // ---------------------------------------------------------------- arg_entry_bf_fill

  lemma PositionsInObject(arg: Arg, mem: seq<bv8>)
    requires MaskOk(arg) && arg.offset + arg.size <= |mem|
    ensures InMemory(mem, Positions(arg))
  {
    hide Bit;
  }

  /** What is left to do from (j, shift) on leads to the same end as all of `ps` from `mem`. */
  ghost predicate OnTrack(mem: seq<bv8>, ps: seq<Pos>, val0: nat,
                          cur: seq<bv8>, arg: Arg, j: nat, shift: nat, val: nat)
    requires MaskOk(arg) && j <= arg.size && shift <= 8
  {
    && |mem| == |cur| && InMemory(mem, ps) && InMemory(cur, Remaining(arg, j, shift))
    && Deposit(cur, Remaining(arg, j, shift), val) == Deposit(mem, ps, val0)
  }

  lemma TrackStep(mem: seq<bv8>, ps: seq<Pos>, val0: nat, cur: seq<bv8>, arg: Arg, j: nat, shift: nat, val: nat)
    requires MaskOk(arg) && j < arg.size && shift < 8
    requires OnTrack(mem, ps, val0, cur, arg, j, shift, val)
    ensures !Masked(arg, Visit(j, shift)) ==> OnTrack(mem, ps, val0, cur, arg, j, shift + 1, val)
    ensures Masked(arg, Visit(j, shift)) ==> arg.offset + ByteAt(arg, j) < |cur|
    ensures Masked(arg, Visit(j, shift)) ==>
              OnTrack(mem, ps, val0, Put(cur, PosAt(arg, Visit(j, shift)), val % 2 == 1), arg, j, shift + 1, val / 2)
  {
    hide Bit;
    RemainingStep(arg, j, shift);
    if Masked(arg, Visit(j, shift)) {
      assert Remaining(arg, j, shift)[0] == PosAt(arg, Visit(j, shift));
      assert Remaining(arg, j, shift)[1..] == Remaining(arg, j, shift + 1);
    }
  }

  /** The inner loop: one byte of the mask. */
  method FillByte(dst: array?<bv8>, val: nat, arg: Arg, i: nat, ghost j: nat,
                  ghost mem: seq<bv8>, ghost ps: seq<Pos>, ghost val0: nat)
    returns (len: nat, rest: nat)
    requires MaskOk(arg) && j < arg.size && i == ByteAt(arg, j)
    requires dst != null ==> arg.offset + arg.size <= dst.Length && OnTrack(mem, ps, val0, dst[..], arg, j, 0, val)
    modifies dst
    ensures len + |Remaining(arg, j + 1, 0)| == |Remaining(arg, j, 0)|
    ensures dst != null ==> OnTrack(mem, ps, val0, dst[..], arg, j + 1, 0, rest)
  {
    hide Bit, NothingAbove, Visits, Deposit, InMemory;
    len, rest := 0, val;
    var shift := 0;
    while !NothingAbove(arg.mask[i], shift)
      invariant shift <= 8
      invariant len + |Remaining(arg, j, shift)| == |Remaining(arg, j, 0)|
      invariant dst != null ==> OnTrack(mem, ps, val0, dst[..], arg, j, shift, rest)
      decreases 8 - shift
    {
      if shift == 8 { NothingAbove8(arg.mask[i]); }
      RemainingStep(arg, j, shift);
      if dst != null { TrackStep(mem, ps, val0, dst[..], arg, j, shift, rest); }
      if Bit(arg.mask[i], shift) {
        len := len + 1;
        if dst != null {
          ghost var cur := dst[..];
          dst[arg.offset + i] := PutBit(dst[arg.offset + i], shift, rest % 2 == 1);
          assert dst[..] == Put(cur, PosAt(arg, Visit(j, shift)), rest % 2 == 1);
          rest := rest / 2;
        }
      }
      shift := shift + 1;
    }
    SkipRest(arg, j, shift);
  }

  /** arg_entry_bf_fill: returns the number of mask bits, and spreads val over them; without
      an object it only counts. */
  method BfFill(dst: array?<bv8>, val: nat, arg: Arg) returns (len: nat)
    requires MaskOk(arg)
    requires dst != null ==> arg.offset + arg.size <= dst.Length
    modifies dst
    ensures len == |Positions(arg)|
    ensures dst != null ==> InMemory(old(dst[..]), Positions(arg))
    ensures dst != null ==> dst[..] == Deposit(old(dst[..]), Positions(arg), val)
  {
    hide Bit;
    if dst != null { PositionsInObject(arg, dst[..]); }
    len := 0;
    var i, end, sub, add := arg.size, 0, 1, 0;
    if !arg.hton {
      i, end, sub, add := 0, arg.size, 0, 1;
    }
    var rest := val;
    ghost var j := 0;
    while i != end
      invariant j <= arg.size
      invariant arg.hton ==> i == arg.size - j && end == 0 && sub == 1 && add == 0
      invariant !arg.hton ==> i == j && end == arg.size && sub == 0 && add == 1
      invariant len + |Remaining(arg, j, 0)| == |Positions(arg)|
      invariant dst != null ==> OnTrack(old(dst[..]), Positions(arg), val, dst[..], arg, j, 0, rest)
      decreases arg.size - j
    {
      i := i - sub;
      var n;
      n, rest := FillByte(dst, rest, arg, i, j, old(if dst != null then dst[..] else []), Positions(arg), val);
      len := len + n;
      i := i + add;
      j := j + 1;
    }
  }
}
