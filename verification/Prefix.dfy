/** parse_prefix of test-pmd/cmdline_flow.c: a prefix length becomes a bit-mask, through
  arg_entry_bf_fill for bit-field arguments and through memset for plain ones. */
module Prefix {
  import opened BitField
  import opened Numbers

  /** The number whose u highest of n bits are set. */
  function PrefixValue(n: nat, u: nat): nat
    requires u <= n
  {
    MulMono(0, Pow2(u) - 1, Pow2(n - u));
    (Pow2(u) - 1) * Pow2(n - u)
  }

  function ValBit(v: nat, j: nat): bool {
    if j == 0 then v % 2 == 1 else ValBit(v / 2, j - 1)
  }

  lemma {:induction false} PrefixValueBit(n: nat, u: nat, j: nat)
    requires u <= n && j < n
    ensures ValBit(PrefixValue(n, u), j) <==> j >= n - u
    decreases n
  {
    if u < n {
      assert PrefixValue(n, u) == 2 * PrefixValue(n - 1, u) by {
        MulSwap(Pow2(u) - 1, Pow2(n - 1 - u));
      }
      if j > 0 { PrefixValueBit(n - 1, u, j - 1); }
    } else {
      assert PrefixValue(n, u) == 2 * PrefixValue(n - 1, u - 1) + 1;
      if j > 0 { PrefixValueBit(n - 1, u - 1, j - 1); }
    }
  }

  lemma MulSwap(a: int, b: int)
    ensures a * (2 * b) == 2 * (a * b)
  {}

  lemma PrefixValueBound(n: nat, u: nat)
    requires u <= n
    ensures PrefixValue(n, u) < Pow2(n)
  {
    Pow2Add(u, n - u);
    MulLess(Pow2(u) - 1, Pow2(n - u));
  }

  lemma MulLess(a: nat, b: nat)
    requires b >= 1
    ensures a * b < (a + 1) * b
  {}

  /** Each deposited bit is the matching bit of the value. */
  lemma {:induction false} DepositBit(mem: seq<bv8>, ps: seq<Pos>, val: nat, j: nat)
    requires InMemory(mem, ps) && Distinct(ps) && j < |ps|
    ensures Bit(Deposit(mem, ps, val)[ps[j].0], ps[j].1) <==> ValBit(val, j)
    decreases |ps|
  {
    hide Bit, PutBit;
    var m1 := Put(mem, ps[0], val % 2 == 1);
    if j == 0 {
      assert ps[0] !in ps[1..];
      PutElsewhere(mem, ps[0], val % 2 == 1, ps[0]);
      DepositFrame(m1, ps[1..], val / 2, ps[0]);
    } else {
      DepositBit(m1, ps[1..], val / 2, j - 1);
    }
  }

  /** The bit-mask path sets exactly the u most significant masked bits. */
  lemma BitmaskPathIsPrefix(mem: seq<bv8>, arg: Arg, u: nat, j: nat)
    requires MaskOk(arg) && arg.offset + arg.size <= |mem| && u <= |Positions(arg)|
    requires j < |Positions(arg)|
    ensures InMemory(mem, Positions(arg))
    ensures var ps := Positions(arg);
            Bit(Deposit(mem, ps, PrefixValue(|ps|, u))[ps[j].0], ps[j].1) <==> j >= |ps| - u
  {
    hide Bit, PutBit;
    PositionsInObject(arg, mem);
    PositionsDistinct(arg);
    DepositBit(mem, Positions(arg), PrefixValue(|Positions(arg)|, u), j);
    PrefixValueBit(|Positions(arg)|, u, j);
  }

  // ---------------------------------------------------------------- the memset path

  /** The field as its own mask: every bit. */
  function Whole(arg: Arg): (w: Arg)
    ensures MaskOk(w)
  {
    arg.(mask := seq(arg.size, _ => 0xff))
  }

  lemma AllOnes(k: nat)
    requires k < 8
    ensures Bit(0xff, k) && !Bit(0, k)
  {
    assert k == 0 || k == 1 || k == 2 || k == 3 || k == 4 || k == 5 || k == 6 || k == 7;
  }

  /** With every bit masked, the significance of a visit is its place in the walk. */
  lemma {:induction false} WholeVisits(arg: Arg, j: nat, shift: nat)
    requires j <= arg.size && shift <= 8
    ensures var vs := Visits(Whole(arg), j, shift);
            && (j < arg.size ==> |vs| == 8 * (arg.size - j) - shift)
            && (j == arg.size ==> |vs| == 0)
            && forall k | 0 <= k < |vs| :: 8 * vs[k].j + vs[k].shift == 8 * j + shift + k
    decreases arg.size - j, 8 - shift
  {
    hide Bit;
    if j < arg.size {
      if shift == 8 {
        WholeVisits(arg, j + 1, 0);
      } else {
        AllOnes(shift);
        WholeVisits(arg, j, shift + 1);
      }
    }
  }

  lemma RemainingInObject(arg: Arg, mem: seq<bv8>, j: nat, shift: nat)
    requires MaskOk(arg) && arg.offset + arg.size <= |mem| && j <= arg.size && shift <= 8
    ensures InMemory(mem, Remaining(arg, j, shift))
  {
    hide Bit;
  }

  lemma ExtractHead(mem: seq<bv8>, p: Pos, rest: seq<Pos>)
    requires InMemory(mem, [p] + rest)
    ensures p.0 < |mem| && p.1 < 8 && InMemory(mem, rest)
    ensures Extract(mem, [p] + rest) == (if Bit(mem[p.0], p.1) then 1 else 0) + 2 * Extract(mem, rest)
  {
    hide Bit;
    assert p in [p] + rest && ([p] + rest)[1..] == rest;
  }

  lemma AllMasked(arg: Arg, j: nat, shift: nat)
    requires j < arg.size && shift < 8
    ensures var w, v := Whole(arg), Visit(j, shift);
            MaskOk(w) && w.offset == arg.offset && w.size == arg.size && VisitOk(w, v) && Masked(w, v) && PosAt(w, v) == (arg.offset + ByteAt(arg, j), shift)
  {
    AllOnes(shift);
    hide Bit;
  }

  /** One bit of a byte of which every bit is visited. */
  lemma WholeStep(arg: Arg, mem: seq<bv8>, j: nat, shift: nat)
    requires arg.offset + arg.size <= |mem| && j < arg.size && shift < 8
    ensures InMemory(mem, Remaining(Whole(arg), j, shift)) && InMemory(mem, Remaining(Whole(arg), j, shift + 1))
    ensures Extract(mem, Remaining(Whole(arg), j, shift)) ==
              (if Bit(mem[arg.offset + ByteAt(arg, j)], shift) then 1 else 0)
              + 2 * Extract(mem, Remaining(Whole(arg), j, shift + 1))
  {
    hide *;
    var w := Whole(arg);
    AllMasked(arg, j, shift);
    RemainingInObject(w, mem, j, shift);
    RemainingInObject(w, mem, j, shift + 1);
    RemainingStep(w, j, shift);
    ExtractHead(mem, PosAt(w, Visit(j, shift)), Remaining(w, j, shift + 1));
  }

  lemma DoubleTail(bit: nat, high: nat, high': nat, p: nat, rest: nat)
    requires high == bit + 2 * high'
    ensures bit + 2 * (high' + p * rest) == high + 2 * p * rest
  {}

  /** The bits of one byte, and then those of the bytes visited after it. */
  lemma {:induction false} WholeByte(arg: Arg, mem: seq<bv8>, j: nat, shift: nat)
    requires arg.offset + arg.size <= |mem| && j < arg.size && shift <= 8
    ensures InMemory(mem, Remaining(Whole(arg), j, shift)) && InMemory(mem, Remaining(Whole(arg), j + 1, 0))
    ensures Extract(mem, Remaining(Whole(arg), j, shift)) ==
              HighBits(mem[arg.offset + ByteAt(arg, j)], shift) + Pow2(8 - shift) * Extract(mem, Remaining(Whole(arg), j + 1, 0))
    decreases 8 - shift
  {
    hide Bit, HighBits, Extract;
    var b := mem[arg.offset + ByteAt(arg, j)];
    RemainingInObject(Whole(arg), mem, j, shift);
    RemainingInObject(Whole(arg), mem, j + 1, 0);
    if shift == 8 {
      HighBitsEnds(b);
      assert Remaining(Whole(arg), j, 8) == Remaining(Whole(arg), j + 1, 0);
    } else {
      WholeStep(arg, mem, j, shift);
      WholeByte(arg, mem, j, shift + 1);
      HighBitsStep(b, shift);
      Pow2Step(7 - shift);
      hide *;
      DoubleTail(if Bit(b, shift) then 1 else 0, HighBits(b, shift), HighBits(b, shift + 1), Pow2(8 - (shift + 1)),
                 Extract(mem, Remaining(Whole(arg), j + 1, 0)));
    }
  }

  /** The field without the j bytes of least significance, as a number in its byte order. */
  function FieldFrom(arg: Arg, mem: seq<bv8>, j: nat): nat
    requires arg.offset + arg.size <= |mem| && j <= arg.size
  {
    if arg.hton then BigEndian(mem[arg.offset..arg.offset + arg.size - j])
    else LittleEndian(mem[arg.offset + j..arg.offset + arg.size])
  }

  lemma FieldFromStep(arg: Arg, mem: seq<bv8>, j: nat)
    requires arg.offset + arg.size <= |mem| && j < arg.size
    ensures FieldFrom(arg, mem, j) == mem[arg.offset + ByteAt(arg, j)] as nat + 256 * FieldFrom(arg, mem, j + 1)
  {
    if arg.hton {
      var f := mem[arg.offset..arg.offset + arg.size - j];
      assert f[..|f| - 1] == mem[arg.offset..arg.offset + arg.size - (j + 1)];
    } else {
      var f := mem[arg.offset + j..arg.offset + arg.size];
      assert f[1..] == mem[arg.offset + (j + 1)..arg.offset + arg.size];
    }
  }

  lemma {:induction false} WholeFrom(arg: Arg, mem: seq<bv8>, j: nat)
    requires arg.offset + arg.size <= |mem| && j <= arg.size
    ensures InMemory(mem, Remaining(Whole(arg), j, 0))
    ensures Extract(mem, Remaining(Whole(arg), j, 0)) == FieldFrom(arg, mem, j)
    decreases arg.size - j
  {
    RemainingInObject(Whole(arg), mem, j, 0);
    if j == arg.size {
      assert Remaining(Whole(arg), j, 0) == [];
    } else {
      WholeFrom(arg, mem, j + 1);
      WholeByte(arg, mem, j, 0);
      FieldFromStep(arg, mem, j);
      HighBitsEnds(mem[arg.offset + ByteAt(arg, j)]);
      assert Pow2(8) == 256;
      hide Bit, HighBits, Extract, FieldFrom, Remaining;
    }
  }

  /** The number at the field: big-endian for a field in network order, otherwise little-endian. */
  function FieldInteger(arg: Arg, mem: seq<bv8>): nat
    requires arg.offset + arg.size <= |mem|
  {
    var field := mem[arg.offset..arg.offset + arg.size];
    if arg.hton then BigEndian(field) else LittleEndian(field)
  }

  /** Through an all-ones mask the walk reads the field in its byte order ... */
  lemma WholeIsInteger(arg: Arg, mem: seq<bv8>)
    requires arg.offset + arg.size <= |mem|
    ensures InMemory(mem, Positions(Whole(arg)))
    ensures Extract(mem, Positions(Whole(arg))) == FieldInteger(arg, mem)
  {
    WholeFrom(arg, mem, 0);
  }

  /** ... and writes it so: a number deposited through an all-ones mask is stored big-endian or
      little-endian, modulo two to the number of its bits. */
  lemma DepositIsStore(arg: Arg, mem: seq<bv8>, val: nat)
    requires arg.offset + arg.size <= |mem|
    ensures InMemory(mem, Positions(Whole(arg)))
    ensures FieldInteger(arg, Deposit(mem, Positions(Whole(arg)), val)) == val % Pow2(8 * arg.size)
  {
    hide Bit, Deposit, Extract, FieldInteger, Remaining, Visits;
    WholeIsInteger(arg, mem);
    WholeVisits(arg, 0, 0);
    PositionsDistinct(Whole(arg));
    ExtractDeposit(mem, Positions(Whole(arg)), val);
    WholeIsInteger(arg, Deposit(mem, Positions(Whole(arg)), val));
  }

  /** conv[]: the byte whose e highest bits are set. */
  function Conv(e: nat): bv8
    requires e < 9
  {
    [0x00, 0x80, 0xc0, 0xe0, 0xf0, 0xf8, 0xfc, 0xfe, 0xff][e]
  }

  lemma ConvBit(e: nat, k: nat)
    requires e < 9 && k < 8
    ensures Bit(Conv(e), k) <==> k >= 8 - e
  {
    assert k == 0 || k == 1 || k == 2 || k == 3 || k == 4 || k == 5 || k == 6 || k == 7;
  }

  /** `bytes` as the program computes it: an unsigned int. */
  function Bytes(u: nat): nat {
    (u / 8) % U32
  }

  predicate MemsetAccepts(u: nat, size: nat) {
    Bytes(u) <= size && (Bytes(u) + if u % 8 != 0 then 1 else 0) % U32 <= size
  }

  /** The prefix length the memset path in fact honours. */
  function EffectiveLength(u: nat): nat {
    8 * Bytes(u) + u % 8
  }

  /** The byte visit j of the field receives. */
  function PrefixByte(size: nat, u: nat, j: nat): bv8
    requires j < size
  {
    if j >= size - Bytes(u) then 0xff
    else if j == size - Bytes(u) - 1 && u % 8 != 0 then Conv(u % 8)
    else 0
  }

  lemma PrefixByteBit(size: nat, u: nat, j: nat, k: nat)
    requires j < size && k < 8 && Bytes(u) <= size
    ensures Bit(PrefixByte(size, u, j), k) <==> 8 * j + k >= 8 * size - EffectiveLength(u)
  {
    hide Bit, Conv, Bytes;
    AllOnes(k);
    if u % 8 != 0 { ConvBit(u % 8, k); }
  }

  /** mem after the memset calls: the field holds the prefix bytes, all else is as it was. */
  ghost predicate PrefixWritten(was: seq<bv8>, mem: seq<bv8>, arg: Arg, u: nat) {
    && |mem| == |was| && arg.offset + arg.size <= |mem|
    && (forall i | 0 <= i < |mem| && !(arg.offset <= i < arg.offset + arg.size) :: mem[i] == was[i])
    && (forall i | 0 <= i < arg.size :: mem[arg.offset + i] == PrefixByte(arg.size, u, ByteAt(arg, i)))
  }

  lemma WholePosition(arg: Arg, mem: seq<bv8>, n: nat) returns (j: nat, k: nat)
    requires n < 8 * arg.size && arg.offset + arg.size <= |mem|
    ensures |Positions(Whole(arg))| == 8 * arg.size && InMemory(mem, Positions(Whole(arg)))
    ensures j < arg.size && k < 8 && n == 8 * j + k
    ensures Positions(Whole(arg))[n] == (arg.offset + ByteAt(arg, j), k)
  {
    hide Bit;
    WholeVisits(arg, 0, 0);
    PositionsInObject(Whole(arg), mem);
    var v := Visits(Whole(arg), 0, 0)[n];
    j, k := v.j, v.shift;
  }

  /** Bit k of the field byte with significance j. */
  predicate FieldBit(mem: seq<bv8>, arg: Arg, j: nat, k: nat)
    requires arg.offset + arg.size <= |mem| && j < arg.size && k < 8
  {
    Bit(mem[arg.offset + ByteAt(arg, j)], k)
  }

  /** Two objects of one length that differ at most inside the field, and hold the same bit
      at every place of it, are equal. */
  lemma SameField(a: seq<bv8>, b: seq<bv8>, arg: Arg)
    requires |a| == |b| && arg.offset + arg.size <= |a|
    requires forall i | 0 <= i < |a| && !(arg.offset <= i < arg.offset + arg.size) :: a[i] == b[i]
    requires forall j: nat, k: nat | j < arg.size && k < 8 :: FieldBit(a, arg, j, k) == FieldBit(b, arg, j, k)
    ensures a == b
  {
    hide Bit;
    forall i | 0 <= i < |a| ensures a[i] == b[i] {
      if arg.offset <= i < arg.offset + arg.size {
        var j := if arg.hton then arg.size - 1 - (i - arg.offset) else i - arg.offset;
        forall k: nat | k < 8 ensures Bit(a[i], k) == Bit(b[i], k) {
          assert FieldBit(a, arg, j, k) == FieldBit(b, arg, j, k);
        }
        SameBits(a[i], b[i]);
      }
    }
  }

  lemma MemsetBit(was: seq<bv8>, mem: seq<bv8>, arg: Arg, u: nat, j: nat, k: nat)
    requires PrefixWritten(was, mem, arg, u) && Bytes(u) <= arg.size && j < arg.size && k < 8
    ensures FieldBit(mem, arg, j, k) <==> 8 * j + k >= 8 * arg.size - EffectiveLength(u)
  {
    hide Bit, Bytes, EffectiveLength, PrefixByte;
    var i := ByteAt(arg, j);
    assert ByteAt(arg, i) == j;
    assert mem[arg.offset + i] == PrefixByte(arg.size, u, ByteAt(arg, i));
    PrefixByteBit(arg.size, u, j, k);
  }

  /** The whole field as the bit-mask path would fill it with a prefix of length e. */
  ghost function BitmaskFill(was: seq<bv8>, arg: Arg, e: nat): (mem: seq<bv8>)
    requires arg.offset + arg.size <= |was| && e <= 8 * arg.size
    ensures |mem| == |was|
  {
    PositionsInObject(Whole(arg), was);
    Deposit(was, Positions(Whole(arg)), PrefixValue(8 * arg.size, e))
  }

  lemma BitmaskBit(was: seq<bv8>, arg: Arg, e: nat, j: nat, k: nat)
    requires arg.offset + arg.size <= |was| && e <= 8 * arg.size && j < arg.size && k < 8
    ensures FieldBit(BitmaskFill(was, arg, e), arg, j, k) <==> 8 * j + k >= 8 * arg.size - e
  {
    hide Bit, PutBit, Deposit, Visits;
    var j', k' := WholePosition(arg, was, 8 * j + k);
    assert j' == j && k' == k;
    BitmaskPathIsPrefix(was, Whole(arg), e, 8 * j + k);
  }

  lemma BitmaskFrame(was: seq<bv8>, arg: Arg, e: nat, i: nat)
    requires arg.offset + arg.size <= |was| && e <= 8 * arg.size
    requires i < |was| && !(arg.offset <= i < arg.offset + arg.size)
    ensures BitmaskFill(was, arg, e)[i] == was[i]
  {
    hide Bit, PutBit, Deposit, Visits;
    PositionsInObject(Whole(arg), was);
    DepositOtherBytes(was, Positions(Whole(arg)), PrefixValue(8 * arg.size, e), i);
  }

  /** The two implementations agree byte for byte: memset writes what the bit-mask path
      writes for an all-ones mask. */
  lemma MemsetAgreesWithBitmask(was: seq<bv8>, mem: seq<bv8>, arg: Arg, u: nat)
    requires PrefixWritten(was, mem, arg, u) && Bytes(u) <= arg.size && EffectiveLength(u) <= 8 * arg.size
    ensures mem == BitmaskFill(was, arg, EffectiveLength(u))
  {
    var e := EffectiveLength(u);
    hide Bit, Bytes, EffectiveLength, PrefixByte, BitmaskFill;
    forall i | 0 <= i < |mem| && !(arg.offset <= i < arg.offset + arg.size)
      ensures BitmaskFill(was, arg, e)[i] == mem[i]
    {
      BitmaskFrame(was, arg, e, i);
    }
    forall j: nat, k: nat | j < arg.size && k < 8
      ensures FieldBit(mem, arg, j, k) == FieldBit(BitmaskFill(was, arg, e), arg, j, k)
    {
      MemsetBit(was, mem, arg, u, j, k);
      BitmaskBit(was, arg, e, j, k);
    }
    SameField(mem, BitmaskFill(was, arg, e), arg);
  }

  /** Read in its own byte order, the field holds (2^u - 1) * 2^(8 * size - u). */
  lemma PrefixAsInteger(was: seq<bv8>, mem: seq<bv8>, arg: Arg, u: nat)
    requires PrefixWritten(was, mem, arg, u) && Bytes(u) <= arg.size && EffectiveLength(u) <= 8 * arg.size
    ensures InMemory(mem, Positions(Whole(arg)))
    ensures Extract(mem, Positions(Whole(arg))) == PrefixValue(8 * arg.size, EffectiveLength(u))
  {
    var e := EffectiveLength(u);
    var n := 8 * arg.size;
    MemsetAgreesWithBitmask(was, mem, arg, u);
    hide Bit, PutBit, Bytes, EffectiveLength, PrefixByte, Deposit, Extract, Visits, PrefixValue;
    WholeVisits(arg, 0, 0);
    PositionsInObject(Whole(arg), was);
    PositionsDistinct(Whole(arg));
    ExtractDeposit(was, Positions(Whole(arg)), PrefixValue(n, e));
    PrefixValueBound(n, e);
    SmallMod(PrefixValue(n, e), Pow2(n));
  }

  /** In network order the bytes after the memset calls are the big-endian form of
      (2^u - 1) * 2^(8 * size - u), otherwise its little-endian form. */
  lemma PrefixByteOrder(was: seq<bv8>, mem: seq<bv8>, arg: Arg, u: nat)
    requires PrefixWritten(was, mem, arg, u) && Bytes(u) <= arg.size && EffectiveLength(u) <= 8 * arg.size
    requires arg.offset + arg.size <= |mem|
    ensures FieldInteger(arg, mem) == PrefixValue(8 * arg.size, EffectiveLength(u))
  {
    hide *;
    PrefixAsInteger(was, mem, arg, u);
    WholeIsInteger(arg, mem);
  }

  // ---------------------------------------------------------------- which lengths are taken

  /** The range check bounds the effective length, not the length given. */
  lemma AcceptedLengths(u: nat, size: nat)
    requires size < U32 - 1
    ensures MemsetAccepts(u, size) <==> EffectiveLength(u) <= 8 * size
  {}

  /** The length is honoured exactly when it is below 2^35, where u / 8 fits 32 bits. */
  lemma LengthHonouredIff(u: nat)
    requires u < U64
    ensures EffectiveLength(u) == u <==> u < 8 * U32
  {}

  /** So for every field the test "accepted if and only if it fits" holds below 2^35, and
      2^35 itself is taken for a length of zero. */
  lemma OverlongLengthSlipsThrough(size: nat)
    requires size < U32 - 1
    ensures MemsetAccepts(8 * U32, size) && EffectiveLength(8 * U32) == 0
    ensures forall u: nat | u < 8 * U32 :: MemsetAccepts(u, size) <==> u <= 8 * size
  {
    forall u: nat | u < 8 * U32 ensures MemsetAccepts(u, size) <==> u <= 8 * size {
      AcceptedLengths(u, size);
      LengthHonouredIff(u);
    }
  }

  // ---------------------------------------------------------------- the routine

  method Memset(a: array<bv8>, from: nat, b: bv8, n: nat)
    requires from + n <= a.Length
    modifies a
    ensures forall i | 0 <= i < a.Length :: a[i] == if from <= i < from + n then b else old(a[i])
  {
    for k := 0 to n
      invariant forall i | 0 <= i < a.Length :: a[i] == if from <= i < from + k then b else old(a[i])
    {
      a[from + k] := b;
    }
  }

  /** v << n in 64 bits. */
  function ShiftLeft(v: nat, n: nat): nat {
    MulMono(0, v, Pow2(n));
    (v * Pow2(n)) % U64
  }

  /** The loop and the shift that build v from u and the number of spare bits. */
  method OnesThenZeros(u: nat, spare: nat) returns (v: nat)
    requires u + spare < 64
    ensures v == PrefixValue(u + spare, u) < U64
  {
    Pow2Of64();
    v := 0;
    var left := u;
    assert Pow2(0) == 1;
    hide Pow2;
    while left > 0
      invariant 0 <= left <= u && v == Pow2(u - left) - 1
    {
      Pow2Step(u - left);
      Pow2Monotone(u - left + 1, 63);
      Pow2Step(63);
      v := (v * 2) % U64;
      v := v + 1;
      left := left - 1;
    }
    ShiftedOnes(u, spare);
    hide PrefixValue, ShiftLeft;
    v := ShiftLeft(v, spare);
  }

  lemma ShiftedOnes(u: nat, spare: nat)
    requires u + spare < 64
    ensures Pow2(u) >= 1 && ShiftLeft(Pow2(u) - 1, spare) == PrefixValue(u + spare, u) < U64
  {
    Pow2Of64();
    hide Pow2;
    PrefixValueBound(u + spare, u);
    Pow2Monotone(u + spare, 63);
    Pow2Step(63);
    SmallMod(PrefixValue(u + spare, u), U64);
  }

  predicate Accepts(arg: Arg, u: nat, hasObject: bool)
    requires arg.mask == [] || MaskOk(arg)
  {
    if arg.mask != [] then
      u <= |Positions(arg)| && (hasObject ==> Positions(arg) != [])
    else MemsetAccepts(u, arg.size)
  }

  /** Bits of the field: those set in the mask, or all. */
  ghost function Width(arg: Arg): nat
    requires arg.mask == [] || MaskOk(arg)
  {
    if arg.mask != [] then |MaskBits(arg)| else 8 * arg.size
  }

  /** A length below 2^35 is accepted if and only if the field has that many bits, except that a mask
      without bits cannot be written through. */
  lemma AcceptsWhatFits(arg: Arg, u: nat, hasObject: bool)
    requires arg.mask == [] || MaskOk(arg)
    requires u < 8 * U32 && arg.size < U32 - 1
    ensures (Accepts(arg, u, hasObject)
             <==> u <= Width(arg) && (arg.mask != [] && hasObject ==> Width(arg) > 0))
  {
    hide MaskBits, Positions, Bytes, EffectiveLength, MemsetAccepts;
    if arg.mask != [] {
      PositionsAreMaskBits(arg);
    } else {
      AcceptedLengths(u, arg.size);
      LengthHonouredIff(u);
    }
  }

  lemma {:induction false} OnesBit(n: nat, j: nat)
    requires j < n
    ensures ValBit(Pow2(n) - 1, j)
  {
    if j > 0 {
      OnesBit(n - 1, j - 1);
    }
  }

  /** Every masked bit is set. */
  predicate FullMask(mem: seq<bv8>, ps: seq<Pos>) {
    InMemory(mem, ps) && forall j | 0 <= j < |ps| :: Bit(mem[ps[j].0], ps[j].1)
  }

  lemma MinusOneFills(mem: seq<bv8>, ps: seq<Pos>)
    requires InMemory(mem, ps) && Distinct(ps) && |ps| <= 64
    ensures InMemory(mem, ps) && FullMask(Deposit(mem, ps, U64 - 1), ps)
  {
    hide Pow2, Bit, Deposit, ValBit;
    Pow2Of64();
    forall j | 0 <= j < |ps| ensures Bit(Deposit(mem, ps, U64 - 1)[ps[j].0], ps[j].1) {
      OnesBit(64, j);
      DepositBit(mem, ps, U64 - 1, j);
    }
  }

  /** Filling in -1 sets every masked bit when there are no more than 64 of them. */
  lemma MinusOneFillsMask(mem: seq<bv8>, arg: Arg)
    requires MaskOk(arg) && arg.offset + arg.size <= |mem| && |Positions(arg)| <= 64
    ensures InMemory(mem, Positions(arg)) && FullMask(Deposit(mem, Positions(arg), U64 - 1), Positions(arg))
  {
    hide Positions, InMemory, FullMask, Deposit, Distinct;
    PositionsInObject(arg, mem);
    PositionsDistinct(arg);
    MinusOneFills(mem, Positions(arg));
  }

  method PrefixThroughMask(arg: Arg, u: nat, obj: array<bv8>, objmask: array?<bv8>) returns (ok: bool)
    requires MaskOk(arg) && u <= |Positions(arg)| < 64
    requires arg.offset + arg.size <= obj.Length
    requires objmask != null ==> arg.offset + arg.size <= objmask.Length && obj != objmask
    modifies obj, objmask
    ensures ok == (Positions(arg) != [])
    ensures !ok ==> obj[..] == old(obj[..]) && (objmask != null ==> objmask[..] == old(objmask[..]))
    ensures InMemory(old(obj[..]), Positions(arg))
    ensures ok ==> obj[..] == Deposit(old(obj[..]), Positions(arg), PrefixValue(|Positions(arg)|, u))
    ensures ok && objmask != null ==> InMemory(old(objmask[..]), Positions(arg))
    ensures ok && objmask != null ==> objmask[..] == Deposit(old(objmask[..]), Positions(arg), U64 - 1)
    ensures ok && objmask != null ==> FullMask(objmask[..], Positions(arg))
  {
    if objmask != null { MinusOneFillsMask(objmask[..], arg); }
    hide Bit, PutBit, Visits, Remaining, PrefixValue, FullMask;
    var v := OnesThenZeros(u, |Positions(arg)| - u);
    var n := BfFill(obj, v, arg);
    if n == 0 { return false; }
    assert objmask != null ==> objmask[..] == old(objmask[..]);
    n := BfFill(objmask, U64 - 1, arg);
    return true;
  }

  lemma UpwardsRead(was: seq<bv8>, mem: seq<bv8>, arg: Arg, u: nat)
    requires !arg.hton && PrefixWritten(was, mem, arg, u)
    requires Bytes(u) <= arg.size && EffectiveLength(u) <= 8 * arg.size && arg.offset + arg.size <= |mem|
    ensures LittleEndian(mem[arg.offset..arg.offset + arg.size]) == PrefixValue(8 * arg.size, EffectiveLength(u))
  {
    PrefixByteOrder(was, mem, arg, u);
    hide PrefixWritten;
  }

  lemma DownwardsRead(was: seq<bv8>, mem: seq<bv8>, arg: Arg, u: nat)
    requires arg.hton && PrefixWritten(was, mem, arg, u)
    requires Bytes(u) <= arg.size && EffectiveLength(u) <= 8 * arg.size && arg.offset + arg.size <= |mem|
    ensures BigEndian(mem[arg.offset..arg.offset + arg.size]) == PrefixValue(8 * arg.size, EffectiveLength(u))
  {
    PrefixByteOrder(was, mem, arg, u);
    hide PrefixWritten;
  }

  /** The memset calls on the object, host (little-endian) order. */
  method PrefixUpwards(arg: Arg, u: nat, obj: array<bv8>)
    requires !arg.hton
    requires Bytes(u) <= arg.size && EffectiveLength(u) <= 8 * arg.size
    requires arg.offset + arg.size <= obj.Length
    modifies obj
    ensures PrefixWritten(old(obj[..]), obj[..], arg, u)
    ensures LittleEndian(obj[arg.offset..arg.offset + arg.size]) == PrefixValue(8 * arg.size, EffectiveLength(u))
  {
    var bytes := Bytes(u);
    var extra := u % 8;
    var size := arg.size;
    assert extra != 0 ==> bytes < size;
    hide Conv, Bytes, EffectiveLength;
    Memset(obj, arg.offset + size - bytes, 0xff, bytes);
    Memset(obj, arg.offset, 0x00, size - bytes);
    if extra != 0 { obj[arg.offset + size - bytes - 1] := Conv(extra); }
    UpwardsRead(old(obj[..]), obj[..], arg, u);
    assert obj[..][arg.offset..arg.offset + size] == obj[arg.offset..arg.offset + size];
  }

  /** The memset calls on the object, network order. */
  method PrefixDownwards(arg: Arg, u: nat, obj: array<bv8>)
    requires arg.hton
    requires Bytes(u) <= arg.size && EffectiveLength(u) <= 8 * arg.size
    requires arg.offset + arg.size <= obj.Length
    modifies obj
    ensures PrefixWritten(old(obj[..]), obj[..], arg, u)
    ensures BigEndian(obj[arg.offset..arg.offset + arg.size]) == PrefixValue(8 * arg.size, EffectiveLength(u))
  {
    var bytes := Bytes(u);
    var extra := u % 8;
    var size := arg.size;
    assert extra != 0 ==> bytes < size;
    hide Conv, Bytes, EffectiveLength;
    Memset(obj, arg.offset, 0xff, bytes);
    Memset(obj, arg.offset + bytes, 0x00, size - bytes);
    if extra != 0 { obj[arg.offset + bytes] := Conv(extra); }
    DownwardsRead(old(obj[..]), obj[..], arg, u);
    assert obj[..][arg.offset..arg.offset + size] == obj[arg.offset..arg.offset + size];
  }

  method PrefixThroughMemset(arg: Arg, u: nat, obj: array<bv8>, objmask: array?<bv8>)
    requires Bytes(u) <= arg.size && EffectiveLength(u) <= 8 * arg.size < U32
    requires arg.offset + arg.size <= obj.Length
    requires objmask != null ==> arg.offset + arg.size <= objmask.Length && obj != objmask
    modifies obj, objmask
    ensures PrefixWritten(old(obj[..]), obj[..], arg, u)
    ensures objmask != null ==> PrefixWritten(old(objmask[..]), objmask[..], arg, 8 * arg.size)
  {
    hide PrefixValue, BigEndian, LittleEndian;
    if !arg.hton { PrefixUpwards(arg, u, obj); } else { PrefixDownwards(arg, u, obj); }
    ghost var wrote := obj[..];
    if objmask != null {
      assert objmask[..] == old(objmask[..]);
      Memset(objmask, arg.offset, 0xff, arg.size);
      assert Bytes(8 * arg.size) == arg.size;
    }
    assert obj[..] == wrote;
  }

  /** parse_prefix from the point where the number has been read.  A false result stands for
      the error exit, which leaves both objects alone and puts the argument back. */
  method ParsePrefix(arg: Arg, u: nat, obj: array?<bv8>, objmask: array?<bv8>) returns (ok: bool)
    requires arg.mask == [] || (MaskOk(arg) && |Positions(arg)| < 64)
    requires 8 * arg.size < U32
    requires obj != null ==> arg.offset + arg.size <= obj.Length
    requires objmask != null ==> arg.offset + arg.size <= objmask.Length && obj != objmask
    modifies obj, objmask
    ensures ok == Accepts(arg, u, obj != null)
    ensures !ok && obj != null ==> obj[..] == old(obj[..])
    ensures (!ok || obj == null) && objmask != null ==> objmask[..] == old(objmask[..])
    ensures ok && obj != null && arg.mask != [] ==> InMemory(old(obj[..]), Positions(arg))
    ensures ok && obj != null && arg.mask != [] ==>
              obj[..] == Deposit(old(obj[..]), Positions(arg), PrefixValue(|Positions(arg)|, u))
    ensures ok && obj != null && objmask != null && arg.mask != [] ==> InMemory(old(objmask[..]), Positions(arg))
    ensures ok && obj != null && objmask != null && arg.mask != [] ==>
              objmask[..] == Deposit(old(objmask[..]), Positions(arg), U64 - 1) && FullMask(objmask[..], Positions(arg))
    ensures ok && obj != null && arg.mask == [] ==> PrefixWritten(old(obj[..]), obj[..], arg, u)
    ensures ok && obj != null && objmask != null && arg.mask == [] ==>
              PrefixWritten(old(objmask[..]), objmask[..], arg, 8 * arg.size)
  {
    hide Bit, PutBit, Visits, Deposit, PrefixWritten, PrefixValue, FullMask;
    if arg.mask != [] {
      var extra := BfFill(null, 0, arg);
      if u > extra { return false; }
      if obj == null { return true; }
      ok := PrefixThroughMask(arg, u, obj, objmask);
    } else {
      var bytes := (u / 8) % U32;
      var extra := u % 8;
      if bytes > arg.size || (bytes + if extra != 0 then 1 else 0) % U32 > arg.size { return false; }
      ok := true;
      if obj != null { PrefixThroughMemset(arg, u, obj, objmask); }
    }
  }
}
