/** IPv6 prefixes in test-acl/main.c: reading them and splitting them into 32-bit fields. */
module AclPrefix {
  import opened Numbers
  import opened Wrappers

  const EINVAL := -22
  const UINT16_MAX := 0xFFFF
  const WORD_BITS := 32

  // ---------------------------------------------------------------- matching by words

  /** The words of an address, most significant first. */
  predicate WordsOk(ws: seq<nat>) {
    forall k | 0 <= k < |ws| :: ws[k] < Pow2(WORD_BITS)
  }

  /** The address as one number. */
  function Number(ws: seq<nat>): nat {
    if ws == [] then 0 else ws[0] * Pow2(WORD_BITS * (|ws| - 1)) + Number(ws[1..])
  }

  /** Two numbers of `bits` bits agree in their m leading ones. */
  predicate SamePrefix(a: nat, b: nat, bits: nat, m: nat)
    requires m <= bits
  {
    a / Pow2(bits - m) == b / Pow2(bits - m)
  }

  /** mask_range of field i. */
  function FieldMask(m: nat, i: nat): (r: nat)
    ensures r <= WORD_BITS
  {
    if m >= (i + 1) * WORD_BITS then WORD_BITS else if m > i * WORD_BITS then m - i * WORD_BITS else 0
  }

  /** Every field matches under its own mask: how the classifier compares a rule. */
  predicate FieldsMatch(a: seq<nat>, b: seq<nat>, m: nat)
    requires |a| == |b|
  {
    forall i | 0 <= i < |a| :: SamePrefix(a[i], b[i], WORD_BITS, FieldMask(m, i))
  }

  function SumMasks(m: nat, n: nat): nat {
    if n == 0 then 0 else SumMasks(m, n - 1) + FieldMask(m, n - 1)
  }

  /** The field masks together cover the prefix. */
  lemma {:induction false} MasksAddUp(m: nat, n: nat)
    ensures SumMasks(m, n) == if m <= n * WORD_BITS then m else n * WORD_BITS
  {
    if n > 0 { MasksAddUp(m, n - 1); }
  }

  lemma DivSplit(w: nat, q: nat, r: nat, s: nat)
    requires s > 0
    ensures (w * q * s + r) / s == w * q + r / s
  {
    var k := w * q;
    assert k * s + r == (k + r / s) * s + r % s;
    DivMod(k * s + r, s, k + r / s, r % s);
  }

  lemma DivLess(r: nat, q: nat, s: nat)
    requires s > 0 && r < q * s
    ensures r / s < q
  {
    if r / s >= q { MulMono(q, r / s, s); }
  }

  lemma PairEqual(w: nat, w': nat, t: nat, t': nat, q: nat)
    requires t < q && t' < q
    ensures w * q + t == w' * q + t' <==> w == w' && t == t'
  {
    if w < w' { MulMono(w + 1, w', q); }
    if w' < w { MulMono(w' + 1, w, q); }
  }

  lemma FitsBelow(w: nat, t: nat, r: nat, p: nat)
    requires w < r && t < p
    ensures w * p + t < r * p
  {
    MulMono(w + 1, r, p);
    assert (w + 1) * p == w * p + p;
  }

  lemma {:induction false} NumberBound(ws: seq<nat>)
    requires WordsOk(ws)
    ensures Number(ws) < Pow2(WORD_BITS * |ws|)
  {
    if ws == [] {
      assert Number(ws) == 0;
    } else {
      hide Pow2;
      NumberBound(ws[1..]);
      Pow2Add(WORD_BITS, WORD_BITS * (|ws| - 1));
      FitsBelow(ws[0], Number(ws[1..]), Pow2(WORD_BITS), Pow2(WORD_BITS * (|ws| - 1)));
    }
  }

  lemma Split3(w: nat, q: nat, t: nat, s: nat)
    requires s > 0 && t < q * s
    ensures (w * (q * s) + t) / s == w * q + t / s && t / s < q
  {
    assert w * (q * s) == w * q * s;
    DivSplit(w, q, t, s);
    DivLess(t, q, s);
  }

  lemma LongCore(w: nat, w': nat, t: nat, t': nat, q: nat, s: nat)
    requires s > 0 && t < q * s && t' < q * s
    ensures (w * (q * s) + t) / s == (w' * (q * s) + t') / s <==> w == w' && t / s == t' / s
  {
    Split3(w, q, t, s);
    Split3(w', q, t', s);
    PairEqual(w, w', t / s, t' / s, q);
  }

  /** A prefix that covers the first word: that word is equal and the others match the rest. */
  lemma LongPrefix(w: nat, w': nat, t: nat, t': nat, bits: nat, m: nat)
    requires m <= bits && t < Pow2(bits) && t' < Pow2(bits)
    ensures SamePrefix(w * Pow2(bits) + t, w' * Pow2(bits) + t', WORD_BITS + bits, WORD_BITS + m)
            <==> w == w' && SamePrefix(t, t', bits, m)
  {
    hide Pow2;
    Pow2Add(m, bits - m);
    LongCore(w, w', t, t', Pow2(m), Pow2(bits - m));
  }

  lemma Regroup(d: nat, s: nat, r: nat, p: nat, t: nat)
    ensures (d * s + r) * p + t == d * (s * p) + (r * p + t)
  {}

  lemma ShortCore(w: nat, t: nat, p: nat, s: nat)
    requires t < p && s > 0 && s * p > 0
    ensures (w * p + t) / (s * p) == w / s
  {
    var d, r := w / s, w % s;
    assert w == d * s + r;
    FitsBelow(r, t, s, p);
    Regroup(d, s, r, p, t);
    DivMod(w * p + t, s * p, d, r * p + t);
  }

  /** A prefix within the first word. */
  lemma ShortPrefix(w: nat, t: nat, bits: nat, m: nat)
    requires m <= WORD_BITS && t < Pow2(bits)
    ensures (w * Pow2(bits) + t) / Pow2(WORD_BITS + bits - m) == w / Pow2(WORD_BITS - m)
  {
    hide Pow2;
    Pow2Add(WORD_BITS - m, bits);
    ShortCore(w, t, Pow2(bits), Pow2(WORD_BITS - m));
  }

  lemma WholeWord(w: nat, w': nat)
    requires w < Pow2(WORD_BITS) && w' < Pow2(WORD_BITS)
    ensures SamePrefix(w, w', WORD_BITS, 0) && (SamePrefix(w, w', WORD_BITS, WORD_BITS) <==> w == w')
  {
    assert Pow2(0) == 1;
    DivMod(w, Pow2(WORD_BITS), 0, w);
    DivMod(w', Pow2(WORD_BITS), 0, w');
  }

  lemma BeyondFirstWord(a: seq<nat>, b: seq<nat>, m: nat)
    requires |a| == |b| > 0 && WordsOk(a) && WordsOk(b) && WORD_BITS <= m <= WORD_BITS * |a|
    ensures SamePrefix(Number(a), Number(b), WORD_BITS * |a|, m)
            <==> a[0] == b[0] && SamePrefix(Number(a[1..]), Number(b[1..]), WORD_BITS * |a[1..]|, m - WORD_BITS)
  {
    NumberHead(a);
    NumberHead(b);
    hide Pow2, SamePrefix, Number, WordsOk;
    LongPrefix(a[0], b[0], Number(a[1..]), Number(b[1..]), WORD_BITS * (|a| - 1), m - WORD_BITS);
  }

  /** An address matches the whole prefix exactly when each of its words matches its field. */
  lemma {:induction false} SplitKeepsMeaning(a: seq<nat>, b: seq<nat>, m: nat)
    requires |a| == |b| && WordsOk(a) && WordsOk(b) && m <= WORD_BITS * |a|
    ensures SamePrefix(Number(a), Number(b), WORD_BITS * |a|, m) <==> FieldsMatch(a, b, m)
    decreases |a|
  {
    if a != [] {
      NumberHead(a);
      NumberHead(b);
      hide Pow2, SamePrefix, Number, FieldsMatch, WordsOk;
      FieldsSplit(a, b, m);
      if m >= WORD_BITS {
        BeyondFirstWord(a, b, m);
        SplitKeepsMeaning(a[1..], b[1..], m - WORD_BITS);
      } else {
        InFirstWord(a, b, m);
      }
    }
  }

  lemma NumberHead(ws: seq<nat>)
    requires ws != [] && WordsOk(ws)
    ensures var bits := WORD_BITS * (|ws| - 1);
            && Number(ws) == ws[0] * Pow2(bits) + Number(ws[1..])
            && Number(ws[1..]) < Pow2(bits) && WordsOk(ws[1..])
  {
    hide Pow2;
    NumberBound(ws[1..]);
  }

  lemma InFirstWord(a: seq<nat>, b: seq<nat>, m: nat)
    requires |a| == |b| > 0 && WordsOk(a) && WordsOk(b) && m <= WORD_BITS
    ensures SamePrefix(Number(a), Number(b), WORD_BITS * |a|, m) <==> SamePrefix(a[0], b[0], WORD_BITS, m)
  {
    hide Pow2;
    var bits := WORD_BITS * (|a| - 1);
    NumberBound(a[1..]);
    NumberBound(b[1..]);
    ShortPrefix(a[0], Number(a[1..]), bits, m);
    ShortPrefix(b[0], Number(b[1..]), bits, m);
    assert WORD_BITS * |a| - m == WORD_BITS + bits - m;
  }

  lemma FieldsSplit(a: seq<nat>, b: seq<nat>, m: nat)
    requires |a| == |b| > 0 && WordsOk(a) && WordsOk(b)
    ensures m >= WORD_BITS ==> (FieldsMatch(a, b, m) <==> a[0] == b[0] && FieldsMatch(a[1..], b[1..], m - WORD_BITS))
    ensures m < WORD_BITS ==> (FieldsMatch(a, b, m) <==> SamePrefix(a[0], b[0], WORD_BITS, m))
  {
    hide Pow2, SamePrefix;
    WholeWord(a[0], b[0]);
    if m >= WORD_BITS {
      forall i | 0 <= i < |a| - 1
        ensures (SamePrefix(a[i + 1], b[i + 1], WORD_BITS, FieldMask(m, i + 1))
                 <==> SamePrefix(a[1..][i], b[1..][i], WORD_BITS, FieldMask(m - WORD_BITS, i)))
      {}
      if FieldsMatch(a[1..], b[1..], m - WORD_BITS) && a[0] == b[0] {
        forall i | 0 <= i < |a| ensures SamePrefix(a[i], b[i], WORD_BITS, FieldMask(m, i)) {
          if i > 0 {
            assert SamePrefix(a[1..][i - 1], b[1..][i - 1], WORD_BITS, FieldMask(m - WORD_BITS, i - 1));
          }
        }
      }
      if FieldsMatch(a, b, m) {
        assert SamePrefix(a[0], b[0], WORD_BITS, FieldMask(m, 0));
        forall i | 0 <= i < |a| - 1
          ensures SamePrefix(a[1..][i], b[1..][i], WORD_BITS, FieldMask(m - WORD_BITS, i))
        {
          assert SamePrefix(a[i + 1], b[i + 1], WORD_BITS, FieldMask(m, i + 1));
        }
      }
    } else {
      if SamePrefix(a[0], b[0], WORD_BITS, m) {
        forall i | 0 <= i < |a| ensures SamePrefix(a[i], b[i], WORD_BITS, FieldMask(m, i)) {
          if i > 0 { WholeWord(a[i], b[i]); }
        }
      }
      if FieldsMatch(a, b, m) {
        assert SamePrefix(a[0], b[0], WORD_BITS, FieldMask(m, 0));
      }
    }
  }

  // ---------------------------------------------------------------- numbers in text

  /** What must follow a number: a character or the end of the string. */
  datatype Delim = Char(c: char) | End

  function DigitValue(c: char): nat {
    if '0' <= c <= '9' then c as nat - '0' as nat
    else if 'a' <= c <= 'f' then c as nat - 'a' as nat + 10
    else if 'A' <= c <= 'F' then c as nat - 'A' as nat + 10
    else 99
  }

  predicate AllDigits(s: string, radix: nat) {
    forall k | 0 <= k < |s| :: DigitValue(s[k]) < radix
  }

  function DigitCount(s: string, radix: nat): (n: nat)
    ensures n <= |s| && AllDigits(s[..n], radix) && (n < |s| ==> DigitValue(s[n]) >= radix)
  {
    if s == [] || DigitValue(s[0]) >= radix then 0 else 1 + DigitCount(s[1..], radix)
  }

  function Value(s: string, radix: nat): nat {
    if s == [] then 0 else Value(s[..|s| - 1], radix) * radix + DigitValue(s[|s| - 1])
  }

  predicate HexPrefix(s: string) {
    |s| > 2 && s[0] == '0' && (s[1] == 'x' || s[1] == 'X') && DigitValue(s[2]) < 16
  }

  /** Digits, or 0x and digits, for base 0 or 16: how many characters and the number they make. */
  function Magnitude(s: string, base: nat): (r: (nat, nat))
    ensures r.0 <= |s|
  {
    if HexPrefix(s) then
      var n := DigitCount(s[2..], 16);
      (2 + n, Value(s[2..2 + n], 16))
    else
      var radix := if base == 16 then 16 else if s != [] && s[0] == '0' then 8 else 10;
      var n := DigitCount(s, radix);
      (n, Value(s[..n], radix))
  }

  /** isspace */
  predicate Blank(c: char) {
    c == ' ' || 9 <= c as nat <= 13
  }

  predicate Sign(c: char) {
    c == '+' || c == '-'
  }

  function BlankCount(s: string): (n: nat)
    ensures n <= |s|
  {
    if s == [] || !Blank(s[0]) then 0 else 1 + BlankCount(s[1..])
  }

  /** Length of the blanks and the sign in front of a number. */
  function Lead(s: string): (n: nat)
    ensures n <= |s|
  {
    var b := BlankCount(s);
    if b < |s| && Sign(s[b]) then b + 1 else b
  }

  predicate Negative(s: string) {
    var b := BlankCount(s);
    b < |s| && s[b] == '-'
  }

  /** A number as unsigned long: a minus sign negates it modulo 2^64, and what does not fit is
      counted as U64, which is above every limit. */
  function AsUlong(v: nat, negative: bool): nat {
    if v >= U64 then U64 else if negative then (U64 - v) % U64 else v
  }

  /** strtoul: how much is read and the value.  Text without a number reads as 0, and then nothing
      is read, not even blanks. */
  function Strtoul(s: string, base: nat): (r: (nat, nat))
    ensures r.0 <= |s|
  {
    var k := Lead(s);
    var (n, v) := Magnitude(s[k..], base);
    if n == 0 then (0, 0) else (k + n, AsUlong(v, Negative(s)))
  }

  predicate At(s: string, d: Delim) {
    if d == End then s == [] else s != [] && s[0] == d.c
  }

  function DelimText(d: Delim): string {
    if d == End then [] else [d.c]
  }

  /** GET_CB_FIELD: a number up to lim followed by the delimiter; the rest of the text. */
  function CbField(s: string, base: nat, lim: nat, d: Delim): Result<(nat, string)>
    requires lim < U64
  {
    var (n, v) := Strtoul(s, base);
    if v > lim || !At(s[n..], d) then Invalid else Ok((v, s[n + |DelimText(d)|..]))
  }

  /** A hexadecimal number: digits, or 0x and digits. */
  predicate HexBody(b: string) {
    b != [] && (AllDigits(b, 16) || (HexPrefix(b) && AllDigits(b[2..], 16)))
  }

  function BodyValue(b: string): nat
    requires HexBody(b)
  {
    if AllDigits(b, 16) then Value(b, 16) else Value(b[2..], 16)
  }

  /** What a field may look like: nothing, or a number with blanks and a sign in front. */
  predicate HexText(t: string) {
    t == [] || HexBody(t[Lead(t)..])
  }

  function HexValue(t: string): nat
    requires HexText(t)
  {
    if t == [] then 0 else AsUlong(BodyValue(t[Lead(t)..]), Negative(t))
  }

  predicate Separator(d: Delim) {
    d.Char? ==> d.c == ':' || d.c == '/'
  }

  lemma {:induction false} CountExact(t: string, rest: string, radix: nat)
    requires AllDigits(t, radix) && (rest == [] || DigitValue(rest[0]) >= radix)
    ensures DigitCount(t + rest, radix) == |t|
  {
    if t != [] {
      assert (t + rest)[0] == t[0] && (t + rest)[1..] == t[1..] + rest;
      CountExact(t[1..], rest, radix);
    } else {
      assert t + rest == rest;
    }
  }

  /** Text that can neither continue a hexadecimal number nor begin one. */
  predicate NoDigitAhead(tail: string) {
    tail == [] || (DigitValue(tail[0]) >= 16 && tail[0] !in "0xX" && !Blank(tail[0]) && !Sign(tail[0]))
  }

  lemma DigitsRead(t: string, tail: string)
    requires AllDigits(t, 16) && NoDigitAhead(tail)
    ensures Magnitude(t + tail, 16) == (|t|, Value(t, 16))
  {
    hide Value, DigitCount, DigitValue;
    var s := t + tail;
    XIsNoDigit();
    CountExact(t, tail, 16);
    assert s[..|t|] == t;
    if |t| > 1 {
      assert s[1] == t[1];
    } else if |t| == 1 && tail != [] {
      assert s[1] == tail[0];
    }
  }

  lemma PrefixedRead(t: string, tail: string)
    requires HexPrefix(t) && AllDigits(t[2..], 16) && NoDigitAhead(tail)
    ensures Magnitude(t + tail, 16) == (|t|, Value(t[2..], 16))
  {
    hide Value, DigitCount, DigitValue;
    var s := t + tail;
    CountExact(t[2..], tail, 16);
    assert s[2..] == t[2..] + tail && s[2..|t|] == t[2..];
  }

  lemma BodyRead(b: string, tail: string)
    requires HexBody(b) && NoDigitAhead(tail)
    ensures Magnitude(b + tail, 16) == (|b|, BodyValue(b))
  {
    hide Value, Magnitude, NoDigitAhead, DigitValue;
    if AllDigits(b, 16) { DigitsRead(b, tail); } else { PrefixedRead(b, tail); }
  }

  /** Blanks and sign are found whatever follows the number ... */
  lemma {:induction false} BlanksBefore(t: string, tail: string)
    requires BlankCount(t) < |t|
    ensures BlankCount(t + tail) == BlankCount(t)
    decreases |t|
  {
    if Blank(t[0]) {
      assert (t + tail)[1..] == t[1..] + tail;
      BlanksBefore(t[1..], tail);
    }
  }

  lemma LeadBefore(t: string, tail: string)
    requires Lead(t) < |t|
    ensures Lead(t + tail) == Lead(t) && Negative(t + tail) == Negative(t)
    ensures (t + tail)[Lead(t)..] == t[Lead(t)..] + tail
  {
    hide Blank;
    BlanksBefore(t, tail);
  }

  /** ... and in as much of the text as reaches into the number. */
  lemma {:induction false} BlanksWithin(s: string, m: nat)
    requires BlankCount(s) < m <= |s|
    ensures BlankCount(s[..m]) == BlankCount(s)
    decreases |s|
  {
    if Blank(s[0]) {
      assert s[..m][1..] == s[1..][..m - 1];
      BlanksWithin(s[1..], m - 1);
    }
  }

  lemma LeadWithin(s: string, m: nat)
    requires Lead(s) < m <= |s|
    ensures Lead(s[..m]) == Lead(s) && Negative(s[..m]) == Negative(s)
    ensures s[..m][Lead(s)..] == s[Lead(s)..][..m - Lead(s)]
  {
    hide Blank;
    BlanksWithin(s, m);
  }

  lemma NothingRead(tail: string)
    requires NoDigitAhead(tail)
    ensures Strtoul(tail, 16) == (0, 0)
  {
    assert Lead(tail) == 0 && tail[0..] == tail;
    DigitsRead([], tail);
    assert [] + tail == tail;
  }

  lemma HexRead(t: string, tail: string)
    requires HexText(t) && NoDigitAhead(tail)
    ensures Strtoul(t + tail, 16) == (|t|, HexValue(t))
  {
    if t == [] {
      NothingRead(tail);
      assert t + tail == tail;
    } else {
      hide HexBody, NoDigitAhead, Magnitude, Lead, Negative, AsUlong;
      BodyIsThere(t);
      LeadBefore(t, tail);
      BodyRead(t[Lead(t)..], tail);
    }
  }

  lemma BodyIsThere(t: string)
    requires HexBody(t[Lead(t)..])
    ensures Lead(t) < |t|
  {}

  lemma Drop(t: string, sep: string, rest: string)
    ensures t + (sep + rest) == t + sep + rest
    ensures (t + sep + rest)[|t|..] == sep + rest && (t + sep + rest)[|t| + |sep|..] == rest
  {}

  /** A field is read as exactly its text, and text beyond the limit is refused. */
  lemma FieldReads(t: string, d: Delim, rest: string, lim: nat)
    requires HexText(t) && Separator(d) && (d == End ==> rest == []) && lim < U64
    ensures (CbField(t + DelimText(d) + rest, 16, lim, d)
             == if HexValue(t) <= lim then Ok((HexValue(t), rest)) else Invalid)
  {
    SeparatorIsNoDigit(d, rest);
    hide Strtoul, NoDigitAhead, HexText, HexValue, DelimText, At, Separator;
    HexRead(t, DelimText(d) + rest);
    Drop(t, DelimText(d), rest);
  }

  /** A field without digits counts as zero. */
  lemma EmptyFieldIsZero(d: Delim, rest: string, lim: nat)
    requires Separator(d) && (d == End ==> rest == []) && lim < U64
    ensures CbField(DelimText(d) + rest, 16, lim, d) == Ok((0, rest))
  {
    FieldReads([], d, rest, lim);
    assert [] + DelimText(d) + rest == DelimText(d) + rest;
  }

  lemma SignedText(lead: string, b: string)
    requires HexBody(b) && !Blank(b[0]) && !Sign(b[0]) && Lead(lead) == |lead|
    ensures HexText(lead + b) && HexValue(lead + b) == AsUlong(BodyValue(b), Negative(lead))
  {
    LeadAlone(lead, b);
    hide HexBody, BodyValue, Lead, Negative, AsUlong;
  }

  lemma UlongIs(v: nat, negative: bool)
    ensures v < U64 ==> AsUlong(v, negative) == if negative && v > 0 then U64 - v else v
    ensures v >= U64 ==> AsUlong(v, negative) == U64
  {}

  /** Blanks and a plus sign in front of a number do not matter; a minus sign makes 2^64 - v of v,
      so that the largest numbers pass for small ones. */
  lemma SignedField(lead: string, b: string, d: Delim, rest: string, lim: nat)
    requires HexBody(b) && !Blank(b[0]) && !Sign(b[0]) && Lead(lead) == |lead|
    requires Separator(d) && (d == End ==> rest == []) && lim < U64
    ensures (CbField(lead + b + DelimText(d) + rest, 16, lim, d)
             == var v := BodyValue(b);
                var signed := if Negative(lead) && v > 0 then U64 - v else v;
                if v < U64 && signed <= lim then Ok((signed, rest)) else Invalid)
  {
    SignedText(lead, b);
    UlongIs(BodyValue(b), Negative(lead));
    hide HexBody, HexText, HexValue, BodyValue, CbField, Lead, Negative, AsUlong;
    FieldReads(lead + b, d, rest, lim);
  }

  lemma {:induction false} LeadAlone(lead: string, b: string)
    requires Lead(lead) == |lead| && b != [] && !Blank(b[0]) && !Sign(b[0])
    ensures Lead(lead + b) == |lead| && Negative(lead + b) == Negative(lead) && (lead + b)[|lead|..] == b
  {
    BlanksThen(lead, b);
  }

  lemma {:induction false} BlanksThen(lead: string, b: string)
    requires b != [] && !Blank(b[0])
    ensures BlankCount(lead + b) == BlankCount(lead)
    decreases |lead|
  {
    if lead == [] {
      assert lead + b == b;
    } else if Blank(lead[0]) {
      assert (lead + b)[1..] == lead[1..] + b;
      BlanksThen(lead[1..], b);
    }
  }

  lemma SeparatorIsNoDigit(d: Delim, rest: string)
    requires Separator(d) && (d == End ==> rest == [])
    ensures var tail := DelimText(d) + rest;
            NoDigitAhead(tail) && At(tail, d)
  {}

  lemma XIsNoDigit()
    ensures DigitValue('x') >= 16 && DigitValue('X') >= 16
  {}

  /** What strtoul takes for a number is one. */
  lemma MagnitudeIsHex(s: string)
    ensures var (n, v) := Magnitude(s, 16);
            n > 0 ==> HexBody(s[..n]) && BodyValue(s[..n]) == v
  {
    hide Value, DigitValue;
    XIsNoDigit();
    var n := Magnitude(s, 16).0;
    if HexPrefix(s) {
      var k := DigitCount(s[2..], 16);
      var t := s[..n];
      assert s[2..][..k] == s[2..n] == t[2..];
      assert s[2..][0] == s[2] && k > 0 && t[2] == s[2];
      assert t[1] == s[1];
    }
  }

  lemma SignedIsHex(s: string, n: nat)
    requires Lead(s) < n <= |s| && HexBody(s[Lead(s)..][..n - Lead(s)])
    ensures HexText(s[..n]) && HexValue(s[..n]) == AsUlong(BodyValue(s[Lead(s)..][..n - Lead(s)]), Negative(s))
  {
    hide HexBody, BodyValue, Lead, Negative, AsUlong;
    LeadWithin(s, n);
  }

  lemma NothingIsHex()
    ensures HexText([]) && HexValue([]) == 0
  {}

  lemma StrtoulParts(s: string)
    ensures var k := Lead(s);
            var (n, v) := Magnitude(s[k..], 16);
            && n <= |s| - k
            && (n == 0 ==> Strtoul(s, 16) == (0, 0))
            && (n > 0 ==> Strtoul(s, 16) == (k + n, AsUlong(v, Negative(s))))
  {
    hide Magnitude, Lead, Negative, AsUlong;
  }

  lemma StrtoulIsHex(s: string)
    ensures HexText(s[..Strtoul(s, 16).0]) && HexValue(s[..Strtoul(s, 16).0]) == Strtoul(s, 16).1
  {
    hide *;
    MagnitudeIsHex(s[Lead(s)..]);
    NothingIsHex();
    StrtoulParts(s);
    assert s[..0] == [];
    var n := Magnitude(s[Lead(s)..], 16).0;
    if n > 0 {
      SignedIsHex(s, Lead(s) + n);
    }
  }

  lemma CutAtDelim(s: string, n: nat, d: Delim)
    requires n <= |s| && At(s[n..], d)
    ensures n + |DelimText(d)| <= |s| && s == s[..n] + DelimText(d) + s[n + |DelimText(d)|..]
  {
    assert s == s[..n] + s[n..];
    assert s[n..] == DelimText(d) + s[n + |DelimText(d)|..];
  }

  /** Only such text is accepted. */
  lemma FieldSound(s: string, lim: nat, d: Delim) returns (t: string, rest: string)
    requires lim < U64 && CbField(s, 16, lim, d).Ok?
    ensures HexText(t) && s == t + DelimText(d) + rest && HexValue(t) <= lim
    ensures CbField(s, 16, lim, d) == Ok((HexValue(t), rest))
  {
    hide Strtoul, HexText, HexValue, At, DelimText;
    var n := Strtoul(s, 16).0;
    StrtoulIsHex(s);
    CutAtDelim(s, n, d);
    t, rest := s[..n], s[n + |DelimText(d)|..];
  }

  // ---------------------------------------------------------------- addresses

  /** n groups separated by colons, the last one followed by d. */
  function Groups(s: string, n: nat, d: Delim): (r: Result<(seq<nat>, string)>)
    ensures r.Ok? ==> |r.value.0| == n && forall k | 0 <= k < n :: r.value.0[k] <= UINT16_MAX
  {
    if n == 0 then Ok(([], s))
    else
      match CbField(s, 16, UINT16_MAX, if n == 1 then d else Char(':'))
      case Invalid => Invalid
      case Ok((g, rest)) =>
        match Groups(rest, n - 1, d)
        case Invalid => Invalid
        case Ok((gs, end)) => Ok(([g] + gs, end))
  }

  /** The text of such groups. */
  function Join(ts: seq<string>, d: Delim): string {
    if ts == [] then []
    else ts[0] + DelimText(if |ts| == 1 then d else Char(':')) + Join(ts[1..], d)
  }

  predicate GroupText(t: string) {
    HexText(t) && HexValue(t) <= UINT16_MAX
  }

  predicate GroupTexts(ts: seq<string>) {
    forall k | 0 <= k < |ts| :: GroupText(ts[k])
  }

  function GroupValues(ts: seq<string>): (gs: seq<nat>)
    requires GroupTexts(ts)
    ensures |gs| == |ts|
  {
    if ts == [] then [] else [HexValue(ts[0])] + GroupValues(ts[1..])
  }

  lemma GroupsStep(s: string, n: nat, d: Delim, g: nat, rest: string, gs: seq<nat>, end: string)
    requires n > 0 && CbField(s, 16, UINT16_MAX, if n == 1 then d else Char(':')) == Ok((g, rest))
    requires Groups(rest, n - 1, d) == Ok((gs, end))
    ensures Groups(s, n, d) == Ok(([g] + gs, end))
  {
    hide CbField;
  }

  lemma JoinStep(ts: seq<string>, d: Delim, rest: string)
    requires ts != []
    ensures Join(ts, d) + rest == ts[0] + DelimText(if |ts| == 1 then d else Char(':')) + (Join(ts[1..], d) + rest)
  {}

  lemma ValuesStep(ts: seq<string>)
    requires ts != [] && GroupTexts(ts)
    ensures GroupText(ts[0]) && HexText(ts[0]) && HexValue(ts[0]) <= UINT16_MAX
    ensures GroupTexts(ts[1..]) && GroupValues(ts) == [HexValue(ts[0])] + GroupValues(ts[1..])
  {
    assert GroupText(ts[0]);
    hide HexText, HexValue;
  }

  lemma TextsCons(t: string, ts: seq<string>)
    requires GroupText(t) && GroupTexts(ts)
    ensures GroupTexts([t] + ts) && ([t] + ts)[1..] == ts
  {
    hide GroupText;
  }

  lemma RestIsText(d: Delim, n: nat)
    requires Separator(d)
    ensures Separator(if n == 1 then d else Char(':'))
  {}

  lemma GroupsReadStep(ts: seq<string>, d: Delim, rest: string, more: string, gs: seq<nat>)
    requires ts != [] && GroupText(ts[0]) && HexText(ts[0]) && HexValue(ts[0]) <= UINT16_MAX
    requires Separator(d) && more == Join(ts[1..], d) + rest && (|ts| == 1 && d == End ==> more == [])
    requires Groups(more, |ts| - 1, d) == Ok((gs, rest))
    ensures Groups(Join(ts, d) + rest, |ts|, d) == Ok(([HexValue(ts[0])] + gs, rest))
  {
    RestIsText(d, |ts|);
    hide *;
    var d' := if |ts| == 1 then d else Char(':');
    FieldReads(ts[0], d', more, UINT16_MAX);
    JoinStep(ts, d, rest);
    GroupsStep(Join(ts, d) + rest, |ts|, d, HexValue(ts[0]), more, gs, rest);
  }

  /** Reading undoes writing: any groups written one after another are read back ... */
  lemma {:induction false} GroupsRead(ts: seq<string>, d: Delim, rest: string)
    requires GroupTexts(ts) && Separator(d) && (d == End ==> rest == [])
    ensures Groups(Join(ts, d) + rest, |ts|, d) == Ok((GroupValues(ts), rest))
    decreases |ts|
  {
    if ts == [] {
      assert Join(ts, d) + rest == rest;
    } else {
      hide HexText, HexValue, GroupText, Groups, Join, Separator;
      ValuesStep(ts);
      NothingAfterEnd(ts[1..], d, rest);
      GroupsRead(ts[1..], d, rest);
      GroupsReadStep(ts, d, rest, Join(ts[1..], d) + rest, GroupValues(ts[1..]));
    }
  }

  lemma NothingAfterEnd(ts: seq<string>, d: Delim, rest: string)
    requires d == End ==> rest == []
    ensures d == End && ts == [] ==> Join(ts, d) + rest == []
  {}

  lemma GroupsSoundStep(s: string, n: nat, d: Delim, t: string, more: seq<string>, rest: string, end: string)
    requires n > 0 && HexText(t) && GroupText(t)
    requires CbField(s, 16, UINT16_MAX, if n == 1 then d else Char(':')) == Ok((HexValue(t), rest))
    requires s == t + DelimText(if n == 1 then d else Char(':')) + rest
    requires |more| == n - 1 && GroupTexts(more) && Groups(rest, n - 1, d) == Ok((GroupValues(more), end))
    requires rest == Join(more, d) + end
    ensures GroupTexts([t] + more) && Groups(s, n, d) == Ok((GroupValues([t] + more), end))
    ensures s == Join([t] + more, d) + end
  {
    hide *;
    GroupsStep(s, n, d, HexValue(t), rest, GroupValues(more), end);
    TextsCons(t, more);
    ValuesStep([t] + more);
    JoinStep([t] + more, d, end);
  }

  /** ... and nothing else is accepted. */
  lemma {:induction false} GroupsSound(s: string, n: nat, d: Delim) returns (ts: seq<string>, end: string)
    requires Groups(s, n, d).Ok?
    ensures |ts| == n && GroupTexts(ts) && s == Join(ts, d) + end
    ensures Groups(s, n, d) == Ok((GroupValues(ts), end))
    decreases n
  {
    hide *;
    if n == 0 {
      NoGroups(s, d);
      return [], s;
    }
    FirstGroupOk(s, n, d);
    var t, rest := FieldSound(s, 0xFFFF, if n == 1 then d else Char(':'));
    LaterGroupsOk(s, n, d, HexValue(t), rest);
    IsGroupText(t);
    var more;
    more, end := GroupsSound(rest, n - 1, d);
    GroupsSoundStep(s, n, d, t, more, rest, end);
    ts := [t] + more;
  }

  lemma FirstGroupOk(s: string, n: nat, d: Delim)
    requires n > 0 && Groups(s, n, d).Ok?
    ensures 0xFFFF == UINT16_MAX < U64 && CbField(s, 16, 0xFFFF, if n == 1 then d else Char(':')).Ok?
  {
    hide CbField;
  }

  lemma LaterGroupsOk(s: string, n: nat, d: Delim, g: nat, rest: string)
    requires n > 0 && Groups(s, n, d).Ok?
    requires CbField(s, 16, UINT16_MAX, if n == 1 then d else Char(':')) == Ok((g, rest))
    ensures Groups(rest, n - 1, d).Ok?
  {
    hide CbField;
  }

  lemma NoGroups(s: string, d: Delim)
    ensures Groups(s, 0, d) == Ok(([], s)) && GroupTexts([]) && GroupValues([]) == [] && s == Join([], d) + s
  {}

  lemma IsGroupText(t: string)
    requires HexText(t) && HexValue(t) <= UINT16_MAX
    ensures GroupText(t)
  {}

  // ---------------------------------------------------------------- prefixes

  /** The 32-bit words that the groups make. */
  function WordsOf(gs: seq<nat>): (ws: seq<nat>)
    requires |gs| == 8
    ensures |ws| == 4
  {
    [gs[0] * 0x1_0000 + gs[1], gs[2] * 0x1_0000 + gs[3], gs[4] * 0x1_0000 + gs[5], gs[6] * 0x1_0000 + gs[7]]
  }

  /** Address, slash and a mask of at most 128. */
  function Net(text: string): Result<(seq<nat>, nat)> {
    match Groups(text, 8, Char('/'))
    case Invalid => Invalid
    case Ok((gs, rest)) =>
      match CbField(rest, 0, 128, End)
      case Invalid => Invalid
      case Ok((m, _)) => Ok((WordsOf(gs), m))
  }

  function Digit(n: nat): (c: char)
    requires n < 16
    ensures DigitValue(c) == n
  {
    if n < 10 then '0' + n as char else 'a' + (n - 10) as char
  }

  function Hex4(n: nat): string
    requires n <= UINT16_MAX
  {
    [Digit(n / 16 / 16 / 16), Digit(n / 16 / 16 % 16), Digit(n / 16 % 16), Digit(n % 16)]
  }

  function HexGroups(ws: seq<nat>): (ts: seq<string>)
    requires |ws| == 4 && WordsOk(ws)
    ensures |ts| == 8
  {
    WordSize();
    [Hex4(ws[0] / 0x1_0000), Hex4(ws[0] % 0x1_0000), Hex4(ws[1] / 0x1_0000), Hex4(ws[1] % 0x1_0000),
     Hex4(ws[2] / 0x1_0000), Hex4(ws[2] % 0x1_0000), Hex4(ws[3] / 0x1_0000), Hex4(ws[3] % 0x1_0000)]
  }

  function Decimal(n: nat): string {
    if n < 10 then [Digit(n)] else Decimal(n / 10) + [Digit(n % 10)]
  }

  /** A prefix in the full eight-group form. */
  function PrintNet(ws: seq<nat>, m: nat): string
    requires |ws| == 4 && WordsOk(ws)
  {
    Join(HexGroups(ws), Char('/')) + Decimal(m)
  }

  lemma WordSize()
    ensures Pow2(WORD_BITS) == 0x1_0000_0000
  {
    Pow2Of32();
  }

  lemma FourDigits(a: char, b: char, c: char, d: char)
    ensures (Value([a, b, c, d], 16)
             == ((DigitValue(a) * 16 + DigitValue(b)) * 16 + DigitValue(c)) * 16 + DigitValue(d))
  {
    hide DigitValue;
    assert [a][..0] == [] && [a, b][..1] == [a] && [a, b, c][..2] == [a, b] && [a, b, c, d][..3] == [a, b, c];
    assert Value([a], 16) == DigitValue(a);
    assert Value([a, b], 16) == Value([a], 16) * 16 + DigitValue(b);
    assert Value([a, b, c], 16) == Value([a, b], 16) * 16 + DigitValue(c);
  }

  lemma Nibbles(n: nat)
    requires n <= UINT16_MAX
    ensures n / 16 / 16 / 16 < 16
    ensures n == ((n / 16 / 16 / 16 * 16 + n / 16 / 16 % 16) * 16 + n / 16 % 16) * 16 + n % 16
  {}

  lemma Hex4Reads(n: nat)
    requires n <= UINT16_MAX
    ensures GroupText(Hex4(n)) && HexValue(Hex4(n)) == n
  {
    var t := Hex4(n);
    Nibbles(n);
    FourDigits(t[0], t[1], t[2], t[3]);
    hide Value, DigitValue;
    assert t == [t[0], t[1], t[2], t[3]];
  }

  lemma {:induction false} DecimalReads(n: nat)
    ensures var t := Decimal(n);
            && t != [] && AllDigits(t, 10) && Value(t, 10) == n && (t[0] == '0' <==> n == 0)
    decreases n
  {
    var t := Decimal(n);
    if n >= 10 {
      DecimalReads(n / 10);
      assert t[..|t| - 1] == Decimal(n / 10);
    } else {
      assert t[..0] == [];
    }
  }

  lemma DecimalMagnitude(m: nat)
    ensures var t := Decimal(m); Magnitude(t, 0) == (|t|, m) && Lead(t) == 0 && !Negative(t)
  {
    hide Value;
    var t := Decimal(m);
    DecimalReads(m);
    assert t + [] == t && t[..|t|] == t;
    if m == 0 {
      assert t == "0";
      CountExact(t, [], 8);
      ZeroIsZero();
    } else {
      CountExact(t, [], 10);
    }
  }

  // The number after the slash may be written in any base that strtoul tells from its beginning.

  function Radix(b: string): nat {
    if b != [] && b[0] == '0' then 8 else 10
  }

  /** A number in full: 0x and hexadecimal digits, or octal digits beginning with 0, or decimal ones. */
  predicate NumberBody(b: string) {
    b != [] && if HexPrefix(b) then AllDigits(b[2..], 16) else AllDigits(b, Radix(b))
  }

  function NumberValue(b: string): nat {
    if HexPrefix(b) then Value(b[2..], 16) else Value(b, Radix(b))
  }

  /** What may follow the slash: nothing, or a number with blanks and a sign in front. */
  predicate MaskText(t: string) {
    t == [] || NumberBody(t[Lead(t)..])
  }

  function MaskValue(t: string): nat {
    if t == [] then 0 else AsUlong(NumberValue(t[Lead(t)..]), Negative(t))
  }

  lemma NumberRead(b: string)
    requires NumberBody(b)
    ensures Magnitude(b, 0) == (|b|, NumberValue(b))
  {
    hide Value, DigitValue;
    if HexPrefix(b) {
      CountExact(b[2..], [], 16);
      assert b[2..] + [] == b[2..] && b[2..|b|] == b[2..];
    } else {
      CountExact(b, [], Radix(b));
      assert b + [] == b && b[..|b|] == b;
    }
  }

  lemma NumberOnly(b: string)
    requires b != [] && Magnitude(b, 0).0 == |b|
    ensures NumberBody(b)
  {
    hide Value, DigitValue;
    if HexPrefix(b) {
      assert b[2..][..|b| - 2] == b[2..];
    } else {
      assert b[..|b|] == b;
    }
  }

  lemma MaskParts(t: string)
    ensures var k := Lead(t);
            var (n, v) := Magnitude(t[k..], 0);
            && n <= |t| - k
            && (n == 0 ==> Strtoul(t, 0) == (0, 0))
            && (n > 0 ==> Strtoul(t, 0) == (k + n, AsUlong(v, Negative(t))))
  {
    hide Magnitude, Lead, Negative, AsUlong;
  }

  lemma MaskCases(t: string)
    ensures MaskText([]) && MaskValue([]) == 0
    ensures t != [] ==> (MaskText(t) <==> NumberBody(t[Lead(t)..]))
    ensures t != [] ==> MaskValue(t) == AsUlong(NumberValue(t[Lead(t)..]), Negative(t))
    ensures NumberBody(t[Lead(t)..]) ==> Lead(t) < |t|
  {
    hide Lead, Negative, AsUlong, HexPrefix, AllDigits, Value;
  }

  lemma LastField(t: string, lim: nat)
    requires lim < U64
    ensures (CbField(t, 0, lim, End)
             == var (n, v) := Strtoul(t, 0); if n == |t| && v <= lim then Ok((v, [])) else Invalid)
  {
    hide Strtoul;
  }

  /** A last field is accepted if and only if it is such a text and its value is within the limit. */
  lemma MaskIff(t: string, lim: nat)
    requires lim < U64
    ensures (CbField(t, 0, lim, End)
             == if MaskText(t) && MaskValue(t) <= lim then Ok((MaskValue(t), [])) else Invalid)
  {
    MaskParts(t);
    MaskCases(t);
    LastField(t, lim);
    var b := t[Lead(t)..];
    if NumberBody(b) { NumberRead(b); }
    if b != [] && Magnitude(b, 0).0 == |b| { NumberOnly(b); }
    hide *;
  }

  lemma DecimalIsMask(m: nat)
    ensures MaskText(Decimal(m)) && MaskValue(Decimal(m)) == AsUlong(m, false)
  {
    var t := Decimal(m);
    DecimalMagnitude(m);
    DecimalReads(m);
    hide Value, Decimal, Lead, Negative;
    assert t[0..] == t;
    NumberOnly(t);
    NumberRead(t);
  }

  lemma ZeroIsZero()
    ensures Value("0", 8) == 0
  {
    assert "0"[..0] == [];
  }

  lemma WordReads(w: nat)
    requires w < 0x1_0000_0000
    ensures GroupText(Hex4(w / 0x1_0000)) && GroupText(Hex4(w % 0x1_0000))
    ensures HexValue(Hex4(w / 0x1_0000)) * 0x1_0000 + HexValue(Hex4(w % 0x1_0000)) == w
  {
    Hex4Reads(w / 0x1_0000);
    Hex4Reads(w % 0x1_0000);
  }

  lemma GroupsOfWords(ws: seq<nat>)
    requires |ws| == 4 && WordsOk(ws)
    ensures var ts := HexGroups(ws);
            GroupTexts(ts) && WordsOf(GroupValues(ts)) == ws
  {
    hide HexText, HexValue, Hex4, GroupText, GroupValues;
    WordSize();
    WordReads(ws[0]);
    WordReads(ws[1]);
    WordReads(ws[2]);
    WordReads(ws[3]);
    ValuesAt(HexGroups(ws));
  }

  lemma {:induction false} ValuesAt(ts: seq<string>)
    requires GroupTexts(ts)
    ensures forall k | 0 <= k < |ts| :: GroupText(ts[k]) && GroupValues(ts)[k] == HexValue(ts[k])
  {
    if ts != [] {
      ValuesStep(ts);
      ValuesAt(ts[1..]);
      hide HexText, HexValue;
      forall k | 0 < k < |ts| ensures GroupText(ts[k]) && GroupValues(ts)[k] == HexValue(ts[k]) {
        assert ts[k] == ts[1..][k - 1];
      }
    }
  }

  /** Groups and a mask of any spelling are read as their values; a mask above 128 is refused. */
  lemma NetReads(ts: seq<string>, mask: string)
    requires |ts| == 8 && GroupTexts(ts)
    ensures (Net(Join(ts, Char('/')) + mask)
             == if MaskText(mask) && MaskValue(mask) <= 128 then Ok((WordsOf(GroupValues(ts)), MaskValue(mask))) else Invalid)
  {
    hide Groups, Join, CbField, WordsOf, GroupTexts, GroupValues, MaskText, MaskValue;
    GroupsRead(ts, Char('/'), mask);
    MaskIff(mask, 128);
  }

  lemma NetInvert(text: string)
    requires Net(text).Ok?
    ensures Groups(text, 8, Char('/')).Ok?
    ensures var (gs, mask) := Groups(text, 8, Char('/')).value; CbField(mask, 0, 128, End).Ok?
  {
    hide Groups, CbField, WordsOf;
  }

  /** Only such text is accepted: eight groups, a slash, and a number of at most 128. */
  lemma NetSound(text: string) returns (ts: seq<string>, mask: string)
    requires Net(text).Ok?
    ensures |ts| == 8 && GroupTexts(ts) && text == Join(ts, Char('/')) + mask
    ensures MaskText(mask) && MaskValue(mask) <= 128
    ensures Net(text) == Ok((WordsOf(GroupValues(ts)), MaskValue(mask)))
  {
    hide *;
    NetInvert(text);
    ts, mask := GroupsSound(text, 8, Char('/'));
    NetReads(ts, mask);
  }

  /** Reading a printed prefix gives it back, and refuses it when the length is above 128. */
  lemma NetRoundTrip(ws: seq<nat>, m: nat)
    requires |ws| == 4 && WordsOk(ws)
    ensures Net(PrintNet(ws, m)) == if m <= 128 then Ok((ws, m)) else Invalid
  {
    hide HexGroups, Groups, Join, CbField, WordsOf, Decimal, GroupTexts, GroupValues, MaskText, MaskValue;
    GroupsOfWords(ws);
    NetReads(HexGroups(ws), Decimal(m));
    DecimalIsMask(m);
  }

  datatype AclField = AclField(value: nat, mask: nat)

  function FieldsOf(ws: seq<nat>, m: nat): (fs: seq<AclField>) {
    seq(|ws|, i requires 0 <= i < |ws| => AclField(ws[i], FieldMask(m, i)))
  }

  /** How the classifier compares an address with the fields of a rule. */
  predicate Classifies(fields: seq<AclField>, addr: seq<nat>)
    requires |fields| == |addr| && forall i | 0 <= i < |fields| :: fields[i].mask <= WORD_BITS
  {
    forall i | 0 <= i < |fields| :: SamePrefix(addr[i], fields[i].value, WORD_BITS, fields[i].mask)
  }

  /** The fields made for a printed prefix match exactly the addresses it covers. */
  lemma RuleMeansPrefix(ws: seq<nat>, m: nat, addr: seq<nat>)
    requires |ws| == |addr| == 4 && WordsOk(ws) && WordsOk(addr) && m <= 128
    ensures Net(PrintNet(ws, m)).Ok?
    ensures var (vs, k) := Net(PrintNet(ws, m)).value;
            Classifies(FieldsOf(vs, k), addr) <==> SamePrefix(Number(addr), Number(ws), 128, m)
  {
    NetRoundTrip(ws, m);
    SplitKeepsMeaning(addr, ws, m);
    hide SamePrefix, Number, Net, PrintNet;
    var fs := FieldsOf(ws, m);
    if Classifies(fs, addr) {
      forall i | 0 <= i < 4 ensures SamePrefix(addr[i], ws[i], WORD_BITS, FieldMask(m, i)) {
        assert SamePrefix(addr[i], fs[i].value, WORD_BITS, fs[i].mask);
      }
    }
    if FieldsMatch(addr, ws, m) {
      forall i | 0 <= i < 4 ensures SamePrefix(addr[i], fs[i].value, WORD_BITS, fs[i].mask) {
        assert SamePrefix(addr[i], ws[i], WORD_BITS, FieldMask(m, i));
      }
    }
  }

  // ---------------------------------------------------------------- the parsers

  /** parse_ipv6_addr: fills v and returns where the text goes on. */
  method ParseIpv6Addr(text: string, dlm: Delim, v: array<nat>) returns (r: Result<string>)
    requires v.Length == 4
    modifies v
    ensures var g := Groups(text, 8, dlm);
            if g.Ok? then r == Ok(g.value.1) && v[..] == WordsOf(g.value.0)
            else r == Invalid && v[..] == old(v[..])
  {
    hide CbField, Groups, WordsOf;
    GroupsAhead(text, 8, dlm);
    var f0 :- CbField(text, 16, UINT16_MAX, Char(':'));
    GroupsAhead(f0.1, 7, dlm);
    var f1 :- CbField(f0.1, 16, UINT16_MAX, Char(':'));
    GroupsAhead(f1.1, 6, dlm);
    var f2 :- CbField(f1.1, 16, UINT16_MAX, Char(':'));
    GroupsAhead(f2.1, 5, dlm);
    var f3 :- CbField(f2.1, 16, UINT16_MAX, Char(':'));
    GroupsAhead(f3.1, 4, dlm);
    var f4 :- CbField(f3.1, 16, UINT16_MAX, Char(':'));
    GroupsAhead(f4.1, 3, dlm);
    var f5 :- CbField(f4.1, 16, UINT16_MAX, Char(':'));
    GroupsAhead(f5.1, 2, dlm);
    var f6 :- CbField(f5.1, 16, UINT16_MAX, Char(':'));
    GroupsAhead(f6.1, 1, dlm);
    var f7 :- CbField(f6.1, 16, UINT16_MAX, dlm);
    GroupsDone(f7.1, dlm);
    v[0] := f0.0 * 0x1_0000 + f1.0;
    v[1] := f2.0 * 0x1_0000 + f3.0;
    v[2] := f4.0 * 0x1_0000 + f5.0;
    v[3] := f6.0 * 0x1_0000 + f7.0;
    WordsOfEight(f0.0, f1.0, f2.0, f3.0, f4.0, f5.0, f6.0, f7.0);
    r := Ok(f7.1);
  }

  lemma GroupsAhead(s: string, n: nat, d: Delim)
    requires n > 0
    ensures var f := CbField(s, 16, UINT16_MAX, if n == 1 then d else Char(':'));
            && (f.Invalid? ==> Groups(s, n, d) == Invalid)
            && (f.Ok? ==> var r := Groups(f.value.1, n - 1, d);
                          Groups(s, n, d) == if r.Ok? then Ok(([f.value.0] + r.value.0, r.value.1)) else Invalid)
  {
    hide CbField;
  }

  lemma GroupsDone(s: string, d: Delim)
    ensures Groups(s, 0, d) == Ok(([], s))
  {}

  lemma WordsOfEight(a: nat, b: nat, c: nat, d: nat, e: nat, f: nat, g: nat, h: nat)
    ensures (WordsOf([a] + ([b] + ([c] + ([d] + ([e] + ([f] + ([g] + ([h] + []))))))))
             == [a * 0x1_0000 + b, c * 0x1_0000 + d, e * 0x1_0000 + f, g * 0x1_0000 + h])
  {}

  /** parse_ipv6_net: one field a word, each with its own part of the mask. */
  method ParseIpv6Net(text: string, field: array<AclField>) returns (r: Result<()>)
    requires field.Length == 4
    modifies field
    ensures r.Ok? <==> Net(text).Ok?
    ensures r.Ok? ==> field[..] == FieldsOf(Net(text).value.0, Net(text).value.1)
    ensures r.Invalid? ==> field[..] == old(field[..])
  {
    hide Groups, CbField, WordsOf, FieldMask;
    var v := new nat[4];
    var mp :- ParseIpv6Addr(text, Char('/'), v);
    var f :- CbField(mp, 0, 128, End);
    var m := f.0;
    for i := 0 to 4
      modifies field
      invariant forall k | 0 <= k < i :: field[k] == AclField(v[k], FieldMask(m, k))
    {
      MaskAt(m, i);
      var mask;
      if m >= (i + 1) * WORD_BITS {
        mask := WORD_BITS;
      } else {
        mask := if m > i * WORD_BITS then m - i * 32 else 0;
      }
      field[i] := AclField(v[i], mask);
    }
    r := Ok(());
  }

  lemma MaskAt(m: nat, i: nat)
    ensures FieldMask(m, i) == if m >= (i + 1) * WORD_BITS then WORD_BITS else if m > i * WORD_BITS then m - i * 32 else 0
  {}
}
