/** Arithmetic shared by the models. */
module Numbers {

  const U32 := 0x1_0000_0000
  const U64 := 0x1_0000_0000_0000_0000

  function Min(a: nat, b: nat): nat {
    if a < b then a else b
  }

  function Max(a: nat, b: nat): nat {
    if a < b then b else a
  }

  lemma MulMono(a: nat, b: nat, c: nat)
    requires a <= b
    ensures a * c <= b * c
  {}

  /** Quotient and remainder are determined by their defining equation. */
  lemma DivMod(n: nat, s: nat, k: nat, r: nat)
    requires n == k * s + r && r < s
    ensures n / s == k && n % s == r
  {
    var d := n / s;
    assert n == d * s + n % s;
    if d < k { MulMono(d + 1, k, s); }
    if k < d { MulMono(k + 1, d, s); }
  }

  function Pow2(n: nat): (p: nat)
    ensures p > 0
  {
    if n == 0 then 1 else 2 * Pow2(n - 1)
  }

  lemma Double(p: nat, q: nat)
    ensures (2 * p) * q == 2 * (p * q)
  {}

  lemma {:induction false} Pow2Add(a: nat, b: nat)
    ensures Pow2(a + b) == Pow2(a) * Pow2(b)
  {
    if a > 0 {
      Pow2Add(a - 1, b);
      Double(Pow2(a - 1), Pow2(b));
    }
  }

  lemma Pow2Step(n: nat)
    ensures Pow2(n + 1) == 2 * Pow2(n)
  {}

  lemma {:induction false} Pow2Monotone(a: nat, b: nat)
    requires a <= b
    ensures Pow2(a) <= Pow2(b)
    decreases b
  {
    if a < b {
      Pow2Monotone(a, b - 1);
    }
  }

  lemma Pow2Of32()
    ensures Pow2(32) == U32
  {
    assert Pow2(8) == 256;
    Pow2Add(8, 8);
    hide Pow2;
    Pow2Add(16, 16);
  }

  lemma Pow2Of64()
    ensures Pow2(64) == U64
  {
    Pow2Of32();
    hide Pow2;
    Pow2Add(32, 32);
  }

  /** d divides n. */
  predicate Divides(d: nat, n: nat)
    requires d > 0
  {
    n % d == 0
  }

  lemma DividesSum(d: nat, a: nat, b: nat)
    requires d > 0 && Divides(d, a)
    ensures Divides(d, a + b) <==> Divides(d, b)
  {
    assert a == (a / d) * d && b == (b / d) * d + b % d;
    assert a + b == (a / d + b / d) * d + b % d;
    DivMod(a + b, d, a / d + b / d, b % d);
  }

  lemma SmallMod(x: nat, d: nat)
    requires x < d
    ensures x % d == x
  {}

  /** Two multiples of d are at least d apart. */
  lemma Gap(d: nat, a: nat, b: nat)
    requires d > 0 && Divides(d, a) && Divides(d, b) && a + d > b
    ensures a >= b
  {
    if a < b {
      DividesSum(d, a, b - a);
      SmallMod(b - a, d);
    }
  }

  /** Greatest common divisor. */
  function Gcd(a: nat, b: nat): (g: nat)
    requires a > 0 && b > 0
    ensures g > 0 && g <= a && g <= b
    decreases a + b
  {
    if a == b then a else if a < b then Gcd(a, b - a) else Gcd(a - b, b)
  }

  lemma {:induction false} GcdDivides(a: nat, b: nat)
    requires a > 0 && b > 0
    ensures Divides(Gcd(a, b), a) && Divides(Gcd(a, b), b)
    decreases a + b
  {
    if a == b {
      DivMod(a, a, 1, 0);
    } else if a < b {
      GcdDivides(a, b - a);
      DividesSum(Gcd(a, b), a, b - a);
    } else {
      GcdDivides(a - b, b);
      DividesSum(Gcd(a, b), b, a - b);
    }
  }

  /** The greatest common divisor is a combination of the two numbers. */
  lemma {:induction false} Bezout(a: nat, b: nat) returns (x: int, y: int)
    requires a > 0 && b > 0
    ensures x * a + y * b == Gcd(a, b)
    decreases a + b
  {
    if a == b {
      x, y := 1, 0;
    } else if a < b {
      x, y := Bezout(a, b - a);
      assert (x - y) * a + y * b == x * a + y * (b - a);
      x := x - y;
    } else {
      x, y := Bezout(a - b, b);
      assert x * a + (y - x) * b == x * (a - b) + y * b;
      y := y - x;
    }
  }

  /** Steps of a round a circle of a + b places come by the place just before the start. */
  lemma CircleReaches(a: nat, b: nat) returns (k: nat)
    requires a > 0 && b > 0
    ensures (k * a) % (a + b) == a + b - Gcd(a, b)
  {
    var x, y := Bezout(a, b);
    var n, g := a + b, Gcd(a, b);
    var m := if x > y then x - y else 0;
    MulMono(1, n, m);
    k := m * n + y - x;
    var q := Around(a, b, x, y, m, g);
    hide *;
    DivMod(k * a, n, q, n - g);
  }

  lemma Around(a: nat, b: nat, x: int, y: int, m: nat, g: nat) returns (q: nat)
    requires x * a + y * b == g <= a + b && m * (a + b) + y - x >= 0 && g > 0
    ensures (m * (a + b) + y - x) * a == q * (a + b) + (a + b - g)
  {
    var n := a + b;
    Times(m * n, y - x, a);
    Times(y, -x, a);
    Times(m * a, y - 1, n);
    Swap(m, n, a);
    assert (y - 1) * n == y * a + y * b - n;
    assert -x * a == y * b - g;
    if m * a + y - 1 <= -1 {
      Negative(m * a + y - 1, n);
      MulMono(0, m * n + y - x, a);
    }
    q := m * a + y - 1;
  }

  lemma Times(a: int, b: int, c: int)
    ensures (a + b) * c == a * c + b * c
  {}

  lemma Swap(a: int, b: int, c: int)
    ensures a * b * c == a * c * b
  {}

  lemma Negative(a: int, n: int)
    requires a <= -1 && n >= 0
    ensures a * n <= -n
  {}
}
