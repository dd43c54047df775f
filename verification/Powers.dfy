/** Powers of two and the shifts and masks of C integers, over unbounded integers.
    Dafny's `/` and `%` by a positive divisor floor, so `x / Pow2(n)` is an arithmetic
    right shift and `x % Pow2(n)` keeps the low `n` bits of a two's complement value. */
module Powers {

  function Pow2(n: nat): (r: nat)
    ensures r >= 1
  {
    if n == 0 then 1 else 2 * Pow2(n - 1)
  }

  lemma Pow2Small()
    ensures Pow2(0) == 1 && Pow2(1) == 2 && Pow2(2) == 4 && Pow2(3) == 8
    ensures Pow2(4) == 16 && Pow2(5) == 32 && Pow2(6) == 64 && Pow2(7) == 128
    ensures Pow2(8) == 256 && Pow2(9) == 512 && Pow2(10) == 1024 && Pow2(11) == 2048
    ensures Pow2(12) == 4096 && Pow2(13) == 8192 && Pow2(14) == 16384 && Pow2(15) == 32768
    ensures Pow2(16) == 0x1_0000
  {
    assert Pow2(8) == 256;
    assert Pow2(12) == 4096;
  }

  lemma Pow2Wide()
    ensures Pow2(17) == 0x2_0000 && Pow2(22) == 0x40_0000 && Pow2(23) == 0x80_0000
    ensures Pow2(26) == 0x400_0000 && Pow2(28) == 0x1000_0000
    ensures Pow2(30) == 0x4000_0000 && Pow2(31) == 0x8000_0000 && Pow2(32) == 0x1_0000_0000
  {
    Pow2Small();
    assert Pow2(20) == 0x10_0000;
    assert Pow2(24) == 0x100_0000;
    assert Pow2(28) == 0x1000_0000;
  }

  lemma {:induction false} Pow2Add(a: nat, b: nat)
    ensures Pow2(a + b) == Pow2(a) * Pow2(b)
  {
    if a > 0 {
      Pow2Add(a - 1, b);
      assert Pow2(a + b) == 2 * (Pow2(a - 1) * Pow2(b));
    }
  }

  lemma Pow2Double(n: nat)
    requires n > 0
    ensures Pow2(n) == 2 * Pow2(n - 1) && Pow2(1) == 2
  {
    assert Pow2(1) == 2 * Pow2(0);
  }

  lemma OnesHalf(n: nat)
    requires n > 0
    ensures (Pow2(n) - 1) % 2 == 1 && (Pow2(n) - 1) / 2 == Pow2(n - 1) - 1
  {
    Pow2Double(n);
    hide Pow2;
    OddHalf(Pow2(n - 1));
  }

  lemma OddHalf(m: int)
    ensures (2 * m - 1) % 2 == 1 && (2 * m - 1) / 2 == m - 1
  {
  }

  lemma {:induction false} Pow2Grows(a: nat, b: nat)
    requires a <= b
    ensures Pow2(a) <= Pow2(b)
    decreases b
  {
    if a < b { Pow2Grows(a, b - 1); }
  }

  /** Shifting right by one and then by `n` is shifting by `n + 1`. */
  lemma DivDiv(x: int, n: nat)
    ensures x / 2 / Pow2(n) == x / Pow2(n + 1)
  {
    var q, r := x / 2 / Pow2(n), x / 2 % Pow2(n);
    assert x / 2 == q * Pow2(n) + r;
    assert x == (q * Pow2(n) + r) * 2 + x % 2;
    assert x == q * Pow2(n + 1) + (2 * r + x % 2);
    DivUnique(x, Pow2(n + 1), q, 2 * r + x % 2);
  }

  lemma DivUnique(x: int, d: int, q: int, r: int)
    requires d > 0 && 0 <= r < d && x == q * d + r
    ensures x / d == q && x % d == r
  {
    var q', r' := x / d, x % d;
    assert x == q' * d + r';
    MulApart(q, q', d);
    MulApart(q', q, d);
  }

  /** Distinct multiples of d are at least d apart. */
  lemma MulApart(a: int, b: int, d: int)
    requires d > 0
    ensures a > b ==> a * d >= b * d + d
  {
    if a > b {
      assert (a - b - 1) * d >= 0;
      assert (a - b - 1) * d == a * d - b * d - d;
    }
  }

  lemma DivPow2(x: int, a: nat, b: nat)
    ensures x / Pow2(a) / Pow2(b) == x / Pow2(a + b)
  {
    Pow2Add(a, b);
    DivMul(x, Pow2(a), Pow2(b));
  }

  lemma DoubleMul(q: int, p: int)
    ensures q * (2 * p) == 2 * (q * p)
  {}

  lemma DivMul(x: int, a: nat, b: nat)
    requires a > 0 && b > 0
    ensures x / a / b == x / (a * b)
  {
    var y, r, q, r' := x / a, x % a, x / a / b, x / a % b;
    assert x == y * a + r && y == q * b + r';
    assert (q * b + r') * a == q * (a * b) + r' * a;
    MulApart(b, r', a);
    DivUnique(x, a * b, q, r' * a + r);
  }

  lemma SplitMod(w: int, p: int)
    requires p > 0
    ensures w % (2 * p) == w / p % 2 * p + w % p
  {
    var q, r, b := w / p, w % p, w / p % 2;
    assert w == q * p + r && q == q / 2 * 2 + b;
    assert w == q / 2 * (2 * p) + (b * p + r) by { assert (q / 2 * 2 + b) * p == q / 2 * (2 * p) + b * p; }
    assert b == 0 || b == 1;
    DivUnique(w, 2 * p, q / 2, b * p + r);
  }

  lemma DivNonNegative(x: nat, p: int)
    requires p > 0
    ensures x / p >= 0
  {
    var q, r := x / p, x % p;
    assert x == q * p + r;
    MulApart(0, q, p);
  }

  lemma Distribute(a: int, b: int, c: int, p: int)
    ensures (a + b + c) * p == a * p + b * p + c * p
  {}

  lemma AddMultiple(d: int, c: int, p: int)
    requires p > 0
    ensures (d + c * p) / p == d / p + c && (d + c * p) % p == d % p
  {
    var q, m := d / p, d % p;
    assert d == q * p + m && (q + c) * p == q * p + c * p;
    DivUnique(d + c * p, p, q + c, m);
  }

  lemma ScaleMod(a: int, b: int, c: int)
    requires b > 0 && c > 0
    ensures b * c > 0 && a * c % (b * c) == a % b * c && a * c / (b * c) == a / b
  {
    var q, r := a / b, a % b;
    assert (q * b + r) * c == q * (b * c) + r * c;
    MulApart(b, r, c);
    DivUnique(a * c, b * c, q, r * c);
  }

  /** The low part of a number, cut below, is the low part of what is left of it. */
  lemma ModDiv(v: int, p: int, q: int)
    requires p > 0 && q > 0
    ensures p * q > 0 && v % (p * q) / p == v / p % q
  {
    var n, r := v / p, v % p;
    var k, m := n / q, n % q;
    assert v == n * p + r && n == k * q + m;
    assert (k * q + m) * p == k * (p * q) + m * p;
    MulApart(q, m, p);
    DivUnique(v, p * q, k, m * p + r);
    DivUnique(m * p + r, p, m, r);
  }

  lemma DivCommutes(x: int, p: int, q: int)
    requires p > 0 && q > 0
    ensures x / p / q == x / q / p
  {
    DivMul(x, p, q);
    DivMul(x, q, p);
  }

  /** The low byte and the next of an integer make its low word. */
  lemma WordBytes(v: int)
    ensures v / 256 % 256 * 256 + v % 256 == v % 0x1_0000
  {
    var q, r := v / 256, v % 256;
    var h, s := q / 256, q % 256;
    DivUnique(v, 0x1_0000, h, s * 256 + r);
  }

  /** Two words make a long word. */
  lemma LongWords(v: int)
    ensures v / 0x1_0000 % 0x1_0000 * 0x1_0000 + v % 0x1_0000 == v % 0x1_0000_0000
  {
    var q, r := v / 0x1_0000, v % 0x1_0000;
    var h, s := q / 0x1_0000, q % 0x1_0000;
    DivUnique(v, 0x1_0000_0000, h, s * 0x1_0000 + r);
  }

  /** Four bytes make a long word. */
  lemma LongBytes(v: int)
    ensures v / 0x100_0000 % 256 * 0x100_0000 + v / 0x1_0000 % 256 * 0x1_0000 + v / 256 % 256 * 256 + v % 256
         == v % 0x1_0000_0000
  {
    var h := v / 0x1_0000;
    WordBytes(v);
    WordBytes(h);
    LongWords(v);
    assert h / 256 == v / 0x100_0000;
  }
}
