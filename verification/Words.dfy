/** Machine words of any width, kept as their unsigned value, and the C operators on them. */
module Words {
  import opened Powers

  function AsInt(b: bool): (r: nat)
    ensures r <= 1
  {
    if b then 1 else 0
  }

  /** The bitwise operators `&`, `|` and `^`. */
  datatype BitOp = AND | OR | XOR

  function Join(op: BitOp, a: bool, b: bool): bool {
    match op
    case AND => a && b
    case OR => a || b
    case XOR => a != b
  }

  function Bitwise(op: BitOp, a: nat, b: nat): nat
    decreases a + b
  {
    if a == 0 && b == 0 then 0 else
    AsInt(Join(op, a % 2 == 1, b % 2 == 1)) + 2 * Bitwise(op, a / 2, b / 2)
  }

  /** `~x` in `width` bits. */
  function Not(width: nat, x: nat): (r: nat)
    requires x < Pow2(width)
    ensures r < Pow2(width)
  {
    Pow2(width) - 1 - x
  }

  function Shl(width: nat, x: int, n: nat): (r: nat)
    ensures r < Pow2(width)
  {
    x * Pow2(n) % Pow2(width)
  }

  function Shr(x: nat, n: nat): nat {
    DivNonNegative(x, Pow2(n));
    x / Pow2(n)
  }

  /** The word read as a two's complement number. */
  function Signed(width: nat, x: nat): int
    requires width > 0
  {
    if x < Pow2(width - 1) then x else x - Pow2(width)
  }

  predicate Negative(width: nat, x: nat)
    requires width > 0
  {
    x >= Pow2(width - 1)
  }

  lemma Unfold(op: BitOp, a: nat, b: nat)
    ensures Bitwise(op, a, b) == AsInt(Join(op, a % 2 == 1, b % 2 == 1)) + 2 * Bitwise(op, a / 2, b / 2)
    ensures Bitwise(op, a, b) / 2 == Bitwise(op, a / 2, b / 2)
  {
    assert Bitwise(op, 0, 0) == 0;
  }

  lemma NoBits(op: BitOp)
    ensures Bitwise(op, 0, 0) == 0
  {}

  /** Shifting both operands right shifts the result right. */
  lemma {:induction false} BitwiseShift(op: BitOp, a: nat, b: nat, n: nat)
    ensures Shr(Bitwise(op, a, b), n) == Bitwise(op, Shr(a, n), Shr(b, n))
    decreases n
  {
    hide Bitwise;
    if n > 0 {
      DivDiv(a, n - 1);
      DivDiv(b, n - 1);
      DivDiv(Bitwise(op, a, b), n - 1);
      Unfold(op, a, b);
      BitwiseShift(op, a / 2, b / 2, n - 1);
    }
  }

  lemma {:induction false} BitwiseBound(op: BitOp, a: nat, b: nat, n: nat)
    requires a < Pow2(n) && b < Pow2(n)
    ensures Bitwise(op, a, b) < Pow2(n)
    decreases n
  {
    if n > 0 {
      BitwiseBound(op, a / 2, b / 2, n - 1);
    }
  }

  /** The sign of a bitwise result is that operator on the signs. */
  lemma BitwiseSign(op: BitOp, a: nat, b: nat, width: nat)
    requires width > 0 && a < Pow2(width) && b < Pow2(width)
    ensures Bitwise(op, a, b) < Pow2(width)
    ensures Negative(width, Bitwise(op, a, b)) == Join(op, Negative(width, a), Negative(width, b))
  {
    BitwiseBound(op, a, b, width);
    BitwiseShift(op, a, b, width - 1);
    TopBit(a, Pow2(width - 1));
    TopBit(b, Pow2(width - 1));
    TopBit(Bitwise(op, a, b), Pow2(width - 1));
    var s, t := AsInt(Negative(width, a)), AsInt(Negative(width, b));
    assert Bitwise(op, s / 2, t / 2) == 0;
  }

  lemma TopBit(x: nat, p: nat)
    requires 0 < p && x < 2 * p
    ensures x / p == if x >= p then 1 else 0
  {
    DivUnique(x, p, if x >= p then 1 else 0, if x >= p then x - p else x);
  }

  lemma {:induction false} OrNothing(a: nat)
    ensures Bitwise(OR, a, 0) == a
  {
    if a > 0 { OrNothing(a / 2); }
  }

  lemma {:induction false} OrSame(a: nat)
    ensures Bitwise(OR, a, a) == a
  {
    if a > 0 { OrSame(a / 2); }
  }

  /** A mask of `j` low bits takes the remainder. */
  lemma {:induction false} AndLow(x: nat, j: nat)
    ensures Bitwise(AND, x, Pow2(j) - 1) == x % Pow2(j)
    decreases j
  {
    hide Bitwise;
    if j == 0 {
      AndNothing(x);
    } else {
      OnesHalf(j);
      Pow2Double(j);
      hide Pow2;
      AndOdd(x, Pow2(j) - 1);
      AndLow(x / 2, j - 1);
      HalfMod(x, Pow2(j - 1));
    }
  }

  lemma AndOdd(x: nat, y: nat)
    requires y % 2 == 1
    ensures Bitwise(AND, x, y) == x % 2 + 2 * Bitwise(AND, x / 2, y / 2)
  {
    hide Bitwise;
    Unfold(AND, x, y);
  }

  lemma HalfMod(x: int, p: int)
    requires p > 0
    ensures x % (2 * p) == x % 2 + 2 * (x / 2 % p)
  {
    var q, r := x / 2 / p, x / 2 % p;
    assert x / 2 == q * p + r;
    assert x == q * (2 * p) + (2 * r + x % 2) by { DoubleMul(q, p); }
    DivUnique(x, 2 * p, q, 2 * r + x % 2);
  }

  lemma {:induction false} AndNothing(a: nat)
    ensures Bitwise(AND, a, 0) == 0
  {
    if a > 0 { AndNothing(a / 2); }
  }

  /** Words without a common bit: `|` is addition. */
  lemma {:induction false} OrApart(high: nat, low: nat, n: nat)
    requires high % Pow2(n) == 0 && low < Pow2(n)
    ensures Bitwise(OR, high, low) == Bitwise(OR, low, high) == high + low
    decreases n
  {
    OrCommutes(high, low);
    if n == 0 {
      OrNothing(high);
    } else {
      HalfMultiple(high, Pow2(n - 1));
      OrApart(high / 2, low / 2, n - 1);
    }
  }

  lemma {:induction false} OrCommutes(a: nat, b: nat)
    ensures Bitwise(OR, a, b) == Bitwise(OR, b, a)
    decreases a + b
  {
    if a > 0 || b > 0 { OrCommutes(a / 2, b / 2); }
  }

  lemma HalfMultiple(x: int, p: int)
    requires p > 0 && x % (2 * p) == 0
    ensures x % 2 == 0 && x / 2 % p == 0
  {
    var k := x / (2 * p);
    assert x == k * (2 * p) == 2 * (k * p);
    DivUnique(x / 2, p, k, 0);
  }

  lemma {:induction false} AndOnes(x: nat, n: nat)
    requires x < Pow2(n)
    ensures Bitwise(AND, x, Pow2(n) - 1) == x
    decreases n
  {
    hide Bitwise;
    if n > 0 {
      Unfold(AND, x, Pow2(n) - 1);
      assert (Pow2(n) - 1) / 2 == Pow2(n - 1) - 1;
      AndOnes(x / 2, n - 1);
    } else {
      NoBits(AND);
    }
  }

  /** NORM_MSK: the top `n` of `low + n` bits. */
  function Mask(low: nat, n: nat): (r: nat)
  {
    Pow2Add(low, n);
    MulApart(Pow2(n), 0, Pow2(low));
    Pow2(low + n) - Pow2(low)
  }

  lemma {:induction false} AndMask(x: nat, low: nat, n: nat)
    requires x < Pow2(low + n)
    ensures Bitwise(AND, x, Mask(low, n)) == x / Pow2(low) * Pow2(low)
    decreases low
  {
    hide Bitwise;
    if low == 0 {
      AndOnes(x, n);
    } else {
      AndMask(x / 2, low - 1, n);
      DivDiv(x, low - 1);
      assert Mask(low, n) == 2 * Mask(low - 1, n);
      Unfold(AND, x, Mask(low, n));
      DoubleMul(x / Pow2(low), Pow2(low - 1));
    }
  }
}
