/** Operands shifted inside the words that hold them. */
module ShiftWords {
  import opened Powers
  import opened Words
  import opened StatusRegister
  import opened Shifts

  /** The shift count in a source operand. */
  function Count(low: nat, S: int): (k: nat)
    ensures k < 64
  {
    S / Pow2(low) % 64
  }

  /** An operand put back into its word. */
  lemma PutBack(low: nat, n: nat, v: int)
    requires n > 0
    ensures Shl(low + n, v, low) == v % Pow2(n) * Pow2(low)
    ensures Shr(Shl(low + n, v, low), low) == v % Pow2(n)
  {
    hide Pow2;
    Pow2Add(n, low);
    ScaleMod(v, Pow2(n), Pow2(low));
    OperandOf(low, n, v % Pow2(n));
  }

  lemma WordIs(low: nat, n: nat, word: nat, d: nat)
    requires n > 0 && word == d * Pow2(low) && d < Pow2(n)
    ensures Operand(low, n, word) && Shr(word, low) == d
    ensures Negative(low + n, word) == Top(n, d) && (word == 0 <==> d == 0)
  {
    OperandOf(low, n, d);
    var _ := OperandIs(low, n, word);
  }

  /** Shifting the word left shifts its operand left. */
  lemma ShlWord(low: nat, n: nat, d: nat, j: nat)
    requires n > 0
    ensures Shl(low + n, d * Pow2(low), j) == Shl(n, d, j) * Pow2(low)
  {
    Pow2Add(n, low);
    ScaleMod(d * Pow2(j), Pow2(n), Pow2(low));
    assert Pow2(low + n) == Pow2(n + low);
    SwapFactors(d, Pow2(low), Pow2(j));
  }

  lemma SwapFactors(a: int, b: int, c: int)
    ensures a * b * c == a * c * b
  {}

  lemma ShlTwice(width: nat, x: nat, i: nat, j: nat)
    ensures Shl(width, Shl(width, x, i), j) == Shl(width, x, i + j)
  {
    Pow2Add(i, j);
    MulMod(x * Pow2(i), Pow2(j), Pow2(width));
    Reassociate(x, Pow2(i), Pow2(j));
  }

  lemma Reassociate(a: int, b: int, c: int)
    ensures a * b * c == a * (b * c)
  {}

  lemma MulMod(v: int, c: int, m: int)
    requires m > 0
    ensures v % m * c % m == v * c % m
  {
    var q, r := v / m, v % m;
    assert v == q * m + r;
    assert v * c == r * c + (q * c) * m by {
      assert (q * m + r) * c == q * m * c + r * c;
      SwapFactors(q, m, c);
    }
    AddMultiple(r * c, q * c, m);
  }

  /** Shifting the word right shifts its operand right. */
  lemma ShrWord(low: nat, D: nat, j: nat)
    ensures Shr(Shr(D, j), low) == Shr(Shr(D, low), j)
  {
    DivCommutes(D, Pow2(j), Pow2(low));
  }

  lemma ShrTwice(x: nat, i: nat, j: nat)
    ensures Shr(Shr(x, i), j) == Shr(x, i + j)
  {
    DivPow2(x, i, j);
  }

  lemma ShrBound(x: nat, j: nat, m: nat)
    requires x < m
    ensures Shr(x, j) < m
  {
    var q, p := Shr(x, j), Pow2(j);
    assert x == q * p + x % p;
    assert q * (p - 1) >= 0;
    assert q * (p - 1) == q * p - q;
  }

  /** A word cut by NORM_MSK keeps the operand in it. */
  lemma CutWord(low: nat, n: nat, word: nat) returns (d: nat)
    requires n > 0 && word < Pow2(low + n)
    ensures d == Shr(word, low) < Pow2(n) && Bitwise(AND, word, Mask(low, n)) == d * Pow2(low)
    ensures var R := Bitwise(AND, word, Mask(low, n));
            Shr(R, low) == d && Negative(low + n, R) == Top(n, d) && (R == 0 <==> d == 0)
  {
    d := Shr(word, low);
    Pow2Add(low, n);
    DivBelow(word, Pow2(low), Pow2(n));
    AndMask(word, low, n);
    hide Bitwise, Mask;
    WordIs(low, n, Bitwise(AND, word, Mask(low, n)), d);
  }

  lemma BitBelow(b: bool, p: nat, q: nat)
    requires p < q
    ensures AsInt(b) * p % q == AsInt(b) * p
  {
    if b {
      assert AsInt(b) * p == p;
    } else {
      assert AsInt(b) * p == 0;
    }
  }

  /** One bit, shifted to a place inside the word. */
  lemma BitAt(width: nat, b: bool, j: nat)
    requires j < width
    ensures Shl(width, AsInt(b), j) == AsInt(b) * Pow2(j)
  {
    hide Pow2;
    Pow2Double(j + 1);
    Pow2Grows(j + 1, width);
    BitBelow(b, Pow2(j), Pow2(width));
  }

  /** A bit moved in at the top by `|`. */
  lemma OrTop(n: nat, d: nat, b: bool)
    requires n > 0 && d < Pow2(n)
    ensures Bitwise(OR, d / 2, AsInt(b) * Pow2(n - 1)) == RightIn(n, d, b)
  {
    assert Pow2(n) == 2 * Pow2(n - 1);
    DivUnique(AsInt(b) * Pow2(n - 1), Pow2(n - 1), AsInt(b), 0);
    OrApart(AsInt(b) * Pow2(n - 1), d / 2, n - 1);
  }

  /** A bit moved in at the bottom by `|`. */
  lemma OrBottom(v: nat, b: bool)
    requires v % 2 == 0
    ensures Bitwise(OR, v, AsInt(b)) == v + AsInt(b)
  {
    assert Pow2(1) == 2;
    OrApart(v, AsInt(b), 1);
  }
}
