/** ADD, ADDX, SUB, SUBX, NEG and NEGX of tools/insttest68.c:109-289: the reference flags and the
    branch-free ones are both the true carries and overflows, at every operand width. */
module AddSubtract {
  import opened Powers
  import opened Words
  import opened StatusRegister

  /** What the condition codes say about `n`-bit operands whose unsigned and signed results,
      taken in unbounded arithmetic, are `u` and `s`. */
  function TrueFlags(n: nat, u: int, s: int): Sr
    requires n > 0
  {
    var carry := !(0 <= u < Pow2(n));
    Sr(carry, !(0 - Pow2(n - 1) <= s < Pow2(n - 1)), u % Pow2(n) == 0, u % Pow2(n) >= Pow2(n - 1), carry)
  }

  function TrueAdd(n: nat, s: nat, d: nat, x: nat): Sr
    requires n > 0
  {
    TrueFlags(n, s + d + x, Signed(n, s) + Signed(n, d) + x)
  }

  function TrueSub(n: nat, s: nat, d: nat, x: nat): Sr
    requires n > 0
  {
    TrueFlags(n, d - s - x, Signed(n, d) - Signed(n, s) - x)
  }

  /** get_X. */
  function GetX(low: nat, sr: Sr): nat {
    AsInt(sr.x) * Pow2(low)
  }

  /** A result of `width` bits. */
  function Wrap(width: nat, v: int): (r: nat)
    ensures r < Pow2(width)
  {
    v % Pow2(width)
  }

  function AddSrRef(width: nat, S: nat, D: nat, R: nat): Sr
    requires width > 0
  {
    var s, d, r := Negative(width, S), Negative(width, D), Negative(width, R);
    var c := (s && d) || (!r && d) || (s && !r);
    Sr(c, (s && d && !r) || (!s && !d && r), R == 0, r, c)
  }

  method AddSrOpt(width: nat, S: nat, D: nat, R: nat) returns (sr: Sr)
    requires width > 0
    ensures sr == AddSrRef(width, S, D, R)
  {
    var r := Masked(Negative(width, R), SR_V.Or(SR_C).Or(SR_X).Or(SR_N)).Xor(SR_V);
    var s := Masked(Negative(width, S), SR_V.Or(SR_C).Or(SR_X)).Xor(r);
    var d := Masked(Negative(width, D), SR_V.Or(SR_C).Or(SR_X)).Xor(r);
    r := r.And(SR_N.Not());
    r := r.Or(SR_V.Or(Masked(R == 0, SR_Z)));
    r := r.Xor(s.Or(d));
    sr := r;
  }

  function SubSrRef(width: nat, S: nat, D: nat, R: nat): Sr
    requires width > 0
  {
    var s, d, r := Negative(width, S), Negative(width, D), Negative(width, R);
    var c := (s && !d) || (r && !d) || (s && r);
    Sr(c, (!s && d && !r) || (s && !d && r), R == 0, r, c)
  }

  method SubSrOpt(width: nat, S: nat, D: nat, R: nat) returns (sr: Sr)
    requires width > 0 && S < Pow2(width) && D < Pow2(width) && R < Pow2(width)
    ensures sr == SubSrRef(width, S, D, R)
  {
    var carry := Bitwise(XOR, Bitwise(AND, Bitwise(XOR, D, Not(width, R)), Bitwise(XOR, S, R)), R);
    var overflow := Bitwise(AND, Bitwise(XOR, D, R), Bitwise(XOR, Not(width, S), R));
    BitwiseSign(XOR, D, Not(width, R), width);
    BitwiseSign(XOR, S, R, width);
    BitwiseSign(AND, Bitwise(XOR, D, Not(width, R)), Bitwise(XOR, S, R), width);
    BitwiseSign(XOR, Bitwise(AND, Bitwise(XOR, D, Not(width, R)), Bitwise(XOR, S, R)), R, width);
    BitwiseSign(XOR, D, R, width);
    BitwiseSign(XOR, Not(width, S), R, width);
    BitwiseSign(AND, Bitwise(XOR, D, R), Bitwise(XOR, Not(width, S), R), width);
    hide Bitwise;
    var ccr := Masked(R == 0, SR_Z)
               .Or(Masked(Negative(width, R), SR_N))
               .Or(Masked(Negative(width, carry), SR_C.Or(SR_X)))
               .Or(Masked(Negative(width, overflow), SR_V));
    sr := ccr;
  }

  function NegSrRef(width: nat, D: nat, R: nat): Sr
    requires width > 0
  {
    var d, r := Negative(width, D), Negative(width, R);
    Sr(d || r, d && r, R == 0, r, d || r)
  }

  method NegSrOpt(width: nat, D: nat, R: nat) returns (sr: Sr)
    requires width > 0
    ensures sr == NegSrRef(width, D, R)
  {
    var ccr := Masked(R == 0, SR_Z);
    var d, r := Masked(Negative(width, D), SR_NONE.Not()), Masked(Negative(width, R), SR_NONE.Not());
    ccr := ccr.Or(r.And(SR_N));
    ccr := ccr.Or(d.Or(r).And(SR_C.Or(SR_X)));
    ccr := ccr.Or(d.And(r).And(SR_V));
    sr := ccr;
  }

  // ---- The flags are true.

  /** Sums with half range `p`. */
  lemma AddSigns(p: nat, s: nat, d: nat, x: nat) returns (r: nat)
    requires p > 0 && s < 2 * p && d < 2 * p && x <= 1
    ensures r == (s + d + x) % (2 * p)
    ensures s + d + x >= 2 * p <==> (s >= p && d >= p) || (r < p && d >= p) || (s >= p && r < p)
    ensures var t := (if s < p then s else s - 2 * p) + (if d < p then d else d - 2 * p) + x;
            0 - p <= t < p <==> !((s >= p && d >= p && r < p) || (s < p && d < p && r >= p))
  {
    r := if s + d + x >= 2 * p then s + d + x - 2 * p else s + d + x;
    DivUnique(s + d + x, 2 * p, if s + d + x >= 2 * p then 1 else 0, r);
  }

  lemma SubSigns(p: nat, s: nat, d: nat, x: nat) returns (r: nat)
    requires p > 0 && s < 2 * p && d < 2 * p && x <= 1
    ensures r == (d - s - x) % (2 * p)
    ensures d - s - x < 0 <==> (s >= p && d < p) || (r >= p && d < p) || (s >= p && r >= p)
    ensures var t := (if d < p then d else d - 2 * p) - (if s < p then s else s - 2 * p) - x;
            0 - p <= t < p <==> !((s < p && d >= p && r < p) || (s >= p && d < p && r >= p))
  {
    r := if d - s - x < 0 then d - s - x + 2 * p else d - s - x;
    DivUnique(d - s - x, 2 * p, if d - s - x < 0 then -1 else 0, r);
  }

  lemma WrapScaled(low: nat, n: nat, v: int)
    ensures Wrap(low + n, v * Pow2(low)) == v % Pow2(n) * Pow2(low)
  {
    hide Pow2;
    Pow2Add(n, low);
    ScaleMod(v, Pow2(n), Pow2(low));
    assert Pow2(low + n) == Pow2(n + low);
  }

  /** A result computed on words is the result computed on their operands. */
  lemma ScaledResult(low: nat, n: nat, v: int, R: nat)
    requires n > 0 && R == Wrap(low + n, v * Pow2(low))
    ensures Operand(low, n, R) && Shr(R, low) == v % Pow2(n)
    ensures Negative(low + n, R) == (v % Pow2(n) >= Pow2(n - 1)) && (R == 0 <==> v % Pow2(n) == 0)
  {
    WrapScaled(low, n, v);
    OperandOf(low, n, v % Pow2(n));
    hide Wrap, Shr, Operand;
    var _ := OperandIs(low, n, R);
  }

  lemma AddFlags(low: nat, n: nat, S: nat, D: nat, R: nat, s: nat, d: nat, x: nat)
    requires n > 0 && s < Pow2(n) && d < Pow2(n) && x <= 1
    requires Negative(low + n, S) == (s >= Pow2(n - 1)) && Negative(low + n, D) == (d >= Pow2(n - 1))
    requires Negative(low + n, R) == ((s + d + x) % Pow2(n) >= Pow2(n - 1)) && (R == 0 <==> (s + d + x) % Pow2(n) == 0)
    ensures AddSrRef(low + n, S, D, R) == TrueAdd(n, s, d, x)
  {
    var _ := AddSigns(Pow2(n - 1), s, d, x);
    hide Negative;
  }

  lemma AddSrTrue(low: nat, n: nat, S: nat, D: nat, x: nat, R: nat)
    requires n > 0 && Operand(low, n, S) && Operand(low, n, D) && x <= 1
    requires R == Wrap(low + n, S + D + x * Pow2(low))
    ensures Shr(R, low) == (Shr(S, low) + Shr(D, low) + x) % Pow2(n)
    ensures AddSrRef(low + n, S, D, R) == TrueAdd(n, Shr(S, low), Shr(D, low), x)
  {
    hide Shr, Wrap, AddSrRef, TrueAdd, Negative, Operand;
    var s := OperandIs(low, n, S);
    var d := OperandIs(low, n, D);
    Distribute(s, d, x, Pow2(low));
    ScaledResult(low, n, s + d + x, R);
    AddFlags(low, n, S, D, R, s, d, x);
  }

  lemma SubFlags(low: nat, n: nat, S: nat, D: nat, R: nat, s: nat, d: nat, x: nat)
    requires n > 0 && s < Pow2(n) && d < Pow2(n) && x <= 1
    requires Negative(low + n, S) == (s >= Pow2(n - 1)) && Negative(low + n, D) == (d >= Pow2(n - 1))
    requires Negative(low + n, R) == ((d - s - x) % Pow2(n) >= Pow2(n - 1)) && (R == 0 <==> (d - s - x) % Pow2(n) == 0)
    ensures SubSrRef(low + n, S, D, R) == TrueSub(n, s, d, x)
  {
    var _ := SubSigns(Pow2(n - 1), s, d, x);
    hide Negative;
  }

  lemma NegateProducts(s: int, x: int, p: int)
    ensures (-s) * p == -(s * p) && (-x) * p == -(x * p)
  {}

  lemma SubSrTrue(low: nat, n: nat, S: nat, D: nat, x: nat, R: nat)
    requires n > 0 && Operand(low, n, S) && Operand(low, n, D) && x <= 1
    requires R == Wrap(low + n, D - S - x * Pow2(low))
    ensures Shr(R, low) == (Shr(D, low) - Shr(S, low) - x) % Pow2(n)
    ensures SubSrRef(low + n, S, D, R) == TrueSub(n, Shr(S, low), Shr(D, low), x)
  {
    hide Shr, Wrap, SubSrRef, TrueSub, Negative, Operand;
    var s := OperandIs(low, n, S);
    var d := OperandIs(low, n, D);
    Distribute(d, 0 - s, 0 - x, Pow2(low));
    NegateProducts(s, x, Pow2(low));
    ScaledResult(low, n, d - s - x, R);
    SubFlags(low, n, S, D, R, s, d, x);
  }

  /** Negation is subtraction from zero. */
  lemma NegSrIsSub(width: nat, D: nat, R: nat)
    requires width > 0
    ensures NegSrRef(width, D, R) == SubSrRef(width, D, 0, R)
  {}

  // ---- The instructions.

  method AddRef(S: nat, D: nat, low: nat, l: nat) returns (R: nat, sr: Sr)
    requires Operand(low, l + 1, S) && Operand(low, l + 1, D)
    ensures Shr(R, low) == (Shr(S, low) + Shr(D, low)) % Pow2(l + 1)
    ensures sr == TrueAdd(l + 1, Shr(S, low), Shr(D, low), 0)
  {
    R := Wrap(low + l + 1, S + D);
    sr := AddSrRef(low + l + 1, S, D, R);
    AddSrTrue(low, l + 1, S, D, 0, R);
  }

  method AddOpt(S: nat, D: nat, low: nat, l: nat) returns (R: nat, sr: Sr)
    requires Operand(low, l + 1, S) && Operand(low, l + 1, D)
    ensures Shr(R, low) == (Shr(S, low) + Shr(D, low)) % Pow2(l + 1)
    ensures sr == TrueAdd(l + 1, Shr(S, low), Shr(D, low), 0)
  {
    R := Wrap(low + l + 1, S + D);
    sr := AddSrOpt(low + l + 1, S, D, R);
    AddSrTrue(low, l + 1, S, D, 0, R);
  }

  method AdxRef(S: nat, D: nat, sr0: Sr, low: nat, l: nat) returns (R: nat, sr: Sr)
    requires Operand(low, l + 1, S) && Operand(low, l + 1, D)
    ensures Shr(R, low) == (Shr(S, low) + Shr(D, low) + AsInt(sr0.x)) % Pow2(l + 1)
    ensures sr == TrueAdd(l + 1, Shr(S, low), Shr(D, low), AsInt(sr0.x))
  {
    R := Wrap(low + l + 1, S + D + GetX(low, sr0));
    sr := AddSrRef(low + l + 1, S, D, R);
    AddSrTrue(low, l + 1, S, D, AsInt(sr0.x), R);
  }

  method AdxOpt(S: nat, D: nat, sr0: Sr, low: nat, l: nat) returns (R: nat, sr: Sr)
    requires Operand(low, l + 1, S) && Operand(low, l + 1, D)
    ensures Shr(R, low) == (Shr(S, low) + Shr(D, low) + AsInt(sr0.x)) % Pow2(l + 1)
    ensures sr == TrueAdd(l + 1, Shr(S, low), Shr(D, low), AsInt(sr0.x))
  {
    R := Wrap(low + l + 1, S + D + GetX(low, sr0));
    sr := AddSrOpt(low + l + 1, S, D, R);
    AddSrTrue(low, l + 1, S, D, AsInt(sr0.x), R);
  }

  method SubRef(S: nat, D: nat, low: nat, l: nat) returns (R: nat, sr: Sr)
    requires Operand(low, l + 1, S) && Operand(low, l + 1, D)
    ensures Shr(R, low) == (Shr(D, low) - Shr(S, low)) % Pow2(l + 1)
    ensures sr == TrueSub(l + 1, Shr(S, low), Shr(D, low), 0)
  {
    R := Wrap(low + l + 1, D - S);
    sr := SubSrRef(low + l + 1, S, D, R);
    SubSrTrue(low, l + 1, S, D, 0, R);
  }

  method SubOpt(S: nat, D: nat, low: nat, l: nat) returns (R: nat, sr: Sr)
    requires Operand(low, l + 1, S) && Operand(low, l + 1, D)
    ensures Shr(R, low) == (Shr(D, low) - Shr(S, low)) % Pow2(l + 1)
    ensures sr == TrueSub(l + 1, Shr(S, low), Shr(D, low), 0)
  {
    R := Wrap(low + l + 1, D - S);
    sr := SubSrOpt(low + l + 1, S, D, R);
    SubSrTrue(low, l + 1, S, D, 0, R);
  }

  method SbxRef(S: nat, D: nat, sr0: Sr, low: nat, l: nat) returns (R: nat, sr: Sr)
    requires Operand(low, l + 1, S) && Operand(low, l + 1, D)
    ensures Shr(R, low) == (Shr(D, low) - Shr(S, low) - AsInt(sr0.x)) % Pow2(l + 1)
    ensures sr == TrueSub(l + 1, Shr(S, low), Shr(D, low), AsInt(sr0.x))
  {
    R := Wrap(low + l + 1, D - S - GetX(low, sr0));
    sr := SubSrRef(low + l + 1, S, D, R);
    SubSrTrue(low, l + 1, S, D, AsInt(sr0.x), R);
  }

  method SbxOpt(S: nat, D: nat, sr0: Sr, low: nat, l: nat) returns (R: nat, sr: Sr)
    requires Operand(low, l + 1, S) && Operand(low, l + 1, D)
    ensures Shr(R, low) == (Shr(D, low) - Shr(S, low) - AsInt(sr0.x)) % Pow2(l + 1)
    ensures sr == TrueSub(l + 1, Shr(S, low), Shr(D, low), AsInt(sr0.x))
  {
    R := Wrap(low + l + 1, D - S - GetX(low, sr0));
    sr := SubSrOpt(low + l + 1, S, D, R);
    SubSrTrue(low, l + 1, S, D, AsInt(sr0.x), R);
  }

  method NegRef(D: nat, low: nat, l: nat) returns (R: nat, sr: Sr)
    requires Operand(low, l + 1, D)
    ensures Shr(R, low) == (0 - Shr(D, low)) % Pow2(l + 1) && sr == TrueSub(l + 1, Shr(D, low), 0, 0)
  {
    R := Wrap(low + l + 1, 0 - D);
    sr := NegSrRef(low + l + 1, D, R);
    NegTrue(low, l + 1, D, 0, R);
  }

  method NegOpt(D: nat, low: nat, l: nat) returns (R: nat, sr: Sr)
    requires Operand(low, l + 1, D)
    ensures Shr(R, low) == (0 - Shr(D, low)) % Pow2(l + 1) && sr == TrueSub(l + 1, Shr(D, low), 0, 0)
  {
    R := Wrap(low + l + 1, 0 - D);
    sr := NegSrOpt(low + l + 1, D, R);
    NegTrue(low, l + 1, D, 0, R);
  }

  method NgxRef(D: nat, sr0: Sr, low: nat, l: nat) returns (R: nat, sr: Sr)
    requires Operand(low, l + 1, D)
    ensures Shr(R, low) == (0 - Shr(D, low) - AsInt(sr0.x)) % Pow2(l + 1)
    ensures sr == TrueSub(l + 1, Shr(D, low), 0, AsInt(sr0.x))
  {
    R := Wrap(low + l + 1, 0 - D - GetX(low, sr0));
    sr := NegSrRef(low + l + 1, D, R);
    NegTrue(low, l + 1, D, AsInt(sr0.x), R);
  }

  method NgxOpt(D: nat, sr0: Sr, low: nat, l: nat) returns (R: nat, sr: Sr)
    requires Operand(low, l + 1, D)
    ensures Shr(R, low) == (0 - Shr(D, low) - AsInt(sr0.x)) % Pow2(l + 1)
    ensures sr == TrueSub(l + 1, Shr(D, low), 0, AsInt(sr0.x))
  {
    R := Wrap(low + l + 1, 0 - D - GetX(low, sr0));
    sr := NegSrOpt(low + l + 1, D, R);
    NegTrue(low, l + 1, D, AsInt(sr0.x), R);
  }

  lemma ZeroOperand(low: nat, n: nat)
    ensures Operand(low, n, 0) && Shr(0, low) == 0
  {
    hide Pow2;
    DivUnique(0, Pow2(low), 0, 0);
  }

  lemma NegTrue(low: nat, n: nat, D: nat, x: nat, R: nat)
    requires n > 0 && Operand(low, n, D) && x <= 1 && R == Wrap(low + n, 0 - D - x * Pow2(low))
    ensures Shr(R, low) == (0 - Shr(D, low) - x) % Pow2(n)
    ensures NegSrRef(low + n, D, R) == TrueSub(n, Shr(D, low), 0, x)
  {
    hide SubSrRef, NegSrRef, TrueSub, Operand, Shr, Wrap, Pow2;
    ZeroOperand(low, n);
    SubSrTrue(low, n, D, 0, x, R);
    NegSrIsSub(low + n, D, R);
  }
}
