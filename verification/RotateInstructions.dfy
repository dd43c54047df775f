/** The rotate instructions of tools/insttest68.c:650-864, each in its two forms; see
    ShiftInstructions. ROR and ROL work at widths that are powers of two, as their masks need. */
module RotateInstructions {
  import opened Powers
  import opened Words
  import opened StatusRegister
  import opened Shifts
  import opened ShiftWords
  import opened ShiftInstructions

  // ---- ROR

  method RorRef(S: int, D: nat, sr0: Sr, low: nat, l: nat) returns (R: nat, sr: Sr)
    requires Operand(low, l + 1, D)
    ensures Outcome(Shr(R, low), sr) == Shifted(ROR, l + 1, Shr(D, low), sr0, Count(low, S))
  {
    hide Shl, Steps, Pow2, Bitwise, RightIn;
    ghost var d := OperandIs(low, l + 1, D);
    R := Shr(D, low);
    sr := sr0.(c := false, v := false);
    ghost var k, r := Count(low, S), Start(ROR, d, sr0);
    FirstSteps(ROR, l + 1, r);
    var cnt := Count(low, S);
    while cnt > 0
      invariant cnt <= k && R < Pow2(l + 1) && Reg(R, sr.x, sr.c, sr.v) == Steps(ROR, l + 1, r, k - cnt)
    {
      RightTurn(ROR, low, l + 1, r, k - cnt, R % 2 == 1);
      sr := sr.(c := R % 2 == 1);
      R := Bitwise(OR, R / 2, Shl(low + l + 1, AsInt(sr.c), l));
      cnt := cnt - 1;
    }
    sr := sr.(z := R == 0, n := Shr(R, l) % 2 == 1);
    InWord(low, l + 1, R);
    R := Shl(low + l + 1, R, low);
  }

  /** A step to the right as the references do it, with `b` moved in at the top. */
  lemma RightTurn(op: Op, low: nat, n: nat, r: Reg, k: nat, b: bool)
    requires n > 0 && Steps(op, n, r, k).d < Pow2(n) && op in {ROR, ROXR}
    requires b == if op == ROR then Steps(op, n, r, k).d % 2 == 1 else Steps(op, n, r, k).c
    ensures var a, r' := Steps(op, n, r, k), Steps(op, n, r, k + 1);
            && r' == Reg(Bitwise(OR, a.d / 2, Shl(low + n, AsInt(b), n - 1)),
                         if op == ROR then a.x else a.d % 2 == 1, a.d % 2 == 1, a.v)
            && r'.d < Pow2(n)
  {
    hide Bitwise, Shl;
    var a := Steps(op, n, r, k);
    BitAt(low + n, b, n - 1);
    OrTop(n, a.d, b);
    StepBound(op, n, a);
  }

  /** An operand as the references hold it while they shift, and back in its word. */
  lemma InWord(low: nat, n: nat, d: nat)
    requires n > 0 && d < Pow2(n)
    ensures var R := Shl(low + n, d, low);
            Shr(R, low) == d && R == d * Pow2(low) && Negative(low + n, R) == Top(n, d) && (R == 0 <==> d == 0)
    ensures Shr(d, n - 1) % 2 == 1 <==> Top(n, d)
  {
    DivUnique(d, Pow2(n), 0, d);
    PutBack(low, n, d);
    assert Pow2(n) == 2 * Pow2(n - 1);
    TopBit(d, Pow2(n - 1));
    hide Shl, Pow2, Negative;
    WordIs(low, n, Shl(low + n, d, low), d);
  }

  method RorOpt(S: int, D: nat, sr0: Sr, low: nat, l: nat, ghost j: nat) returns (R: nat, sr: Sr)
    requires Operand(low, l + 1, D) && l + 1 == Pow2(j)
    ensures Outcome(Shr(R, low), sr) == Shifted(ROR, l + 1, Shr(D, low), sr0, Count(low, S))
  {
    hide Bitwise, Mask, Shr, Shl, Steps, Negative, Pow2, RotR, RightAmount;
    ghost var d := OperandIs(low, l + 1, D);
    ghost var r := Start(ROR, d, sr0);
    var ccr := sr0.And(SR_X);
    R := D;
    var s := Count(low, S);
    RorClosed(l + 1, r, s);
    FirstSteps(ROR, l + 1, r);
    if s != 0 {
      RotateAmounts(low, l, j, s);
      var right, left := Bitwise(AND, s, l), Bitwise(AND, Minus(low + l + 1, s), l);
      RotatePieces(low, l + 1, D, right, left);
      R := Bitwise(AND, Bitwise(OR, Shr(R, right), Shl(low + l + 1, R, left)), Mask(low, l + 1));
      ccr := ccr.Or(Masked(Negative(low + l + 1, R), SR_C));
    } else {
      WordIs(low, l + 1, R, d);
    }
    ccr := ccr.Or(SignAndZero(low + l + 1, R));
    sr := ccr;
  }

  /** `-s` as a word. */
  function Minus(width: nat, s: int): (r: nat)
    ensures r < Pow2(width)
  {
    (0 - s) % Pow2(width)
  }

  /** `s & l` and `-s & l` are the two amounts of a rotate. */
  lemma RotateAmounts(low: nat, l: nat, j: nat, s: nat)
    requires l + 1 == Pow2(j)
    ensures Bitwise(AND, s, l) == RightAmount(l + 1, s)
    ensures Bitwise(AND, Minus(low + l + 1, s), l) == Opposite(l + 1, RightAmount(l + 1, s))
  {
    AndLow(s, j);
    AndLow(Minus(low + l + 1, s), j);
    Enough(j);
    hide Bitwise;
    Pow2Add(j, low + l + 1 - j);
    ModMod(0 - s, Pow2(j), Pow2(low + l + 1 - j));
    NegatedMod(s, l + 1);
  }

  lemma {:induction false} Enough(j: nat)
    ensures j < Pow2(j)
  {
    if j > 0 { Enough(j - 1); }
  }

  lemma ModMod(v: int, p: int, q: int)
    requires p > 0 && q > 0
    ensures p * q > 0 && v % (p * q) % p == v % p
  {
    MulApart(q, 0, p);
    var k, r := v / (p * q), v % (p * q);
    assert v == k * (p * q) + r;
    assert k * (p * q) == (k * q) * p;
    AddMultiple(r, k * q, p);
  }

  function Opposite(n: nat, i: nat): nat
    requires i < n
  {
    if i == 0 then 0 else n - i
  }

  lemma NegatedMod(s: int, n: int)
    requires n > 0
    ensures (0 - s) % n == if s % n == 0 then 0 else n - s % n
  {
    var q, r := s / n, s % n;
    assert s == q * n + r;
    if r == 0 {
      assert 0 - s == (0 - q) * n;
      DivUnique(0 - s, n, 0 - q, 0);
    } else {
      assert 0 - s == (0 - q - 1) * n + (n - r);
      DivUnique(0 - s, n, 0 - q - 1, n - r);
    }
  }

  /** The two pieces of a rotate inside the word, joined and cut. */
  lemma RotatePieces(low: nat, n: nat, D: nat, right: nat, left: nat)
    requires n > 0 && Operand(low, n, D) && right < n && left == Opposite(n, right)
    ensures var x, y := Shr(D, right), Shl(low + n, D, left);
            var R := Bitwise(AND, Bitwise(OR, x, y), Mask(low, n));
            && R == Bitwise(AND, Bitwise(OR, y, x), Mask(low, n))
            && Shr(R, low) == RotR(n, Shr(D, low), right)
            && Negative(low + n, R) == Top(n, Shr(R, low)) && (R == 0 <==> Shr(R, low) == 0)
  {
    hide Bitwise, Mask, Shr, Shl, Negative, RotR;
    var d := OperandIs(low, n, D);
    var x, y := Shr(D, right), Shl(low + n, D, left);
    OrCommutes(x, y);
    ShrBound(D, right, Pow2(low + n));
    BitwiseBound(OR, x, y, low + n);
    BitwiseShift(OR, x, y, low);
    ShrWord(low, D, right);
    ShlWord(low, n, d, left);
    WordIs(low, n, y, Shl(n, d, left));
    RotateOperand(n, d, right);
    var _ := CutWord(low, n, Bitwise(OR, x, y));
  }

  lemma NoShift(n: nat, d: nat)
    requires d < Pow2(n)
    ensures Shl(n, d, 0) == d == Shr(d, 0)
  {
    DivUnique(d, Pow2(n), 0, d);
  }

  lemma RotateOperand(n: nat, d: nat, right: nat)
    requires right < n && d < Pow2(n)
    ensures Bitwise(OR, Shr(d, right), Shl(n, d, Opposite(n, right))) == RotR(n, d, right)
  {
    hide Bitwise, Pow2, Shl, Shr, RotR;
    if right == 0 {
      RotREnds(n, d);
      NoShift(n, d);
      OrSame(d);
      NoRotation(n, d);
    } else {
      RotateApart(n, d, right);
    }
  }

  lemma NoRotation(n: nat, d: nat)
    requires n > 0
    ensures Shl(n, d, Opposite(n, 0)) == Shl(n, d, 0)
  {
    hide Shl;
  }

  lemma RotateApart(n: nat, d: nat, right: nat)
    requires 0 < right < n && d < Pow2(n)
    ensures Bitwise(OR, Shr(d, right), Shl(n, d, n - right)) == RotR(n, d, right)
  {
    hide Bitwise, Pow2;
    var p, q := Pow2(right), Pow2(n - right);
    Pow2Add(right, n - right);
    LowPart(d, p, q);
    OrApart(Shl(n, d, n - right), Shr(d, right), n - right);
  }

  lemma LowPart(d: nat, p: nat, q: nat)
    requires p > 0 && q > 0 && d < p * q
    ensures d * q % (p * q) == d % p * q && d % p * q % q == 0 && d / p < q
  {
    ScaleMod(d, p, q);
    DivUnique(d % p * q, q, d % p, 0);
    DivBelow(d, p, q);
  }

  // ---- ROL

  method RolRef(S: int, D: nat, sr0: Sr, low: nat, l: nat) returns (R: nat, sr: Sr)
    requires Operand(low, l + 1, D)
    ensures Outcome(Shr(R, low), sr) == Shifted(ROL, l + 1, Shr(D, low), sr0, Count(low, S))
  {
    hide Shl, Shr, Steps, Pow2, Bitwise, Negative;
    ghost var d := OperandIs(low, l + 1, D);
    R := D;
    sr := sr0.(c := false, v := false);
    ghost var k, r := Count(low, S), Start(ROL, d, sr0);
    FirstSteps(ROL, l + 1, r);
    var cnt := Count(low, S);
    while cnt > 0
      invariant cnt <= k
      invariant var r' := Steps(ROL, l + 1, r, k - cnt);
                r'.d < Pow2(l + 1) && R == r'.d * Pow2(low) && (r'.x, r'.c, r'.v) == (sr.x, sr.c, sr.v)
    {
      RolTurn(low, l + 1, r, k - cnt, R);
      sr := sr.(c := Negative(low + l + 1, R));
      R := Bitwise(OR, Shl(low + l + 1, R, 1), Shl(low + l + 1, AsInt(sr.c), low));
      cnt := cnt - 1;
    }
    WordIs(low, l + 1, R, Steps(ROL, l + 1, r, k).d);
    sr := sr.(z := R == 0, n := Negative(low + l + 1, R));
  }

  lemma RolTurn(low: nat, n: nat, r: Reg, k: nat, R: nat)
    requires n > 0 && Steps(ROL, n, r, k).d < Pow2(n) && R == Steps(ROL, n, r, k).d * Pow2(low)
    ensures var a, b, c := Steps(ROL, n, r, k), Steps(ROL, n, r, k + 1), Negative(low + n, R);
            && b.d < Pow2(n) && b.x == a.x && b.c == c && b.v == a.v
            && Bitwise(OR, Shl(low + n, R, 1), Shl(low + n, AsInt(c), low)) == b.d * Pow2(low)
  {
    hide Bitwise, Negative, Shl;
    var a := Steps(ROL, n, r, k);
    StepBound(ROL, n, a);
    WordIs(low, n, R, a.d);
    ShlWord(low, n, a.d, 1);
    ShlOne(n, a.d);
    BitAt(low + n, Negative(low + n, R), low);
    OrScaled(low, Shl(n, a.d, 1), Negative(low + n, R));
  }

  lemma ShlOne(n: nat, d: nat)
    requires n > 0 && d < Pow2(n)
    ensures Shl(n, d, 1) == 2 * d % Pow2(n) && Shl(n, d, 1) % 2 == 0
  {
    hide Pow2;
    Pow2Double(n);
    EvenDouble(d, Pow2(n - 1));
  }

  lemma OrScaled(low: nat, a: nat, b: bool)
    requires a % 2 == 0
    ensures Bitwise(OR, a * Pow2(low), AsInt(b) * Pow2(low)) == (a + AsInt(b)) * Pow2(low)
  {
    hide Bitwise;
    var p := Pow2(low);
    assert a == 2 * (a / 2);
    assert a * p == (a / 2) * (2 * p) by { DoubleMul(a / 2, p); SwapFactors(2, a / 2, p); }
    DivUnique(a * p, 2 * p, a / 2, 0);
    assert AsInt(b) * p < 2 * p;
    OrApart(a * p, AsInt(b) * p, low + 1);
    Distribute(a, AsInt(b), 0, p);
  }

  method RolOpt(S: int, D: nat, sr0: Sr, low: nat, l: nat, ghost j: nat) returns (R: nat, sr: Sr)
    requires Operand(low, l + 1, D) && l + 1 == Pow2(j)
    ensures Outcome(Shr(R, low), sr) == Shifted(ROL, l + 1, Shr(D, low), sr0, Count(low, S))
  {
    hide Bitwise, Mask, Shr, Shl, Steps, Negative, Pow2, RotR;
    ghost var d := OperandIs(low, l + 1, D);
    ghost var r := Start(ROL, d, sr0);
    var ccr := sr0.And(SR_X);
    R := D;
    var s := Count(low, S);
    RolClosed(l + 1, r, s);
    FirstSteps(ROL, l + 1, r);
    if s != 0 {
      RotateAmounts(low, l, j, s);
      RotREnds(l + 1, d);
      var left, right := Bitwise(AND, s, l), Bitwise(AND, Minus(low + l + 1, s), l);
      RotatePieces(low, l + 1, D, right, left);
      R := Bitwise(AND, Bitwise(OR, Shl(low + l + 1, R, left), Shr(R, right)), Mask(low, l + 1));
      ccr := ccr.Or(Masked(Shr(R, low) % 2 == 1, SR_C));
    } else {
      WordIs(low, l + 1, R, d);
    }
    ccr := ccr.Or(SignAndZero(low + l + 1, R));
    sr := ccr;
  }

  // ---- ROXR

  method RrxRef(S: int, D: nat, sr0: Sr, low: nat, l: nat) returns (R: nat, sr: Sr)
    requires Operand(low, l + 1, D)
    ensures Outcome(Shr(R, low), sr) == Shifted(ROXR, l + 1, Shr(D, low), sr0, Count(low, S))
  {
    hide Shl, Steps, Pow2, Bitwise, RightIn;
    ghost var d := OperandIs(low, l + 1, D);
    R := Shr(D, low);
    sr := sr0.(v := false, c := sr0.x);
    ghost var k, r := Count(low, S), Start(ROXR, d, sr0);
    FirstSteps(ROXR, l + 1, r);
    var cnt := Count(low, S);
    while cnt > 0
      invariant cnt <= k && R < Pow2(l + 1) && Reg(R, sr.x, sr.c, sr.v) == Steps(ROXR, l + 1, r, k - cnt)
    {
      RightTurn(ROXR, low, l + 1, r, k - cnt, sr.c);
      sr := sr.(x := R % 2 == 1);
      R := Bitwise(OR, R / 2, Shl(low + l + 1, AsInt(sr.c), l));
      sr := sr.(c := sr.x);
      cnt := cnt - 1;
    }
    InWord(low, l + 1, R);
    R := Shl(low + l + 1, R, low);
    sr := sr.(z := R == 0, n := Negative(low + l + 1, R));
  }

  method RrxOpt(S: int, D: nat, sr0: Sr, low: nat, l: nat) returns (R: nat, sr: Sr)
    requires Operand(low, l + 1, D)
    ensures Outcome(Shr(R, low), sr) == Shifted(ROXR, l + 1, Shr(D, low), sr0, Count(low, S))
  {
    hide Bitwise, Mask, Shr, Shl, Steps, Negative, Pow2, RotR, Extended;
    ghost var d := OperandIs(low, l + 1, D);
    ghost var r := Start(ROXR, d, sr0);
    var ccr := sr0.And(SR_X);
    R := D;
    var cnt: int := Count(low, S);
    RoxrClosed(l + 1, r, cnt);
    RotREnds(l + 1 + 1, Extended(l + 1, d, sr0.x));
    if cnt == 0 { FirstSteps(ROXR, l + 1, r); }
    WordIs(low, l + 1, R, d);
    if cnt != 0 {
      ghost var r' := Steps(ROXR, l + 1, r, cnt);
      cnt := cnt % (l + 2);
      if cnt == 0 { ExtendedOnce(l + 1, r'.d, r'.x, d, sr0.x); }
      cnt := cnt - 1;
      if cnt >= 0 {
        RoxrFast(low, l + 1, D, sr0.x, cnt, r');
        R := Shr(R, cnt);
        var c, x := ccr.x, Shr(R, low) % 2 == 1;
        ccr := Masked(x, SR_X);
        R := Shr(R, 1);
        R := Bitwise(OR, R, Shl(low + l + 1, AsInt(c), low + l - cnt));
        var E := Shl(low + l + 1, D, 1);
        E := Shl(low + l + 1, E, l - cnt);
        R := Bitwise(AND, Bitwise(OR, R, E), Mask(low, l + 1));
      }
    }
    ccr := ccr.Or(Masked(ccr.x, SR_C));
    ccr := ccr.Or(SignAndZero(low + l + 1, R));
    sr := ccr;
  }

  lemma ExtendedOnce(n: nat, d: nat, x: bool, d': nat, x': bool)
    requires n > 0 && d < Pow2(n) && d' < Pow2(n) && Extended(n, d, x) == Extended(n, d', x')
    ensures d == d' && x == x'
  {}

  /** The three pieces of a rotate through X to the right, inside the word. */
  lemma RoxrFast(low: nat, n: nat, D: nat, x: bool, cnt: nat, r': Reg)
    requires n > 0 && Operand(low, n, D) && cnt < n && r'.d < Pow2(n) && Shr(D, low) < Pow2(n)
    requires Extended(n, r'.d, r'.x) == RotR(n + 1, Extended(n, Shr(D, low), x), cnt + 1)
    ensures var R1 := Bitwise(OR, Shr(Shr(D, cnt), 1), Shl(low + n, AsInt(x), low + n - 1 - cnt));
            var E := Shl(low + n, Shl(low + n, D, 1), n - 1 - cnt);
            var R := Bitwise(AND, Bitwise(OR, R1, E), Mask(low, n));
            && r'.x == (Shr(Shr(D, cnt), low) % 2 == 1)
            && Shr(R, low) == r'.d && Negative(low + n, R) == Top(n, r'.d) && (R == 0 <==> r'.d == 0)
  {
    hide Bitwise, Mask, Shr, Shl, Negative, RotR, Extended, Pow2, AsInt, Operand, Top;
    var d, e := Shr(D, low), cnt + 1;
    PiecesInWord(low, n, D, x, e);
    ShrWord(low, D, cnt);
    var a, b, c := Shr(D, e), Shl(low + n, AsInt(x), low + n - e), Shl(low + n, D, n + 1 - e);
    ShrTwice(D, cnt, 1);
    ShlTwice(low + n, D, 1, n - e);
    BitwiseBound(OR, a, b, low + n);
    BitwiseBound(OR, Bitwise(OR, a, b), c, low + n);
    BitwiseShift(OR, a, b, low);
    BitwiseShift(OR, Bitwise(OR, a, b), c, low);
    PiecesJoin(n, d, x, e, r');
    var _ := CutWord(low, n, Bitwise(OR, Bitwise(OR, a, b), c));
  }

  /** Each piece, seen as an operand. */
  lemma PiecesInWord(low: nat, n: nat, D: nat, x: bool, e: nat)
    requires n > 0 && Operand(low, n, D) && 1 <= e <= n
    ensures var d := Shr(D, low);
            && Shr(D, e) < Pow2(low + n) && Shr(Shr(D, e), low) == Shr(d, e)
            && Shr(Shl(low + n, AsInt(x), low + n - e), low) == AsInt(x) * Pow2(n - e)
            && Shr(Shl(low + n, D, n + 1 - e), low) == Shl(n, d, n + 1 - e)
  {
    hide Shl, Shr;
    var d := OperandIs(low, n, D);
    ShrBound(D, e, Pow2(low + n));
    ShrWord(low, D, e);
    BitAt(low + n, x, low + n - e);
    Pow2Add(n - e, low);
    BitScaled(x, Pow2(n - e), Pow2(low));
    Pow2Grows(n - e, n - 1);
    assert Pow2(n) == 2 * Pow2(n - 1);
    OneBitBelow(x, n, n - e);
    OperandOf(low, n, AsInt(x) * Pow2(n - e));
    ShlWord(low, n, d, n + 1 - e);
    OperandOf(low, n, Shl(n, d, n + 1 - e));
  }

  lemma BitScaled(x: bool, p: nat, q: nat)
    ensures AsInt(x) * (p * q) == (AsInt(x) * p) * q
  {
    if x {} else {}
  }

  lemma OneBitBelow(x: bool, n: nat, j: nat)
    requires j < n
    ensures 0 <= AsInt(x) * Pow2(j) < Pow2(n)
  {
    Pow2Grows(j, n - 1);
    assert Pow2(n) == 2 * Pow2(n - 1);
    if x {} else {}
  }

  /** The pieces have no bit in common, so `|` puts the rotated number together, in any order. */
  lemma PiecesJoin(n: nat, d: nat, x: bool, e: nat, r': Reg)
    requires 1 <= e <= n && d < Pow2(n) && r'.d < Pow2(n)
    requires Extended(n, r'.d, r'.x) == RotR(n + 1, Extended(n, d, x), e)
    ensures var a, b, c := Shr(d, e), AsInt(x) * Pow2(n - e), Shl(n, d, n + 1 - e);
            && r'.x == (Shr(d, e - 1) % 2 == 1)
            && b >= 0 && Bitwise(OR, Bitwise(OR, a, b), c) == Bitwise(OR, a, Bitwise(OR, c, b)) == r'.d
  {
    hide Bitwise, RotR, Shl, Shr;
    var a, b, c := Shr(d, e), AsInt(x) * Pow2(n - e), Shl(n, d, n + 1 - e);
    ExtendedPieces(n, d, x, e);
    ExtendedOnce(n, r'.d, r'.x, a + b + c, Shr(d, e - 1) % 2 == 1);
    assert Pow2(n + 1 - e) == 2 * Pow2(n - e);
    var p := Pow2(n - e);
    hide Pow2;
    DivUnique(b, p, AsInt(x), 0);
    OrApart(b, a, n - e);
    assert a + b < 2 * p by { if x {} else {} }
    OrApart(c, a + b, n + 1 - e);
    assert b < 2 * p by { if x {} else {} }
    OrApart(c, b, n + 1 - e);
    EvenSum(c, b, p, x);
    OrApart(c + b, a, n - e);
  }

  lemma EvenSum(c: nat, b: nat, p: nat, x: bool)
    requires p > 0 && c % (2 * p) == 0 && b == AsInt(x) * p
    ensures (c + b) % p == 0
  {
    var k := c / (2 * p);
    assert c == k * (2 * p) == (2 * k) * p by { DoubleMul(k, p); SwapFactors(2, k, p); }
    assert (2 * k + AsInt(x)) * p == (2 * k) * p + AsInt(x) * p;
    DivUnique(c + b, p, 2 * k + AsInt(x), 0);
  }

  // ---- ROXL

  /** The reference lets the bits that leave the operand run on into the word above it. */
  method RlxRef(S: int, D: nat, sr0: Sr, low: nat, l: nat) returns (R: nat, sr: Sr)
    requires Operand(low, l + 1, D)
    ensures Outcome(Shr(R, low), sr) == Shifted(ROXL, l + 1, Shr(D, low), sr0, Count(low, S))
  {
    hide Shl, Shr, Steps, Pow2, Bitwise, Negative;
    ghost var d := OperandIs(low, l + 1, D);
    R := Shr(D, low);
    sr := sr0.(v := false, c := sr0.x);
    ghost var k, r := Count(low, S), Start(ROXL, d, sr0);
    FirstSteps(ROXL, l + 1, r);
    DivUnique(d, Pow2(l + 1), 0, d);
    var cnt := Count(low, S);
    while cnt > 0
      invariant cnt <= k
      invariant Reg(R % Pow2(l + 1), sr.x, sr.c, sr.v) == Steps(ROXL, l + 1, r, k - cnt)
    {
      RlxTurn(low, l + 1, R, sr.c);
      RlxStep(l + 1, r, k - cnt);
      sr := sr.(x := Shr(R, l) % 2 == 1);
      R := Bitwise(OR, Shl(low + l + 1, R, 1), AsInt(sr.c));
      sr := sr.(c := sr.x);
      cnt := cnt - 1;
    }
    PutBack(low, l + 1, R);
    R := Shl(low + l + 1, R, low);
    WordIs(low, l + 1, R, Steps(ROXL, l + 1, r, k).d);
    sr := sr.(z := R == 0, n := Negative(low + l + 1, R));
  }

  lemma RlxStep(n: nat, r: Reg, k: nat)
    requires n > 0
    ensures var a := Steps(ROXL, n, r, k);
            Steps(ROXL, n, r, k + 1) == Reg(LeftIn(n, a.d, a.c), Top(n, a.d), Top(n, a.d), a.v)
  {}

  lemma RlxTurn(low: nat, n: nat, R: nat, c: bool)
    requires n > 0
    ensures Shr(R, n - 1) % 2 == 1 <==> Top(n, R % Pow2(n))
    ensures Bitwise(OR, Shl(low + n, R, 1), AsInt(c)) % Pow2(n) == LeftIn(n, R % Pow2(n), c)
  {
    hide Bitwise, Pow2;
    Pow2Double(n);
    BitOfWord(R, Pow2(n - 1));
    RlxWord(R, Pow2(n - 1), Pow2(low), c);
    Pow2Add(n, low);
    OrBottom(Shl(low + n, R, 1), c);
  }

  lemma BitOfWord(x: nat, p: nat)
    requires p > 0
    ensures x / p % 2 == 1 <==> x % (2 * p) >= p
  {
    SplitMod(x, p);
    assert x / p % 2 == 0 || x / p % 2 == 1;
  }

  lemma RlxWord(R: nat, p: nat, f: nat, c: bool)
    requires p > 0 && f > 0
    ensures p * f > 0
    ensures var v := R * 2 % (2 * p * f);
            v % 2 == 0 && (v + AsInt(c)) % (2 * p) == 2 * (R % (2 * p)) % (2 * p) + AsInt(c)
  {
    MulApart(p, 0, f);
    var pf, m := p * f, 2 * p;
    var all := m * f;
    assert all == 2 * pf;
    var v := R * 2 % all;
    ModMod(R * 2, m, f);
    ModTwice(R, m);
    EvenWord(R, pf);
    EvenPlusBit(v, p, c);
  }

  lemma EvenWord(R: nat, h: nat)
    requires h > 0
    ensures R * 2 % (2 * h) % 2 == 0
  {
    HalfMod(R * 2, h);
  }

  lemma EvenPlusBit(v: nat, p: nat, c: bool)
    requires p > 0 && v % 2 == 0
    ensures (v + AsInt(c)) % (2 * p) == v % (2 * p) + AsInt(c)
  {
    HalfMod(v, p);
    HalfMod(v + AsInt(c), p);
    assert (v + AsInt(c)) / 2 == v / 2;
  }

  method RlxOpt(S: int, D: nat, sr0: Sr, low: nat, l: nat) returns (R: nat, sr: Sr)
    requires Operand(low, l + 1, D)
    ensures Outcome(Shr(R, low), sr) == Shifted(ROXL, l + 1, Shr(D, low), sr0, Count(low, S))
  {
    hide Bitwise, Mask, Shr, Shl, Steps, Negative, Pow2, RotR, Extended;
    ghost var d := OperandIs(low, l + 1, D);
    ghost var r := Start(ROXL, d, sr0);
    var ccr := sr0.And(SR_X);
    R := D;
    var cnt: int := Count(low, S);
    RoxlClosed(l + 1, r, cnt);
    RotREnds(l + 1 + 1, Extended(l + 1, d, sr0.x));
    if cnt == 0 { FirstSteps(ROXL, l + 1, r); }
    WordIs(low, l + 1, R, d);
    if cnt != 0 {
      ghost var r' := Steps(ROXL, l + 1, r, cnt);
      cnt := cnt % (l + 2);
      if cnt == 0 { ExtendedOnce(l + 1, r'.d, r'.x, d, sr0.x); }
      cnt := cnt - 1;
      if cnt >= 0 {
        RoxlFast(low, l + 1, D, sr0.x, cnt, r');
        var E := Shl(low + l + 1, D, cnt);
        var c, x := ccr.x, Negative(low + l + 1, E);
        ccr := Masked(x, SR_X);
        E := Shl(low + l + 1, E, 1);
        E := Bitwise(OR, E, Shl(low + l + 1, AsInt(c), low + cnt));
        R := Shr(R, 1);
        R := Shr(R, l - cnt);
        R := Bitwise(AND, Bitwise(OR, R, E), Mask(low, l + 1));
      }
    }
    ccr := ccr.Or(Masked(ccr.x, SR_C));
    ccr := ccr.Or(SignAndZero(low + l + 1, R));
    sr := ccr;
  }

  /** The three pieces of a rotate through X to the left, inside the word. */
  lemma RoxlFast(low: nat, n: nat, D: nat, x: bool, cnt: nat, r': Reg)
    requires n > 0 && Operand(low, n, D) && cnt < n && r'.d < Pow2(n) && Shr(D, low) < Pow2(n)
    requires Extended(n, r'.d, r'.x) == RotR(n + 1, Extended(n, Shr(D, low), x), n - cnt)
    ensures var E0 := Shl(low + n, D, cnt);
            var E := Bitwise(OR, Shl(low + n, E0, 1), Shl(low + n, AsInt(x), low + cnt));
            var R := Bitwise(AND, Bitwise(OR, Shr(Shr(D, 1), n - 1 - cnt), E), Mask(low, n));
            && r'.x == Negative(low + n, E0)
            && Shr(R, low) == r'.d && Negative(low + n, R) == Top(n, r'.d) && (R == 0 <==> r'.d == 0)
  {
    hide Bitwise, Mask, Shr, Shl, Negative, RotR, Extended, Pow2, AsInt, Top, Operand;
    var d := OperandIs(low, n, D);
    var e := n - cnt;
    PiecesInWord(low, n, D, x, e);
    var a, b, c := Shr(D, e), Shl(low + n, AsInt(x), low + n - e), Shl(low + n, D, n + 1 - e);
    ShrTwice(D, 1, n - 1 - cnt);
    ShlTwice(low + n, D, cnt, 1);
    BitwiseBound(OR, c, b, low + n);
    BitwiseBound(OR, a, Bitwise(OR, c, b), low + n);
    BitwiseShift(OR, c, b, low);
    BitwiseShift(OR, a, Bitwise(OR, c, b), low);
    PiecesJoin(n, d, x, e, r');
    LeftmostBit(low, n, d, cnt);
    var _ := CutWord(low, n, Bitwise(OR, a, Bitwise(OR, c, b)));
  }

  /** The bit that `cnt` shifts bring to the top. */
  lemma LeftmostBit(low: nat, n: nat, d: nat, cnt: nat)
    requires cnt < n && d < Pow2(n)
    ensures Negative(low + n, Shl(low + n, d * Pow2(low), cnt)) <==> Shr(d, n - cnt - 1) % 2 == 1
  {
    hide Negative;
    hide Shl, Negative, Top, Pow2;
    ShlWord(low, n, d, cnt);
    WordIs(low, n, Shl(low + n, d * Pow2(low), cnt), Shl(n, d, cnt));
    TopOfShl(n, d, cnt);
  }

  lemma TopOfShl(n: nat, d: nat, cnt: nat)
    requires cnt < n && d < Pow2(n)
    ensures Top(n, Shl(n, d, cnt)) <==> Shr(d, n - cnt - 1) % 2 == 1
  {
    hide Pow2;
    Pow2Add(n - cnt - 1, cnt);
    Pow2Double(n);
    BroughtUp(d, Pow2(n - cnt - 1), Pow2(cnt));
  }

  lemma BroughtUp(d: nat, p: nat, q: nat)
    requires p > 0 && q > 0
    ensures p * q > 0 && (d * q % (2 * (p * q)) >= p * q <==> d / p % 2 == 1)
  {
    MulApart(p, 0, q);
    assert 2 * (p * q) == (2 * p) * q;
    ScaleMod(d, 2 * p, q);
    ModDiv(d, p, 2);
    assert p * 2 == 2 * p;
    TopBit(d % (2 * p), p);
    var m := d % (2 * p);
    MulApart(p, m, q);
    if m >= p { assert (m - p) * q >= 0; }
  }
}
