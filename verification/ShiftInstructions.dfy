/** The shift instructions of tools/insttest68.c:480-648, each in its two forms: the reference that
    moves one bit at a time and the closed form without a loop. Both are proved to be the same
    steps, for every width, operand and count. */
module ShiftInstructions {
  import opened Powers
  import opened Words
  import opened StatusRegister
  import opened Shifts
  import opened ShiftWords

  /** The N and Z bits that end every closed form. */
  function SignAndZero(width: nat, R: nat): Sr
    requires width > 0
  {
    Masked(R == 0, SR_Z).Or(Masked(Negative(width, R), SR_N))
  }

  // ---- LSR

  method LsrRef(S: int, D: nat, sr0: Sr, low: nat, l: nat) returns (R: nat, sr: Sr)
    requires Operand(low, l + 1, D)
    ensures Outcome(Shr(R, low), sr) == Shifted(LSR, l + 1, Shr(D, low), sr0, Count(low, S))
  {
    ghost var d := OperandIs(low, l + 1, D);
    R := Shr(D, low);
    sr := sr0.(c := false, v := false);
    ghost var k, r := Count(low, S), Start(LSR, d, sr0);
    var cnt := Count(low, S);
    while cnt > 0
      invariant cnt <= k && Reg(R, sr.x, sr.c, sr.v) == Steps(LSR, l + 1, r, k - cnt)
    {
      sr := sr.(c := R % 2 == 1, x := R % 2 == 1);
      R := R / 2;
      cnt := cnt - 1;
    }
    StepsBound(LSR, l + 1, r, k);
    sr := sr.(z := R == 0, n := Shr(R, l) % 2 == 1);
    TopBit(R, Pow2(l));
    DivUnique(R, Pow2(l + 1), 0, R);
    PutBack(low, l + 1, R);
    R := Shl(low + l + 1, R, low);
  }

  method LsrOpt(S: int, D: nat, sr0: Sr, low: nat, l: nat) returns (R: nat, sr: Sr)
    requires Operand(low, l + 1, D)
    ensures Outcome(Shr(R, low), sr) == Shifted(LSR, l + 1, Shr(D, low), sr0, Count(low, S))
  {
    hide Bitwise, Mask, Shr, Shl, Pow2;
    ghost var d := OperandIs(low, l + 1, D);
    ghost var r := Start(LSR, d, sr0);
    R := D;
    var ccr;
    var s: int := Count(low, S);
    s := s - 1;
    if s < 0 {
      ccr := sr0.And(SR_X);
    } else if s > l {
      R := 0;
      ccr := SR_NONE;
      LsrGone(l + 1, r, s);
    } else {
      R := Shr(R, s);
      ccr := Masked(Shr(R, low) % 2 == 1, SR_X.Or(SR_C));
      R := Bitwise(AND, Shr(R, 1), Mask(low, l + 1));
      LsrFast(low, l + 1, D, r, s);
    }
    ccr := ccr.Or(SignAndZero(low + l + 1, R));
    sr := ccr;
    ZeroWord(low, l + 1);
  }

  lemma ZeroWord(low: nat, n: nat)
    requires n > 0
    ensures Shr(0, low) == 0 && !Negative(low + n, 0) && !Top(n, 0)
  {
    DivUnique(0, Pow2(low), 0, 0);
  }

  lemma LsrGone(n: nat, r: Reg, s: nat)
    requires n > 0 && r.d < Pow2(n) && s >= n && !r.v
    ensures Steps(LSR, n, r, s + 1) == Reg(0, false, false, false)
  {
    LsrClosed(n, r, s);
    Pow2Add(n, s - n);
    assert Pow2(n) * Pow2(s - n) >= Pow2(n) by { MulApart(Pow2(s - n), 0, Pow2(n)); }
    DivUnique(r.d, Pow2(s), 0, r.d);
  }

  /** All but the last step as one shift of the word. */
  lemma LsrFast(low: nat, n: nat, D: nat, r: Reg, s: nat)
    requires n > 0 && Operand(low, n, D) && r.d == Shr(D, low) && r.d < Pow2(n) && !r.v
    ensures var r', R := Steps(LSR, n, r, s + 1), Bitwise(AND, Shr(Shr(D, s), 1), Mask(low, n));
            && r'.c == r'.x == (Shr(Shr(D, s), low) % 2 == 1) && !r'.v
            && Shr(R, low) == r'.d && Negative(low + n, R) == Top(n, r'.d) && (R == 0 <==> r'.d == 0)
  {
    hide Bitwise, Mask, Pow2;
    LsrClosed(n, r, s);
    LsrClosed(n, r, s + 1);
    ShrWord(low, D, s);
    ShrTwice(D, s, 1);
    ShrWord(low, D, s + 1);
    ShrBound(D, s + 1, Pow2(low + n));
    var _ := CutWord(low, n, Shr(Shr(D, s), 1));
  }

  // ---- ASR

  method AsrRef(S: int, D: nat, sr0: Sr, low: nat, l: nat) returns (R: nat, sr: Sr)
    requires Operand(low, l + 1, D)
    ensures Outcome(Shr(R, low), sr) == Shifted(ASR, l + 1, Shr(D, low), sr0, Count(low, S))
  {
    hide Shl, Shr, Steps, Signed, Pow2, Negative, Step, Operand;
    ghost var d := OperandIs(low, l + 1, D);
    SignedWord(low, l + 1, D);
    var sR := Signed(low + l + 1, D) / Pow2(low);
    sr := sr0.(c := false, v := false);
    ghost var k, r := Count(low, S), Start(ASR, d, sr0);
    FirstSteps(ASR, l + 1, r);
    var cnt := Count(low, S);
    while cnt > 0
      invariant cnt <= k
      invariant var r' := Steps(ASR, l + 1, r, k - cnt);
                r'.d < Pow2(l + 1) && Signed(l + 1, r'.d) == sR && (r'.x, r'.c, r'.v) == (sr.x, sr.c, sr.v)
    {
      AsrTurn(l + 1, r, k - cnt);
      sr := sr.(c := sR % 2 == 1, x := sR % 2 == 1);
      sR := sR / 2;
      cnt := cnt - 1;
    }
    SignedBits(l + 1, Steps(ASR, l + 1, r, k).d);
    sr := sr.(z := sR == 0, n := sR / Pow2(l) % 2 == 1);
    PutBack(low, l + 1, sR);
    R := Shl(low + l + 1, sR, low);
  }

  lemma FirstSteps(op: Op, n: nat, r: Reg)
    requires n > 0
    ensures Steps(op, n, r, 0) == r
  {}

  lemma AsrTurn(n: nat, r: Reg, k: nat)
    requires n > 0 && Steps(ASR, n, r, k).d < Pow2(n)
    ensures var a, b := Steps(ASR, n, r, k), Steps(ASR, n, r, k + 1);
            && b.d < Pow2(n) && Signed(n, b.d) == Signed(n, a.d) / 2
            && b.x == b.c == (Signed(n, a.d) % 2 == 1) && b.v == a.v
  {
    var a := Steps(ASR, n, r, k);
    StepBound(ASR, n, a);
    AsrStep(n, a.d);
    assert Pow2(n) == 2 * Pow2(n - 1);
  }

  /** The signed value of a word is that of its operand, scaled. */
  lemma SignedWord(low: nat, n: nat, D: nat)
    requires n > 0 && Operand(low, n, D)
    ensures Signed(low + n, D) == Signed(n, Shr(D, low)) * Pow2(low)
    ensures Signed(low + n, D) / Pow2(low) == Signed(n, Shr(D, low))
  {
    hide Pow2;
    var d := OperandIs(low, n, D);
    Pow2Add(n, low);
    SubtractProducts(d, Pow2(n), Pow2(low));
    AddMultiple(0, Signed(n, d), Pow2(low));
    DivUnique(0, Pow2(low), 0, 0);
  }

  lemma SubtractProducts(a: int, b: int, p: int)
    ensures (a - b) * p == a * p - b * p
  {}

  /** The operand, its sign and its being zero, from the signed value. */
  lemma SignedBits(n: nat, d: nat)
    requires n > 0 && d < Pow2(n)
    ensures var s := Signed(n, d);
            s % Pow2(n) == d && (s == 0 <==> d == 0) && (s / Pow2(n - 1) % 2 == 1 <==> Top(n, d))
  {
    var s, p := Signed(n, d), Pow2(n - 1);
    assert Pow2(n) == 2 * p;
    DivUnique(s, 2 * p, if d < p then 0 else -1, d);
    DivUnique(s, p, if d < p then 0 else -1, if d < p then s else s + p);
  }

  method AsrOpt(S: int, D: nat, sr0: Sr, low: nat, l: nat) returns (R: nat, sr: Sr)
    requires Operand(low, l + 1, D)
    ensures Outcome(Shr(R, low), sr) == Shifted(ASR, l + 1, Shr(D, low), sr0, Count(low, S))
  {
    hide Bitwise, Mask, Shr, Shl, Pow2, Signed;
    ghost var d := OperandIs(low, l + 1, D);
    ghost var r := Start(ASR, d, sr0);
    R := D;
    var ccr;
    var s: int := Count(low, S);
    s := s - 1;
    if s < 0 {
      ccr := sr0.And(SR_X);
    } else if s > l {
      // R >> SIGN_BIT, all ones or zero
      R := if Negative(low + l + 1, R) then Pow2(low + l + 1) - 1 else 0;
      ccr := Masked(R != 0, SR_C.Or(SR_X));
      AsrGone(low, l + 1, D, r, s);
    } else {
      var sR := Signed(low + l + 1, R) / Pow2(s);
      ccr := Masked(sR / Pow2(low) % 2 == 1, SR_X.Or(SR_C));
      R := Bitwise(AND, sR / 2 % Pow2(low + l + 1), Mask(low, l + 1));
      AsrFast(low, l + 1, D, r, s);
    }
    ccr := ccr.Or(SignAndZero(low + l + 1, R));
    sr := ccr;
  }

  lemma AsrGone(low: nat, n: nat, D: nat, r: Reg, s: nat)
    requires n > 0 && Operand(low, n, D) && r.d == Shr(D, low) && r.d < Pow2(n) && !r.v && s >= n
    ensures var r', b := Steps(ASR, n, r, s + 1), Negative(low + n, D);
            var R := if b then Pow2(low + n) - 1 else 0;
            && r'.c == r'.x == b && !r'.v && Pow2(low + n) > 1
            && Shr(R, low) == r'.d && Negative(low + n, R) == Top(n, r'.d) && (R == 0 <==> r'.d == 0)
  {
    var d := OperandIs(low, n, D);
    AsrClosed(n, r, s);
    AsrClosed(n, r, s + 1);
    AllSign(n, d, s);
    AllSign(n, d, s + 1);
    AsrTurn(n, r, s);
    AllOnes(low, n);
    ZeroWord(low, n);
  }

  lemma AllOnes(low: nat, n: nat)
    requires n > 0
    ensures Pow2(low + n) > 1 && Shr(Pow2(low + n) - 1, low) == Pow2(n) - 1
    ensures Negative(low + n, Pow2(low + n) - 1) && Top(n, Pow2(n) - 1)
  {
    var p := Pow2(low);
    Pow2Add(n, low);
    assert Pow2(low + n) == Pow2(n + low) == 2 * Pow2(low + n - 1);
    assert (Pow2(n) - 1) * p == Pow2(n) * p - p;
    DivUnique(Pow2(low + n) - 1, p, Pow2(n) - 1, p - 1);
    assert Pow2(n) == 2 * Pow2(n - 1);
  }

  /** Far enough right, only the sign is left. */
  lemma AllSign(n: nat, d: nat, s: nat)
    requires n > 0 && d < Pow2(n) && s >= n
    ensures Signed(n, d) / Pow2(s) == if Top(n, d) then -1 else 0
  {
    Pow2Grows(n, s);
    assert Pow2(n) == 2 * Pow2(n - 1);
    hide Pow2;
    var v := Signed(n, d);
    DivUnique(v, Pow2(s), if Top(n, d) then -1 else 0, if Top(n, d) then v + Pow2(s) else v);
  }

  lemma AsrFast(low: nat, n: nat, D: nat, r: Reg, s: nat)
    requires n > 0 && Operand(low, n, D) && r.d == Shr(D, low) && r.d < Pow2(n) && !r.v
    ensures var r', sR := Steps(ASR, n, r, s + 1), Signed(low + n, D) / Pow2(s);
            var R := Bitwise(AND, sR / 2 % Pow2(low + n), Mask(low, n));
            && r'.c == r'.x == (sR / Pow2(low) % 2 == 1) && !r'.v
            && Shr(R, low) == r'.d && Negative(low + n, R) == Top(n, r'.d) && (R == 0 <==> r'.d == 0)
  {
    hide Bitwise, Mask, Signed;
    AsrClosed(n, r, s);
    AsrClosed(n, r, s + 1);
    AsrTurn(n, r, s);
    SignedWord(low, n, D);
    var v := Signed(low + n, D);
    DivCommutes(v, Pow2(s), Pow2(low));
    DivPow2(v, s, 1);
    assert Pow2(1) == 2;
    DivCommutes(v, Pow2(s + 1), Pow2(low));
    SignedBits(n, Steps(ASR, n, r, s + 1).d);
    Pow2Add(low, n);
    ModDiv(v / Pow2(s + 1), Pow2(low), Pow2(n));
    var _ := CutWord(low, n, v / Pow2(s) / 2 % Pow2(low + n));
  }

  // ---- LSL

  method LslRef(S: int, D: nat, sr0: Sr, low: nat, l: nat) returns (R: nat, sr: Sr)
    requires Operand(low, l + 1, D)
    ensures Outcome(Shr(R, low), sr) == Shifted(LSL, l + 1, Shr(D, low), sr0, Count(low, S))
  {
    hide Shl, Shr, Steps, Negative, Pow2, Step;
    ghost var d := OperandIs(low, l + 1, D);
    R := D;
    sr := sr0.(c := false, v := false);
    ghost var k, r := Count(low, S), Start(LSL, d, sr0);
    FirstSteps(LSL, l + 1, r);
    var cnt := Count(low, S);
    while cnt > 0
      invariant cnt <= k
      invariant var r' := Steps(LSL, l + 1, r, k - cnt);
                r'.d < Pow2(l + 1) && R == r'.d * Pow2(low) && (r'.x, r'.c, r'.v) == (sr.x, sr.c, sr.v)
    {
      LeftTurn(LSL, low, l + 1, r, k - cnt, R);
      sr := sr.(c := Negative(low + l + 1, R), x := Negative(low + l + 1, R));
      R := Shl(low + l + 1, R, 1);
      cnt := cnt - 1;
    }
    WordIs(low, l + 1, R, Steps(LSL, l + 1, r, k).d);
    sr := sr.(z := R == 0, n := Negative(low + l + 1, R));
  }

  lemma LeftTurn(op: Op, low: nat, n: nat, r: Reg, k: nat, R: nat)
    requires n > 0 && Steps(op, n, r, k).d < Pow2(n) && R == Steps(op, n, r, k).d * Pow2(low) && op in {LSL, ASL}
    ensures var a, b, R' := Steps(op, n, r, k), Steps(op, n, r, k + 1), Shl(low + n, R, 1);
            && b.d < Pow2(n) && R' == b.d * Pow2(low) && b.x == b.c == Negative(low + n, R)
            && b.v == if op == LSL then a.v else a.v || b.c != Negative(low + n, R')
  {
    var a := Steps(op, n, r, k);
    StepBound(op, n, a);
    WordIs(low, n, R, a.d);
    ShlWord(low, n, a.d, 1);
    assert Pow2(1) == 2;
    WordIs(low, n, Shl(low + n, R, 1), Steps(op, n, r, k + 1).d);
  }

  method LslOpt(S: int, D: nat, sr0: Sr, low: nat, l: nat) returns (R: nat, sr: Sr)
    requires Operand(low, l + 1, D)
    ensures Outcome(Shr(R, low), sr) == Shifted(LSL, l + 1, Shr(D, low), sr0, Count(low, S))
  {
    hide Shl, Shr, Steps, Negative, Pow2, Step;
    ghost var d := OperandIs(low, l + 1, D);
    ghost var r := Start(LSL, d, sr0);
    FirstSteps(LSL, l + 1, r);
    R := D;
    var ccr;
    var s: int := Count(low, S);
    s := s - 1;
    if s < 0 {
      ccr := sr0.And(SR_X);
      WordIs(low, l + 1, R, d);
    } else if s >= low + l + 1 {
      R := 0;
      ccr := SR_NONE;
      LslGone(l + 1, r, s);
      ZeroWord(low, l + 1);
    } else {
      R := Shl(low + l + 1, R, s);
      ccr := Masked(Negative(low + l + 1, R), SR_X.Or(SR_C));
      LslFast(LSL, low, l + 1, D, r, s);
      R := Shl(low + l + 1, R, 1);
      WordIs(low, l + 1, R, Steps(LSL, l + 1, r, s + 1).d);
    }
    ccr := ccr.Or(SignAndZero(low + l + 1, R));
    sr := ccr;
  }

  lemma LslGone(n: nat, r: Reg, s: nat)
    requires n > 0 && r.d < Pow2(n) && s >= n && !r.v
    ensures Steps(LSL, n, r, s + 1) == Reg(0, false, false, false)
  {
    LslClosed(LSL, n, r, s);
    ShiftedOut(n, r.d, s);
    DivUnique(0, Pow2(n), 0, 0);
  }

  lemma ShiftedOut(n: nat, d: nat, s: nat)
    requires s >= n
    ensures Shl(n, d, s) == 0
  {
    Pow2Add(s - n, n);
    Reassociate(d, Pow2(s - n), Pow2(n));
    DivUnique(d * Pow2(s), Pow2(n), d * Pow2(s - n), 0);
  }

  /** All but the last step as one shift of the word. */
  lemma LslFast(op: Op, low: nat, n: nat, D: nat, r: Reg, s: nat)
    requires n > 0 && Operand(low, n, D) && r.d == Shr(D, low) && r.d < Pow2(n) && op in {LSL, ASL}
    ensures var r', R := Steps(op, n, r, s + 1), Shl(low + n, D, s);
            && r'.c == r'.x == Negative(low + n, R) && (op == LSL ==> r'.v == r.v)
            && Shl(low + n, R, 1) == r'.d * Pow2(low) && r'.d < Pow2(n)
  {
    hide Shl, Step, Negative;
    var d := OperandIs(low, n, D);
    LslClosed(op, n, r, s);
    ShlWord(low, n, d, s);
    LeftTurn(op, low, n, r, s, Shl(low + n, D, s));
  }

  // ---- ASL

  method AslRef(S: int, D: nat, sr0: Sr, low: nat, l: nat) returns (R: nat, sr: Sr)
    requires Operand(low, l + 1, D)
    ensures Outcome(Shr(R, low), sr) == Shifted(ASL, l + 1, Shr(D, low), sr0, Count(low, S))
  {
    hide Shl, Shr, Steps, Negative, Pow2, Step;
    ghost var d := OperandIs(low, l + 1, D);
    R := D;
    sr := sr0.(c := false, v := false);
    ghost var k, r := Count(low, S), Start(ASL, d, sr0);
    FirstSteps(ASL, l + 1, r);
    var cnt := Count(low, S);
    while cnt > 0
      invariant cnt <= k
      invariant var r' := Steps(ASL, l + 1, r, k - cnt);
                r'.d < Pow2(l + 1) && R == r'.d * Pow2(low) && (r'.x, r'.c, r'.v) == (sr.x, sr.c, sr.v)
    {
      LeftTurn(ASL, low, l + 1, r, k - cnt, R);
      sr := sr.(c := Negative(low + l + 1, R), x := Negative(low + l + 1, R));
      R := Shl(low + l + 1, R, 1);
      sr := sr.(v := sr.v || sr.c != Negative(low + l + 1, R));
      cnt := cnt - 1;
    }
    WordIs(low, l + 1, R, Steps(ASL, l + 1, r, k).d);
    sr := sr.(z := R == 0, n := Negative(low + l + 1, R));
  }

  method AslOpt(S: int, D: nat, sr0: Sr, low: nat, l: nat) returns (R: nat, sr: Sr)
    requires Operand(low, l + 1, D)
    ensures Outcome(Shr(R, low), sr) == Shifted(ASL, l + 1, Shr(D, low), sr0, Count(low, S))
  {
    hide Shl, Shr, Steps, Negative, Pow2, Step, Signed;
    ghost var d := OperandIs(low, l + 1, D);
    ghost var r := Start(ASL, d, sr0);
    FirstSteps(ASL, l + 1, r);
    R := D;
    var ccr;
    var s: int := Count(low, S);
    s := s - 1;
    if s < 0 {
      ccr := sr0.And(SR_X);
      WordIs(low, l + 1, R, d);
    } else if s > l {
      ccr := Masked(R != 0, SR_V);
      R := 0;
      AslGone(l + 1, r, s);
      ZeroWord(low, l + 1);
    } else {
      R := Shl(low + l + 1, R, s);
      ccr := Masked(Negative(low + l + 1, R), SR_X.Or(SR_C));
      LslFast(ASL, low, l + 1, D, r, s);
      R := Shl(low + l + 1, R, 1);
      ccr := ccr.Or(Masked(Signed(low + l + 1, D) != Signed(low + l + 1, R) / 2 / Pow2(s), SR_V));
      WordIs(low, l + 1, R, Steps(ASL, l + 1, r, s + 1).d);
      AslUndone(low, l + 1, D, r, s, R);
    }
    ccr := ccr.Or(SignAndZero(low + l + 1, R));
    sr := ccr;
  }

  lemma AslGone(n: nat, r: Reg, s: nat)
    requires n > 0 && r.d < Pow2(n) && s >= n && !r.v
    ensures Steps(ASL, n, r, s + 1) == Reg(0, false, false, r.d != 0)
  {
    LslClosed(ASL, n, r, s);
    ShiftedOut(n, r.d, s);
    DivUnique(0, Pow2(n), 0, 0);
    AslOverflow(n, r, s + 1);
    AslFarOut(n, r.d, s + 1);
  }

  lemma AslFarOut(n: nat, d: nat, k: nat)
    requires n > 0 && d < Pow2(n) && k >= n
    ensures Fits(n, Signed(n, d) * Pow2(k)) <==> d == 0
  {
    Pow2Grows(n, k);
    FarOut(Signed(n, d), Pow2(k), Pow2(n));
    assert Pow2(n) == 2 * Pow2(n - 1);
  }

  lemma FarOut(v: int, p: int, m: nat)
    requires p >= m
    ensures v > 0 ==> v * p >= m
    ensures v < 0 ==> v * p <= 0 - m
    ensures v == 0 ==> v * p == 0
  {
    if v > 0 { assert (v - 1) * p >= 0; }
    if v < 0 { assert (-1 - v) * p >= 0; }
  }

  /** Shifting back gives the operand exactly when nothing was lost. */
  lemma AslUndone(low: nat, n: nat, D: nat, r: Reg, s: nat, R: nat)
    requires n > 0 && Operand(low, n, D) && r.d == Shr(D, low) && r.d < Pow2(n) && !r.v && s < n
    requires var r' := Steps(ASL, n, r, s + 1); r'.d < Pow2(n) && R == r'.d * Pow2(low)
    ensures Steps(ASL, n, r, s + 1).v <==> Signed(low + n, D) != Signed(low + n, R) / 2 / Pow2(s)
  {
    hide Step, Shl;
    var r' := Steps(ASL, n, r, s + 1);
    var a, b, k := Signed(n, r.d), Signed(n, r'.d), Pow2(s + 1);
    WordIs(low, n, R, r'.d);
    SignedWord(low, n, D);
    SignedWord(low, n, R);
    DivPow2(Signed(low + n, R), 1, s);
    assert Pow2(1) == 2;
    AslOverflow(n, r, s + 1);
    LslClosed(ASL, n, r, s + 1);
    var q := CongruentSigned(n, r.d, r'.d, s + 1);
    Pow2Add(n - (s + 1), s + 1);
    Cancel(a, b, k, Pow2(low), Pow2(n - (s + 1)), q);
  }

  lemma CongruentSigned(n: nat, d: nat, d': nat, k: nat) returns (q: int)
    requires n > 0 && d < Pow2(n) && d' == Shl(n, d, k)
    ensures Signed(n, d') == Signed(n, d) * Pow2(k) + q * Pow2(n)
  {
    hide Pow2;
    q := Congruent(d, if d < Pow2(n - 1) then 0 else 1, d', if d' < Pow2(n - 1) then 0 else 1, Pow2(k), Pow2(n));
  }

  lemma Congruent(d: int, t: int, d': int, t': int, p: int, m: int) returns (q: int)
    requires m > 0 && d' == d * p % m && 0 <= t <= 1 && 0 <= t' <= 1
    ensures (if t' == 0 then d' else d' - m) == (if t == 0 then d else d - m) * p + q * m
  {
    var q0 := d * p / m;
    assert d * p == q0 * m + d';
    q := (if t == 0 then 0 else p) - q0 - t';
    if t == 1 { assert (d - m) * p == d * p - p * m; }
    SubtractProducts(if t == 0 then 0 else p, q0 + t', m);
    Distribute(q0, t', 0, m);
  }

  /** `b` is `a * k` up to a multiple of `f * k`: dividing by `k` gives `a` back only when they
      are the same. */
  lemma Cancel(a: int, b: int, k: nat, p: nat, f: nat, q: int)
    requires k > 0 && p > 0 && f > 0 && b == a * k + q * (f * k)
    ensures b == a * k <==> a * p == b * p / k
  {
    assert b == (a + q * f) * k;
    assert b * p == ((a + q * f) * p) * k;
    DivUnique(b * p, k, (a + q * f) * p, 0);
    if b == a * k {
      MulApart(a + q * f, a, k);
      MulApart(a, a + q * f, k);
    } else {
      MulApart(a + q * f, a, p);
      MulApart(a, a + q * f, p);
    }
  }
}
