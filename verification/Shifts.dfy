/** The shifts and rotates of the 68000 one bit at a time, at any operand width, and what many
    steps amount to. */
module Shifts {
  import opened Powers
  import opened Words
  import opened StatusRegister

  datatype Op = LSR | ASR | LSL | ASL | ROR | ROL | ROXR | ROXL

  /** The operand and the condition codes that a step changes. */
  datatype Reg = Reg(d: nat, x: bool, c: bool, v: bool)

  /** The top bit of an operand of `n` bits. */
  predicate Top(n: nat, d: nat)
    requires n > 0
  {
    d >= Pow2(n - 1)
  }

  function RightIn(n: nat, d: nat, t: bool): nat
    requires n > 0
  {
    d / 2 + AsInt(t) * Pow2(n - 1)
  }

  function LeftIn(n: nat, d: nat, t: bool): nat {
    2 * d % Pow2(n) + AsInt(t)
  }

  function Step(op: Op, n: nat, r: Reg): Reg
    requires n > 0
  {
    var low, top := r.d % 2 == 1, Top(n, r.d);
    match op
    case LSR => Reg(RightIn(n, r.d, false), low, low, r.v)
    case ASR => Reg(RightIn(n, r.d, top), low, low, r.v)
    case LSL => Reg(LeftIn(n, r.d, false), top, top, r.v)
    case ASL => Reg(LeftIn(n, r.d, false), top, top, r.v || top != Top(n, LeftIn(n, r.d, false)))
    case ROR => Reg(RightIn(n, r.d, low), r.x, low, r.v)
    case ROL => Reg(LeftIn(n, r.d, top), r.x, top, r.v)
    case ROXR => Reg(RightIn(n, r.d, r.c), low, low, r.v)
    case ROXL => Reg(LeftIn(n, r.d, r.c), top, top, r.v)
  }

  function Steps(op: Op, n: nat, r: Reg, k: nat): Reg
    requires n > 0
    decreases k
  {
    if k == 0 then r else Step(op, n, Steps(op, n, r, k - 1))
  }

  /** Before the first step: V is clear, and C too unless the rotate goes through X. */
  function Start(op: Op, d: nat, sr: Sr): Reg {
    Reg(d, sr.x, op in {ROXR, ROXL} && sr.x, false)
  }

  /** The condition codes after the last step. */
  function Finish(n: nat, r: Reg): Sr
    requires n > 0
  {
    Sr(r.c, r.v, r.d == 0, Top(n, r.d), r.x)
  }

  datatype Outcome = Outcome(d: nat, sr: Sr)

  /** An instruction with count `k`. */
  function Shifted(op: Op, n: nat, d: nat, sr: Sr, k: nat): Outcome
    requires n > 0
  {
    var r := Steps(op, n, Start(op, d, sr), k);
    Outcome(r.d, Finish(n, r))
  }

  // ---- Operands stay operands.

  lemma {:induction false} StepsBound(op: Op, n: nat, r: Reg, k: nat)
    requires n > 0 && r.d < Pow2(n)
    ensures Steps(op, n, r, k).d < Pow2(n)
    decreases k
  {
    if k > 0 {
      StepsBound(op, n, r, k - 1);
      StepBound(op, n, Steps(op, n, r, k - 1));
    }
  }

  lemma StepBound(op: Op, n: nat, r: Reg)
    requires n > 0 && r.d < Pow2(n)
    ensures Step(op, n, r).d < Pow2(n)
  {
    hide Pow2, RightIn, LeftIn;
    var top := Top(n, r.d);
    RightBound(n, r.d, false);
    RightBound(n, r.d, true);
    LeftBound(n, r.d, false);
    LeftBound(n, r.d, true);
  }

  lemma RightBound(n: nat, d: nat, t: bool)
    requires n > 0 && d < Pow2(n)
    ensures RightIn(n, d, t) < Pow2(n)
  {
    Pow2Double(n);
    hide Pow2;
    HalfPlus(d, Pow2(n - 1), t);
  }

  lemma HalfPlus(d: nat, h: nat, t: bool)
    requires d < 2 * h
    ensures d / 2 + AsInt(t) * h < 2 * h
  {
    if t {
      assert AsInt(t) * h == h;
    } else {
      assert AsInt(t) * h == 0;
    }
  }

  lemma LeftBound(n: nat, d: nat, t: bool)
    requires n > 0 && d < Pow2(n)
    ensures LeftIn(n, d, t) < Pow2(n)
  {
    Pow2Double(n);
    hide Pow2;
    DoubleMod(d, Pow2(n - 1));
  }

  lemma DoubleMod(d: nat, h: nat)
    requires h > 0 && d < 2 * h
    ensures 2 * d % (2 * h) == if d < h then 2 * d else 2 * d - 2 * h
  {
    DivUnique(2 * d, 2 * h, if d < h then 0 else 1, if d < h then 2 * d else 2 * d - 2 * h);
  }

  // ---- Logical shifts.

  lemma {:induction false} LsrClosed(n: nat, r: Reg, k: nat)
    requires n > 0 && r.d < Pow2(n)
    ensures Steps(LSR, n, r, k).d == Shr(r.d, k) && Steps(LSR, n, r, k).v == r.v
    decreases k
  {
    if k > 0 {
      LsrClosed(n, r, k - 1);
      DivPow2(r.d, k - 1, 1);
      assert Pow2(1) == 2;
    }
  }

  /** Left shifts, logical or arithmetic. */
  lemma {:induction false} LslClosed(op: Op, n: nat, r: Reg, k: nat)
    requires n > 0 && r.d < Pow2(n) && op in {LSL, ASL}
    ensures Steps(op, n, r, k).d == Shl(n, r.d, k) && (op == LSL ==> Steps(op, n, r, k).v == r.v)
    decreases k
  {
    if k == 0 {
      DivUnique(r.d, Pow2(n), 0, r.d);
    } else {
      LslClosed(op, n, r, k - 1);
      ShlNext(n, r.d, k);
      LslStep(op, n, Steps(op, n, r, k - 1));
      hide Step, Shl;
    }
  }

  lemma LslStep(op: Op, n: nat, r: Reg)
    requires n > 0 && op in {LSL, ASL}
    ensures Step(op, n, r).d == 2 * r.d % Pow2(n) && (op == LSL ==> Step(op, n, r).v == r.v)
  {}

  lemma ShlNext(n: nat, d: int, k: nat)
    requires k > 0
    ensures Shl(n, d, k) == 2 * Shl(n, d, k - 1) % Pow2(n)
  {
    ModTwice(d * Pow2(k - 1), Pow2(n));
    DoubleMul(d, Pow2(k - 1));
  }

  lemma ModTwice(v: int, m: int)
    requires m > 0
    ensures 2 * (v % m) % m == 2 * v % m
  {
    var q, r := v / m, v % m;
    var q', r' := 2 * r / m, 2 * r % m;
    assert v == q * m + r && 2 * r == q' * m + r';
    assert 2 * v == (2 * q + q') * m + r' by { assert (2 * q + q') * m == 2 * (q * m) + q' * m; }
    DivUnique(2 * v, m, 2 * q + q', r');
  }

  // ---- The arithmetic shift right divides the signed value.

  lemma {:induction false} AsrClosed(n: nat, r: Reg, k: nat)
    requires n > 0 && r.d < Pow2(n)
    ensures Steps(ASR, n, r, k).d < Pow2(n) && Steps(ASR, n, r, k).v == r.v
    ensures Signed(n, Steps(ASR, n, r, k).d) == Signed(n, r.d) / Pow2(k)
    decreases k
  {
    StepsBound(ASR, n, r, k);
    if k > 0 {
      AsrClosed(n, r, k - 1);
      DivPow2(Signed(n, r.d), k - 1, 1);
      assert Pow2(1) == 2;
      AsrStep(n, Steps(ASR, n, r, k - 1).d);
    }
  }

  lemma AsrStep(n: nat, d: nat)
    requires n > 0 && d < Pow2(n)
    ensures Signed(n, RightIn(n, d, Top(n, d))) == Signed(n, d) / 2
  {
    if n > 1 {
      assert Pow2(n) == 2 * Pow2(n - 1) == 4 * Pow2(n - 2);
    }
  }

  // ---- The arithmetic shift left: V says that the true product does not fit.

  predicate Fits(n: nat, v: int)
    requires n > 0
  {
    0 - Pow2(n - 1) <= v < Pow2(n - 1)
  }

  /** "The sign changed at some step" is "the signed operand times 2^k is out of range". */
  lemma {:induction false} AslOverflow(n: nat, r: Reg, k: nat)
    requires n > 0 && r.d < Pow2(n) && !r.v
    ensures Steps(ASL, n, r, k).v <==> !Fits(n, Signed(n, r.d) * Pow2(k))
    ensures !Steps(ASL, n, r, k).v ==> Signed(n, Steps(ASL, n, r, k).d) == Signed(n, r.d) * Pow2(k)
    decreases k
  {
    if k > 0 {
      AslOverflow(n, r, k - 1);
      StepsBound(ASL, n, r, k - 1);
      var s, r' := Signed(n, r.d) * Pow2(k - 1), Steps(ASL, n, r, k - 1);
      assert Signed(n, r.d) * Pow2(k) == 2 * s by { DoubleMul(Signed(n, r.d), Pow2(k - 1)); }
      AslStep(n, r'.d);
    }
  }

  lemma AslStep(n: nat, d: nat)
    requires n > 0 && d < Pow2(n)
    ensures Top(n, d) == Top(n, LeftIn(n, d, false)) <==> Fits(n, 2 * Signed(n, d))
    ensures Fits(n, 2 * Signed(n, d)) ==> Signed(n, LeftIn(n, d, false)) == 2 * Signed(n, d)
  {
    DoubleMod(d, Pow2(n - 1));
    assert Pow2(n) == 2 * Pow2(n - 1);
    hide Pow2;
  }

  // ---- Rotates.

  /** `y` of `n` bits rotated right by `j`. */
  function RotR(n: nat, y: nat, j: nat): (z: nat)
    requires j <= n
  {
    Shr(y, j) + y % Pow2(j) * Pow2(n - j)
  }

  lemma RotREnds(n: nat, y: nat)
    requires y < Pow2(n)
    ensures RotR(n, y, 0) == y == RotR(n, y, n)
  {
    DivUnique(y, Pow2(n), 0, y);
  }

  lemma RotRParts(n: nat, y: nat, j: nat)
    requires j < n
    ensures Pow2(n - j) == 2 * Pow2(n - j - 1) && Pow2(n - 1) == Pow2(j) * Pow2(n - j - 1)
    ensures Shr(y, j + 1) == Shr(y, j) / 2 && y % Pow2(j + 1) == Shr(y, j) % 2 * Pow2(j) + y % Pow2(j)
  {
    DivPow2(y, j, 1);
    assert Pow2(1) == 2;
    SplitMod(y, Pow2(j));
    Pow2Add(j, n - j - 1);
  }

  lemma RotRSum(q: nat, m: nat, pj: nat, p: nat, double: nat, all: nat)
    requires double == 2 * p && all == pj * p
    ensures var z := q + m * double; z / 2 + AsInt(z % 2 == 1) * all == q / 2 + (q % 2 * pj + m) * p
  {
    DoubleMul(m, p);
    var t := m * p;
    assert (q + 2 * t) % 2 == q % 2 && (q + 2 * t) / 2 == q / 2 + t;
    if q % 2 == 0 {
      assert (0 * pj + m) * p == m * p;
    } else {
      assert (1 * pj + m) * p == pj * p + m * p;
    }
  }

  lemma RotRIs(n: nat, y: nat, j: nat)
    requires j <= n
    ensures RotR(n, y, j) == Shr(y, j) + y % Pow2(j) * Pow2(n - j)
  {
    hide Pow2, Shr;
  }

  lemma RightInIs(n: nat, z: nat, b: bool)
    requires n > 0
    ensures RightIn(n, z, b) == z / 2 + AsInt(b) * Pow2(n - 1)
  {
    hide Pow2, AsInt;
  }

  /** The lowest bit goes around to the top. */
  lemma RotRStep(n: nat, y: nat, j: nat)
    requires j < n && y < Pow2(n)
    ensures var z := RotR(n, y, j); RotR(n, y, j + 1) == RightIn(n, z, z % 2 == 1)
  {
    hide Pow2, Shr, AsInt, RotR, RightIn;
    RotRParts(n, y, j);
    var z, q, m := RotR(n, y, j), Shr(y, j), y % Pow2(j);
    RotRIs(n, y, j);
    RotRIs(n, y, j + 1);
    RotRSum(q, m, Pow2(j), Pow2(n - j - 1), Pow2(n - j), Pow2(n - 1));
    RightInIs(n, z, z % 2 == 1);
  }

  /** The amount of a rotate to the right by `k` steps. */
  function RightAmount(n: nat, k: nat): (j: nat)
    requires n > 0
    ensures j < n
  {
    k % n
  }

  lemma NextRight(n: nat, k: nat)
    requires n > 0
    ensures RightAmount(n, 0) == 0
    ensures RightAmount(n, k + 1) == if RightAmount(n, k) + 1 == n then 0 else RightAmount(n, k) + 1
  {
    NextMod(k, n);
    DivUnique(0, n, 0, 0);
  }

  /** The steps of a rotate to the right, for a count of any size. */
  lemma {:induction false} RorClosed(n: nat, r: Reg, k: nat)
    requires n > 0 && r.d < Pow2(n)
    ensures Steps(ROR, n, r, k).d == RotR(n, r.d, RightAmount(n, k))
    ensures k > 0 ==> Steps(ROR, n, r, k).c == Top(n, Steps(ROR, n, r, k).d)
    ensures Steps(ROR, n, r, k).x == r.x && Steps(ROR, n, r, k).v == r.v
    decreases k
  {
    hide Step, RotR, RightAmount, RightIn, Pow2, Top;
    RotREnds(n, r.d);
    NextRight(n, if k > 0 then k - 1 else 0);
    if k > 0 {
      RorClosed(n, r, k - 1);
      StepsBound(ROR, n, r, k - 1);
      RotRStep(n, r.d, RightAmount(n, k - 1));
      RorStep(n, Steps(ROR, n, r, k - 1));
    }
  }

  lemma RorStep(n: nat, r: Reg)
    requires n > 0 && r.d < Pow2(n)
    ensures var r' := Step(ROR, n, r);
            r'.d == RightIn(n, r.d, r.d % 2 == 1) && r'.c == Top(n, r'.d) && r'.x == r.x && r'.v == r.v
  {
    assert Pow2(n) == 2 * Pow2(n - 1);
  }

  lemma NextMod(k: nat, n: nat)
    requires n > 0
    ensures (k + 1) % n == if k % n + 1 == n then 0 else k % n + 1
  {
    var q, r := k / n, k % n;
    assert k == q * n + r;
    if r + 1 == n {
      assert (q + 1) * n == q * n + n;
      DivUnique(k + 1, n, q + 1, 0);
    } else {
      DivUnique(k + 1, n, q, r + 1);
    }
  }

  /** A step to the left undoes a step to the right. */
  lemma LeftUndoesRight(n: nat, z: nat)
    requires n > 0 && z < Pow2(n)
    ensures var y := RightIn(n, z, z % 2 == 1); y < Pow2(n) && LeftIn(n, y, Top(n, y)) == z
  {
    var h := Pow2(n - 1);
    assert Pow2(n) == 2 * h;
    DoubleMod(RightIn(n, z, z % 2 == 1), h);
  }

  /** The amount of a rotate to the right that does what `k` steps to the left do. */
  function LeftAsRight(n: nat, k: nat): (j: nat)
    requires n > 0
    ensures 1 <= j <= n
  {
    n - k % n
  }

  lemma NextLeft(n: nat, k: nat)
    requires n > 0
    ensures LeftAsRight(n, k + 1) == if LeftAsRight(n, k) == 1 then n else LeftAsRight(n, k) - 1
  {
    NextMod(k, n);
  }

  lemma NoSteps(n: nat)
    requires n > 0
    ensures LeftAsRight(n, 0) == n
  {
    DivUnique(0, n, 0, 0);
  }

  lemma {:induction false} RolClosed(n: nat, r: Reg, k: nat)
    requires n > 0 && r.d < Pow2(n)
    ensures Steps(ROL, n, r, k).d == RotR(n, r.d, LeftAsRight(n, k))
    ensures k > 0 ==> Steps(ROL, n, r, k).c == (Steps(ROL, n, r, k).d % 2 == 1)
    ensures Steps(ROL, n, r, k).x == r.x && Steps(ROL, n, r, k).v == r.v
    decreases k
  {
    hide RotR, LeftAsRight;
    RotREnds(n, r.d);
    NoSteps(n);
    if k > 0 {
      RolClosed(n, r, k - 1);
      StepsBound(ROL, n, r, k - 1);
      LeftStep(n, r.d, k - 1);
      LowBitIn(n, Steps(ROL, n, r, k - 1).d);
    }
  }

  lemma LeftStep(n: nat, y: nat, k: nat)
    requires n > 0 && y < Pow2(n)
    ensures var z := RotR(n, y, LeftAsRight(n, k)); LeftIn(n, z, Top(n, z)) == RotR(n, y, LeftAsRight(n, k + 1))
  {
    hide RotR, LeftAsRight, LeftIn, RightIn, Top, Pow2;
    RotREnds(n, y);
    NextLeft(n, k);
    var j := LeftAsRight(n, k);
    RotRBound(n, y, j - 1);
    RotRStep(n, y, j - 1);
    LeftUndoesRight(n, RotR(n, y, j - 1));
  }

  lemma {:induction false} RotRBound(n: nat, y: nat, j: nat)
    requires j <= n && y < Pow2(n)
    ensures RotR(n, y, j) < Pow2(n)
    decreases j
  {
    RotREnds(n, y);
    if j > 0 {
      RotRBound(n, y, j - 1);
      RotRStep(n, y, j - 1);
      LeftUndoesRight(n, RotR(n, y, j - 1));
    }
  }

  lemma LowBitIn(n: nat, d: nat)
    requires n > 0 && d < Pow2(n)
    ensures LeftIn(n, d, Top(n, d)) % 2 == AsInt(Top(n, d))
  {
    hide Pow2, AsInt, LeftIn, Top;
    Pow2Double(n);
    EvenDouble(d, Pow2(n - 1));
    LeftInIs(n, d, Top(n, d));
    BitOnly(Top(n, d));
    EvenAndBit(2 * d % Pow2(n), AsInt(Top(n, d)));
  }

  lemma LeftInIs(n: nat, d: nat, t: bool)
    ensures LeftIn(n, d, t) == 2 * d % Pow2(n) + AsInt(t)
  {
    hide Pow2, AsInt;
  }

  lemma EvenAndBit(e: int, b: int)
    requires e % 2 == 0 && 0 <= b <= 1
    ensures (e + b) % 2 == b
  {
  }

  lemma EvenDouble(d: nat, h: nat)
    requires h > 0 && d < 2 * h
    ensures 2 * d % (2 * h) % 2 == 0
  {
    DoubleMod(d, h);
  }

  lemma BitOnly(b: bool)
    ensures 0 <= AsInt(b) <= 1
  {
  }

  // ---- Rotates through X: the operand with X on top is rotated.

  /** X above the operand, a number of n + 1 bits. */
  function Extended(n: nat, d: nat, x: bool): (y: nat)
    requires d < Pow2(n)
    ensures y < Pow2(n + 1)
  {
    d + AsInt(x) * Pow2(n)
  }

  lemma ExtendedRight(n: nat, d: nat, x: bool)
    requires n > 0 && d < Pow2(n)
    ensures var y := Extended(n, d, x);
            && y % 2 == d % 2 && RightIn(n, d, x) < Pow2(n)
            && Extended(n, RightIn(n, d, x), d % 2 == 1) == RightIn(n + 1, y, y % 2 == 1)
  {
    var h := Pow2(n - 1);
    assert Pow2(n) == 2 * h && Pow2(n + 1) == 4 * h;
    if x {
      assert (d + 2 * h) / 2 == d / 2 + h;
    }
  }

  lemma ExtendedLeft(n: nat, d: nat, x: bool)
    requires n > 0 && d < Pow2(n)
    ensures var y := Extended(n, d, x);
            && Top(n + 1, y) == x && LeftIn(n, d, x) < Pow2(n)
            && Extended(n, LeftIn(n, d, x), Top(n, d)) == LeftIn(n + 1, y, Top(n + 1, y))
  {
    var h := Pow2(n - 1);
    assert Pow2(n) == 2 * h && Pow2(n + 1) == 4 * h;
    DoubleMod(d, h);
    DoubleMod(Extended(n, d, x), 2 * h);
  }

  lemma {:induction false} RoxrClosed(n: nat, r: Reg, k: nat)
    requires n > 0 && r.d < Pow2(n) && r.c == r.x
    ensures var r' := Steps(ROXR, n, r, k);
            && r'.c == r'.x && r'.v == r.v && r'.d < Pow2(n)
            && Extended(n, r'.d, r'.x) == RotR(n + 1, Extended(n, r.d, r.x), RightAmount(n + 1, k))
    decreases k
  {
    hide Step, RotR, Extended, RightIn, RightAmount;
    var y := Extended(n, r.d, r.x);
    RotREnds(n + 1, y);
    NextRight(n + 1, if k > 0 then k - 1 else 0);
    if k > 0 {
      RoxrClosed(n, r, k - 1);
      RoxrStep(n, Steps(ROXR, n, r, k - 1));
      RotRStep(n + 1, y, RightAmount(n + 1, k - 1));
    }
  }

  lemma RoxrStep(n: nat, r: Reg)
    requires n > 0 && r.d < Pow2(n) && r.c == r.x
    ensures var r', y := Step(ROXR, n, r), Extended(n, r.d, r.x);
            && r'.c == r'.x && r'.v == r.v && r'.d < Pow2(n)
            && Extended(n, r'.d, r'.x) == RightIn(n + 1, y, y % 2 == 1)
  {
    ExtendedRight(n, r.d, r.x);
    hide Extended, RightIn;
  }

  lemma {:induction false} RoxlClosed(n: nat, r: Reg, k: nat)
    requires n > 0 && r.d < Pow2(n) && r.c == r.x
    ensures var r' := Steps(ROXL, n, r, k);
            && r'.c == r'.x && r'.v == r.v && r'.d < Pow2(n)
            && Extended(n, r'.d, r'.x) == RotR(n + 1, Extended(n, r.d, r.x), LeftAsRight(n + 1, k))
    decreases k
  {
    hide Step, RotR, Extended, LeftIn, LeftAsRight;
    var y := Extended(n, r.d, r.x);
    RotREnds(n + 1, y);
    NoSteps(n + 1);
    if k > 0 {
      RoxlClosed(n, r, k - 1);
      RoxlStep(n, Steps(ROXL, n, r, k - 1));
      LeftStep(n + 1, y, k - 1);
    }
  }

  lemma RoxlStep(n: nat, r: Reg)
    requires n > 0 && r.d < Pow2(n) && r.c == r.x
    ensures var r', y := Step(ROXL, n, r), Extended(n, r.d, r.x);
            && r'.c == r'.x && r'.v == r.v && r'.d < Pow2(n)
            && Extended(n, r'.d, r'.x) == LeftIn(n + 1, y, Top(n + 1, y))
  {
    ExtendedLeft(n, r.d, r.x);
    hide Extended, LeftIn;
  }

  /** The three shifted pieces of a rotate through X, and the bit that lands in X. */
  lemma ExtendedPieces(n: nat, d: nat, x: bool, e: nat)
    requires 1 <= e <= n && d < Pow2(n)
    ensures var d', x' := Shr(d, e) + AsInt(x) * Pow2(n - e) + Shl(n, d, n + 1 - e), Shr(d, e - 1) % 2 == 1;
            d' < Pow2(n) && Extended(n, d', x') == RotR(n + 1, Extended(n, d, x), e)
    ensures Shr(d, e) < Pow2(n - e)
    ensures Shl(n, d, n + 1 - e) % Pow2(n + 1 - e) == 0
  {
    var pe, pf := Pow2(e - 1), Pow2(n - e);
    Pow2Add(e - 1, n + 1 - e);
    Pow2Add(e, n - e);
    assert Pow2(e) == 2 * pe && Pow2(n + 1 - e) == 2 * pf;
    DivPow2(d, e - 1, 1);
    assert Pow2(1) == 2;
    ScaleMod(d, pe, 2 * pf);
    Pieces(d, AsInt(x), pe, pf);
  }

  /** The same over numbers: `pe` is 2^(e-1) and `pf` is 2^(n-e). */
  lemma Pieces(d: nat, x: nat, pe: nat, pf: nat)
    requires pe > 0 && pf > 0 && d < 2 * pe * pf && x <= 1
    ensures var y, b := d + x * (2 * pe * pf), d / pe % 2;
            && d / (2 * pe) < pf
            && d % pe * (2 * pf) % (2 * pf) == 0
            && d / (2 * pe) + x * pf + d % pe * (2 * pf) < 2 * pe * pf
            && d / (2 * pe) + x * pf + d % pe * (2 * pf) + b * (2 * pe * pf)
               == y / (2 * pe) + y % (2 * pe) * (2 * pf)
  {
    var q, low, b, k := d / (2 * pe), d % pe, d / pe % 2, 2 * pe * pf;
    DivUnique(low * (2 * pf), 2 * pf, low, 0);
    PieceHigh(d, x, pe, pf);
    PieceLow(low, b, pe, pf);
    SplitMod(d, pe);
    assert x * pf <= pf;
  }

  lemma PieceHigh(d: nat, x: nat, pe: nat, pf: nat)
    requires pe > 0 && pf > 0 && d < 2 * pe * pf && x <= 1
    ensures var y := d + x * (2 * pe * pf);
            d / (2 * pe) < pf && y / (2 * pe) == d / (2 * pe) + x * pf && y % (2 * pe) == d % (2 * pe)
  {
    assert 2 * pe * pf == pf * (2 * pe);
    DivBelow(d, 2 * pe, pf);
    AddMultiple(d, if x == 0 then 0 else pf, 2 * pe);
  }

  lemma PieceLow(low: nat, b: nat, pe: nat, pf: nat)
    requires 0 <= low < pe && pf > 0 && b <= 1
    ensures (b * pe + low) * (2 * pf) == b * (2 * pe * pf) + low * (2 * pf)
    ensures low * (2 * pf) <= 2 * pe * pf - 2 * pf
  {
    MulApart(pe, low, 2 * pf);
    assert pe * (2 * pf) == 2 * pe * pf;
    if b == 1 {
      assert (1 * pe + low) * (2 * pf) == pe * (2 * pf) + low * (2 * pf);
    }
  }
}
