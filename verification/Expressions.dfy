/** What the expressions of as68 mean (as68/expression.c): each operator by itself, on C ints. */
module Expressions {
  import opened Powers
  import opened Words
  import opened Assembly
  import opened Relocation
  import RegisterLists

  /** A number that a C int holds. */
  predicate CInt(v: int) {
    -0x8000_0000 <= v < 0x8000_0000
  }

  /** `v` is `x` as a C int: it differs by a multiple of 2^32. */
  predicate IsInt(v: int, x: int) {
    CInt(v) && (v - x) % 0x1_0000_0000 == 0
  }

  /** Bit `k` of a number in two's complement. */
  predicate Bit(x: int, k: nat) {
    x / Pow2(k) % 2 == 1
  }

  lemma Int32Is(x: int)
    ensures IsInt(Int32(x), x)
    ensures CInt(x) ==> Int32(x) == x
  {
  }

  lemma IntUnique(v: int, w: int, x: int)
    requires IsInt(v, x) && IsInt(w, x)
    ensures v == w
  {
  }

  // ---- Bits.

  /** The low bits of a number do not change by multiples of 2^32. */
  lemma BitModulo(x: int, y: int, k: nat)
    requires (x - y) % 0x1_0000_0000 == 0 && k < 32
    ensures Bit(x, k) == Bit(y, k)
  {
    var q := (x - y) / 0x1_0000_0000;
    Pow2Wide();
    Pow2Add(k, 32 - k);
    Pow2Double(32 - k);
    hide Pow2;
    var p, h := Pow2(k), Pow2(31 - k);
    BitShift(y, q, p, h);
  }

  lemma BitShift(y: int, q: int, p: int, h: int)
    requires p > 0
    ensures (y + q * (p * (2 * h))) / p % 2 == y / p % 2
  {
    var m := q * h;
    Reorder(q, p, h);
    AddMultiple(y, 2 * m, p);
    EvenMore(y / p, m);
  }

  lemma Reorder(q: int, p: int, h: int)
    ensures q * (p * (2 * h)) == 2 * (q * h) * p
  {
    assert p * (2 * h) == 2 * (h * p);
    assert q * (2 * (h * p)) == 2 * (q * (h * p));
    assert q * (h * p) == q * h * p;
  }

  lemma EvenMore(a: int, m: int)
    ensures (a + 2 * m) % 2 == a % 2
  {}

  lemma BitwiseIs(op: BitOp, x: int, y: int, k: nat)
    requires k < 32
    ensures Bit(Int32(Bitwise(op, x % 0x1_0000_0000, y % 0x1_0000_0000)), k) == Join(op, Bit(x, k), Bit(y, k))
  {
    hide Bitwise, Int32, Bit;
    var a, b := x % 0x1_0000_0000, y % 0x1_0000_0000;
    Int32Is(Bitwise(op, a, b));
    BitModulo(Int32(Bitwise(op, a, b)), Bitwise(op, a, b), k);
    BitModulo(a, x, k);
    BitModulo(b, y, k);
    RegisterLists.HasBitwise(op, a, b, k);
    HasIsBit(a, k);
    HasIsBit(b, k);
    HasIsBit(Bitwise(op, a, b), k);
  }

  lemma HasIsBit(x: nat, k: nat)
    ensures RegisterLists.Has(x, k) == Bit(x, k)
  {
    hide Pow2;
  }

  /** The bits of a C int say which it is. */
  lemma BitsUnique(v: int, w: int)
    requires CInt(v) && CInt(w) && forall k: nat :: k < 32 ==> Bit(v, k) == Bit(w, k)
    ensures v == w
  {
    var a, b := v % 0x1_0000_0000, w % 0x1_0000_0000;
    Pow2Wide();
    forall k: nat | k < 32
      ensures RegisterLists.Has(a, k) == RegisterLists.Has(b, k)
    {
      BitModulo(a, v, k);
      BitModulo(b, w, k);
      HasIsBit(a, k);
      HasIsBit(b, k);
    }
    hide Pow2;
    RegisterLists.SameRegisters(a, b, 32);
  }

  // ---- Operators.

  /** `v` is what the operator makes of `x` and `y`. */
  ghost predicate Means(op: BinOp, x: int, y: int, v: int) {
    match op
    case Mul => IsInt(v, x * y)
    case BitAnd => CInt(v) && forall k: nat :: k < 32 ==> Bit(v, k) == (Bit(x, k) && Bit(y, k))
    case BitOr => CInt(v) && forall k: nat :: k < 32 ==> Bit(v, k) == (Bit(x, k) || Bit(y, k))
    case BitXor => CInt(v) && forall k: nat :: k < 32 ==> Bit(v, k) == (Bit(x, k) != Bit(y, k))
    case Equal => if x == y then v == 1 else v == 0
    case NotEqual => if x == y then v == 0 else v == 1
    case Less => if x < y then v == 1 else v == 0
    case AtMost => if x > y then v == 0 else v == 1
    case Greater => if x > y then v == 1 else v == 0
    case AtLeast => if x < y then v == 0 else v == 1
    case Both => if x == 0 || y == 0 then v == 0 else v == 1
    case Either => if x == 0 && y == 0 then v == 0 else v == 1
  }

  /** Only one number is. */
  lemma MeansOne(op: BinOp, x: int, y: int, v: int, w: int)
    requires Means(op, x, y, v) && Means(op, x, y, w)
    ensures v == w
  {
    hide Bit;
    if op.BitAnd? || op.BitOr? || op.BitXor? {
      BitsUnique(v, w);
    }
  }

  lemma BinMeans(op: BinOp, x: int, y: int)
    ensures Means(op, x, y, BinValue(op, x, y))
  {
    hide Int32, Bitwise, Bit;
    Int32Is(x * y);
    if op.BitAnd? || op.BitOr? || op.BitXor? {
      var o := if op.BitAnd? then AND else if op.BitOr? then OR else XOR;
      Int32Is(Bitwise(o, x % 0x1_0000_0000, y % 0x1_0000_0000));
      forall k: nat | k < 32
        ensures Bit(Int32(Bitwise(o, x % 0x1_0000_0000, y % 0x1_0000_0000)), k) == Join(o, Bit(x, k), Bit(y, k))
      {
        BitwiseIs(o, x, y, k);
      }
    }
  }

  /** The value of an expression with two operands, from those of its operands. The right one is not
      looked at when the left one settles an `and` or an `or`. */
  lemma EvalBin(mode: Mode, syms: map<Name, Symbol>, here: int, pc: int, op: BinOp, a: Expr, b: Expr)
    ensures var x, r := Eval(mode, syms, here, pc, a), Eval(mode, syms, here, pc, Bin(op, a, b));
            if (op.Both? && x.v == 0) || (op.Either? && x.v != 0) then
              r == x.(v := if op.Both? then 0 else 1)
            else
              var y := Eval(mode, syms, here, pc, b);
              && Means(op, x.v, y.v, r.v)
              && r.undefined == (x.undefined || y.undefined) && r.error == (x.error || y.error)
  {
    hide BinValue, Means;
    BinMeans(op, Eval(mode, syms, here, pc, a).v, Eval(mode, syms, here, pc, b).v);
  }

  lemma EvalSums(mode: Mode, syms: map<Name, Symbol>, here: int, pc: int, a: Expr, b: Expr)
    ensures var x, y := Eval(mode, syms, here, pc, a), Eval(mode, syms, here, pc, b);
            var sum, difference := Eval(mode, syms, here, pc, Add(a, b)), Eval(mode, syms, here, pc, Sub(a, b));
            && IsInt(sum.v, x.v + y.v) && IsInt(difference.v, x.v - y.v)
            && sum.undefined == difference.undefined == (x.undefined || y.undefined)
            && sum.error == difference.error == (x.error || y.error)
  {
    hide Int32, IsInt;
    var x, y := Eval(mode, syms, here, pc, a).v, Eval(mode, syms, here, pc, b).v;
    Int32Is(x + y);
    Int32Is(x - y);
  }

  /** The operators with one operand. */
  lemma EvalMinus(mode: Mode, syms: map<Name, Symbol>, here: int, pc: int, a: Expr)
    ensures var x, minus := Eval(mode, syms, here, pc, a), Eval(mode, syms, here, pc, Neg(a));
            IsInt(minus.v, 0 - x.v) && minus == x.(v := minus.v)
  {
    hide Int32, IsInt;
    Int32Is(0 - Eval(mode, syms, here, pc, a).v);
  }

  lemma EvalComplement(mode: Mode, syms: map<Name, Symbol>, here: int, pc: int, a: Expr)
    ensures var x, complement := Eval(mode, syms, here, pc, a), Eval(mode, syms, here, pc, Com(a));
            IsInt(complement.v, -1 - x.v) && complement == x.(v := complement.v)
  {
    hide Int32, IsInt;
    Int32Is(-1 - Eval(mode, syms, here, pc, a).v);
  }

  lemma EvalNot(mode: Mode, syms: map<Name, Symbol>, here: int, pc: int, a: Expr)
    ensures var x := Eval(mode, syms, here, pc, a);
            Eval(mode, syms, here, pc, Not(a)) == x.(v := if x.v == 0 then 1 else 0)
  {
    hide Int32;
  }

  /** Numbers, the place of the line and names. A name that is not known is 0 in the first pass, without
      an error, and an error later; in the third pass the moved value of a name counts. */
  lemma EvalLeaves(mode: Mode, syms: map<Name, Symbol>, here: int, pc: int, n: int, name: Name)
    ensures CInt(n) ==> Eval(mode, syms, here, pc, Num(n)) == Value(n, false, false)
    ensures IsInt(Eval(mode, syms, here, pc, Here).v, here + mode.org)
    ensures name in syms ==>
              Eval(mode, syms, here, pc, Sym(name))
              == Value(if mode.relocatable && mode.pass == 3 then syms[name].value2 else syms[name].value, false, false)
    ensures name !in syms ==>
              Eval(mode, syms, here, pc, Sym(name))
              == if mode.pass == 1 then Value(0, true, false) else Value(1, false, true)
  {
    Int32Is(n);
    Int32Is(here + mode.org);
  }

  /** The complement flips every bit. */
  lemma ComplementBits(x: int, k: nat)
    ensures Bit(-1 - x, k) == !Bit(x, k)
  {
    hide Pow2;
    var p := Pow2(k);
    var q, r := x / p, x % p;
    assert x == q * p + r;
    assert -1 - x == (-1 - q) * p + (p - 1 - r);
    DivUnique(-1 - x, p, -1 - q, p - 1 - r);
  }

  // ---- Names.

  /** No name but this one has changed. */
  ghost predicate OnlyName(syms: map<Name, Symbol>, syms': map<Name, Symbol>, name: Name) {
    forall other: Name :: other != name ==>
      (other in syms' <==> other in syms) && (other in syms ==> syms'[other] == syms[other])
  }

  /** After an equate its name has the value of its expression, also when it had another one. An expression
      with unknown names defines none. */
  lemma EquateSays(mode: Mode, st: State, name: Name, e: Expr, junk: int, here: int, pc: int)
    ensures var v, r := Eval(mode, st.syms, st.pc, st.pc, e), Assign(mode, st, name, e, junk);
            && (!v.undefined && (name in st.syms || !mode.Third()) ==>
                  Eval(mode, r.syms, here, pc, Sym(name)) == Value(v.v, false, false))
            && (v.undefined && name !in st.syms ==> r.syms == st.syms)
            && OnlyName(st.syms, r.syms, name)
            && (r.errors <==> st.errors || v.error
                              || (name in st.syms && (v.undefined || (mode.pass == 1 && st.syms[name].isLabel))))
  {
    hide Int32;
    var v := Eval(mode, st.syms, st.pc, st.pc, e);
    EvalLeaves(mode, Assign(mode, st, name, e, junk).syms, here, pc, 0, name);
    hide Eval;
  }

  /** After a label its name stands for the place, moved in the third pass; a label that is known in the
      first pass is an error and keeps its value. */
  lemma LabelSays(mode: Mode, st: State, name: Name, here: int, pc: int)
    requires st.pc < 0x8000_0000 && (mode.relocatable ==> mode.org == if mode.pass == 3 then SHIFTED else 0)
    ensures var r := DefineLabel(mode, st, name);
            && (mode.pass > 1 || name !in st.syms ==>
                  Eval(mode, r.syms, here, pc, Sym(name)) == Value(Int32(st.pc + mode.org), false, false)
                  && r.errors == st.errors)
            && (mode.pass == 1 && name in st.syms ==> r == st.(errors := true))
            && OnlyName(st.syms, r.syms, name)
  {
    Int32Is(st.pc);
    hide Int32;
    EvalLeaves(mode, DefineLabel(mode, st, name).syms, here, pc, 0, name);
    hide Eval;
  }
}
