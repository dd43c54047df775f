/** Branches, DBcc, MOVEQ, ADDQ and SUBQ: as as68 assembles them anywhere in a program
    (as68/opcode.c:725-745, 1005-1049, 1116-1139, 1441-1465) and as desa68 lists them
    (desa68/desa68.c:1421-1460, 1501-1547). */
module QuickPrograms {
  import opened Options
  import opened BitStacks
  import opened Assembly
  import opened Relocation
  import opened RelocationTheorem
  import opened MoveCoding
  import opened MovePrograms
  import D = Disassembly

  /** A branch on condition `cond`, DBcc of data register `n`, MOVEQ to it, or ADDQ or SUBQ of `v`. */
  datatype Quick =
    | Branch(cond: nat, short: bool, target: Expr)
    | Loop(cond: nat, n: nat, target: Expr)
    | MoveQ(value: Expr, n: nat)
    | AddQ(subtract: bool, t: nat, v: nat, dst: Operand, dstExpr: Expr)
  {
    /** What Cb, Cdb, Cmoveq and Caddq_subq take. */
    predicate Valid() {
      match this
      case Branch(cond, _, _) => cond < 16
      case Loop(cond, n, _) => cond < 16 && n < 8
      case MoveQ(_, n) => n < 8
      case AddQ(_, t, v, dst, _) => t <= D.SZ_LONG && 1 <= v <= 8 && Writable(dst) && MoveAccepted(dst)
    }

    function Opcode(): nat
      requires Valid()
    {
      match this
      case Branch(cond, _, _) => 0x6000 + cond * 0x100
      case Loop(cond, n, _) => 0x50c8 + cond * 0x100 + n
      case MoveQ(_, n) => 0x7000 + n * 0x200
      case AddQ(subtract, t, v, dst, _) =>
        0x5000 + v % 8 * 0x200 + (if subtract then 0x100 else 0) + t * 0x40 + OpMode(dst) % 64
    }

    function Body(): Body
      requires Valid()
    {
      match this
      case Branch(_, true, e) => Data([FRelShort(e, Opcode())])
      case Branch(_, false, e) => Data([FWord(Num(Opcode())), FRel(e)])
      case Loop(_, _, e) => Instr(Opcode(), [FLoop(e)])
      case MoveQ(e, _) => Data([FQuick(e, Opcode())])
      case AddQ(_, t, _, dst, e) => Instr(Opcode(), FieldsWith(t, dst, e))
    }
  }

  /** What desa68 lists at `start` when the expression of the instruction has the value `x`: the target
      of a branch, as an unsigned number, which all but a branch with a byte cut to the address space; the
      byte of MOVEQ with its sign; the destination of ADDQ and SUBQ with its value. */
  predicate QuickListed(q: Quick, x: int, mem: D.Memory, mask: nat, start: int)
    requires q.Valid()
  {
    var w := D.UW(mem, start);
    && !D.BadWord(mem, start) && 5 <= D.LineOf(w) <= 7
    && var l := D.ListLine(mem, mask, start + 2, w);
       && !l.error && D.Length(w) == LineSize(Code(None, q.Body()))
       && match q
          case Branch(cond, short, _) =>
            && l.name == "B" + D.BCC[cond] + (if short then ".S" else ".W")
            && l.ops == [D.Target(if short then x % 0x1_0000_0000 else D.Masked(mask, x))]
          case Loop(cond, n, _) =>
            l.name == "DB" + D.DBCC[cond] && l.ops == [D.DataReg(n), D.Target(D.Masked(mask, x))]
          case MoveQ(_, n) => l.name == "MOVEQ" && l.ops == [D.Imm(if x < 128 then x else x - 256), D.DataReg(n)]
          case AddQ(subtract, t, v, dst, _) =>
            && l.name == (if subtract then "SUBQ" else "ADDQ") && l.size == t && |l.ops| == 2 && l.ops[0] == D.Imm(v)
            && Same(t, mask, start + 2, WithNumber(dst, x), l.ops[1])
  }

  // ---- One line: what it stores.

  lemma OneData(org: int, st: State, f: Field, junk: int)
    requires st.pc + LineSize(Code(None, Data([f]))) <= |st.code|
    ensures RunLine(Absolute(org), st, Code(None, Data([f])), junk) == GenField(Absolute(org), st, st.pc, f)
  {
    hide GenField;
    assert [f][1..] == [] && Sizes([]) == 0;
    var r := GenField(Absolute(org), st, st.pc, f);
    assert GenFields(Absolute(org), r, st.pc, []) == r;
  }

  lemma BytesLoaded(mem: D.Memory, org: int, st: State, code: seq<Byte>, bytes: seq<Byte>)
    requires st.pc + |bytes| <= |st.code| && code == Store(st.code, st.pc, bytes)
    requires forall i :: st.pc <= i < st.pc + |bytes| ==> mem(org + i) == code[i]
    ensures InMemory(mem, org + st.pc, bytes)
  {
    forall i | 0 <= i < |bytes|
      ensures mem(org + st.pc + i) == bytes[i]
    {
      assert mem(org + (st.pc + i)) == code[st.pc + i] == bytes[i];
    }
  }

  /** The opcode in memory. */
  lemma OpcodeLoaded(mem: D.Memory, start: int, w: nat)
    requires w < 0x1_0000 && start % 2 == 0 && InMemory(mem, start, [w / 256 % 256, w % 256])
    ensures D.UW(mem, start) == w && !D.BadWord(mem, start)
  {
    hide D.UW, D.BadWord;
    var bytes := [w / 256 % 256, w % 256];
    assert mem(start + 0) == bytes[0] && mem(start + 1) == bytes[1];
    WordReads(mem, start, w);
  }

  /** A field on a line of its own. */
  lemma OneLoaded(org: int, st: State, f: Field, junk: int, mem: D.Memory) returns (v: Value)
    requires st.pc + LineSize(Code(None, Data([f]))) <= |st.code|
    requires !StoredValue(Absolute(org), st.syms, st.pc, st.pc, f).undefined
    requires var r := RunLine(Absolute(org), st, Code(None, Data([f])), junk);
             !r.errors && forall i :: st.pc <= i < r.pc ==> mem(org + i) == r.code[i]
    ensures v == StoredValue(Absolute(org), st.syms, st.pc, st.pc, f) && !FieldError(Absolute(org), f, v)
    ensures InMemory(mem, org + st.pc, f.Shape().Bytes(v.v))
  {
    hide RunLine, GenField, StoredValue, FieldError, Store, Shape.Bytes, InMemory, LineSize;
    OneData(org, st, f, junk);
    GenWhole(Absolute(org), st, st.pc, f);
    v := StoredValue(Absolute(org), st.syms, st.pc, st.pc, f);
    BytesLoaded(mem, org, st, GenField(Absolute(org), st, st.pc, f).code, f.Shape().Bytes(v.v));
  }

  // ---- Branches.

  /** The distance that a branch stores leads to its target, modulo 2^32. */
  lemma BranchDistance(org: int, syms: map<Name, Symbol>, here: int, pc: int, e: Expr, x: int) returns (k: int)
    requires Eval(Absolute(org), syms, here, pc, e) == Value(x, false, false) && 0 <= here + org < 0x8000_0000
    ensures Eval(Absolute(org), syms, here, pc, Sub(Sub(e, Here), Num(2)))
            == Value(x - (here + org) - 2 + k * 0x1_0000_0000, false, false)
  {
    var start := here + org;
    SmallStays(start);
    SmallStays(2);
    var i := Int32Off(x - start);
    var j := Int32Off(x - start + i * 0x1_0000_0000 - 2);
    k := i + j;
    hide Int32;
    var mode := Absolute(org);
    assert Eval(mode, syms, here, pc, Here) == Value(start, false, false);
    assert Eval(mode, syms, here, pc, Sub(e, Here)) == Value(x - start + i * 0x1_0000_0000, false, false);
    assert Eval(mode, syms, here, pc, Num(2)) == Value(2, false, false);
  }

  /** An opcode as two bytes. */
  lemma TwoBytes(w: nat, h: nat, b: nat)
    requires w == h * 256 + b && h < 256 && b < 256
    ensures w < 0x1_0000 && w / 256 == h && w % 256 == b && w / 4096 == h / 16
  {
  }

  lemma BranchWord(cond: nat, b: nat)
    requires cond < 16 && b < 256
    ensures var w := 0x6000 + cond * 0x100 + b;
            && w < 0x1_0000 && D.LineOf(w) == 6 && D.Condition(w) == cond && w % 256 == b
            && D.Length(w) == if b == 0 then 4 else 2
  {
    var w := 0x6000 + cond * 0x100 + b;
    TwoBytes(w, 0x60 + cond, b);
    LineAndCondition(w, 0x60 + cond, 6, cond);
    hide D.LineOf, D.Condition;
  }

  lemma LineAndCondition(w: nat, h: nat, line: nat, cond: nat)
    requires w / 256 == h && w / 4096 == h / 16 && h == line * 16 + cond && line < 16 && cond < 16
    ensures D.LineOf(w) == line && D.Condition(w) == cond
  {
  }

  lemma ByteBack(w: nat, a: int)
    requires -128 <= a < 128 && w % 256 == a % 256
    ensures D.S8(w) == a
  {
    hide D.S8;
    SameByte(w, a, w / 256);
    ByteStays(a);
  }

  lemma ByteStays(a: int)
    requires -128 <= a < 128
    ensures D.S8(a) == a
  {
  }

  lemma ShortBranch(org: int, st: State, cond: nat, e: Expr, x: int, junk: int, mem: D.Memory, mask: nat)
    requires cond < 16 && Eval(Absolute(org), st.syms, st.pc, st.pc, e) == Value(x, false, false)
    requires st.pc + LineSize(Code(None, Branch(cond, true, e).Body())) <= |st.code|
    requires var start := st.pc + org; start % 2 == 0 && 0 <= start < 0x7fff_ffe0
    requires var r := RunLine(Absolute(org), st, Code(None, Branch(cond, true, e).Body()), junk);
             !r.errors && forall i :: st.pc <= i < r.pc ==> mem(org + i) == r.code[i]
    ensures QuickListed(Branch(cond, true, e), x, mem, mask, st.pc + org)
  {
    hide RunLine, Eval, InMemory, LostBits, LineSize, QuickListed, Shape.Bytes, StoredValue, FieldError;
    var start, op := st.pc + org, 0x6000 + cond * 0x100;
    var f := FRelShort(e, op);
    var k := BranchDistance(org, st.syms, st.pc, st.pc, e, x);
    ShortDefined(org, st, f);
    var v := OneLoaded(org, st, f, junk, mem);
    ShortAccepted(org, f, v);
    OneData(org, st, f, junk);
    LowBytes(op, v.v);
    Wraps(x, k);
    ShortListed(cond, e, x, v.v, mem, mask, start);
  }

  lemma ShortDefined(org: int, st: State, f: Field)
    requires f.FRelShort? && !Eval(Absolute(org), st.syms, st.pc, st.pc, f.Stored()).undefined
    ensures StoredValue(Absolute(org), st.syms, st.pc, st.pc, f)
            == Eval(Absolute(org), st.syms, st.pc, st.pc, Sub(Sub(f.e, Here), Num(2)))
  {
    hide Eval;
  }

  lemma LowBytes(op: nat, a: int)
    ensures var w := op + a % 256; LowShape(op).Bytes(a) == [w / 256 % 256, w % 256]
  {
  }

  lemma ShortListed(cond: nat, e: Expr, x: int, a: int, mem: D.Memory, mask: nat, start: int)
    requires cond < 16 && -128 <= a < 128 && a != 0 && (start + 2 + a) % 0x1_0000_0000 == x % 0x1_0000_0000
    requires var w := 0x6000 + cond * 0x100 + a % 256; start % 2 == 0 && InMemory(mem, start, [w / 256 % 256, w % 256])
    ensures QuickListed(Branch(cond, true, e), x, mem, mask, start)
  {
    hide InMemory, D.UW, D.BadWord, D.LineOf, D.Condition, D.S8, D.Masked, D.SW, D.Length, LineSize;
    var w := 0x6000 + cond * 0x100 + a % 256;
    BranchWord(cond, a % 256);
    OpcodeLoaded(mem, start, w);
    ByteBack(w, a);
    OneSize(FRelShort(e, 0x6000 + cond * 0x100));
  }

  lemma OneSize(f: Field)
    ensures LineSize(Code(None, Data([f]))) == f.Shape().Size()
  {
    assert [f][1..] == [] && Sizes([]) == 0;
  }

  lemma ShortAccepted(org: int, f: Field, v: Value)
    requires f.FRelShort? && !FieldError(Absolute(org), f, v)
    ensures -128 <= v.v < 128 && v.v != 0
  {
  }

  /** An opcode and a word behind it. */
  lemma TwoLoaded(org: int, st: State, op: nat, f: Field, junk: int, mem: D.Memory) returns (v: Value)
    requires f.Shape() == WordShape && op < 0x1_0000
    requires st.pc + LineSize(Code(None, Data([FWord(Num(op)), f]))) <= |st.code|
    requires !StoredValue(Absolute(org), st.syms, st.pc, st.pc + 2, f).undefined
    requires var r := RunLine(Absolute(org), st, Code(None, Data([FWord(Num(op)), f])), junk);
             !r.errors && forall i :: st.pc <= i < r.pc ==> mem(org + i) == r.code[i]
    ensures LineSize(Code(None, Data([FWord(Num(op)), f]))) == 4
    ensures v == StoredValue(Absolute(org), st.syms, st.pc, st.pc + 2, f) && !FieldError(Absolute(org), f, v)
    ensures InMemory(mem, org + st.pc, WordShape.Bytes(op)) && InMemory(mem, org + st.pc + 2, WordShape.Bytes(v.v))
  {
    hide StoredValue, FieldError, Shape.Bytes, Shape.Size, Field.Shape, InMemory, LineSize, GenField, RunLine, Store;
    var mode, w := Absolute(org), FWord(Num(op));
    OpcodeField(mode, st, op);
    TwoData(org, st, w, f, junk);
    TwoStored(org, st, w, f);
    v := StoredValue(mode, st.syms, st.pc, st.pc + 2, f);
    var x, y, r := WordShape.Bytes(op), WordShape.Bytes(v.v), RunLine(mode, st, Code(None, Data([w, f])), junk);
    BytesLoaded(mem, org, st, r.code, x + y);
    TwoInMemory(mem, org + st.pc, x, y);
  }

  /** Two fields, one behind the other. */
  lemma TwoStored(org: int, st: State, f: Field, g: Field)
    requires st.pc + f.Shape().Size() + g.Shape().Size() <= |st.code|
    requires !StoredValue(Absolute(org), st.syms, st.pc, st.pc, f).undefined
    requires !StoredValue(Absolute(org), st.syms, st.pc, st.pc + f.Shape().Size(), g).undefined
    ensures var u := StoredValue(Absolute(org), st.syms, st.pc, st.pc, f);
            var v := StoredValue(Absolute(org), st.syms, st.pc, st.pc + f.Shape().Size(), g);
            var r := GenField(Absolute(org), GenField(Absolute(org), st, st.pc, f), st.pc, g);
            && r.code == Store(st.code, st.pc, f.Shape().Bytes(u.v) + g.Shape().Bytes(v.v))
            && (!r.errors ==> !FieldError(Absolute(org), g, v))
  {
    hide StoredValue, FieldError, Shape.Bytes, Shape.Size, Field.Shape, GenField, Store;
    GenWhole(Absolute(org), st, st.pc, f);
    SymsStay(Absolute(org), st, st.pc, f);
    var mid := GenField(Absolute(org), st, st.pc, f);
    GenWhole(Absolute(org), mid, st.pc, g);
    StoreTwice(st.code, st.pc, f.Shape().Bytes(StoredValue(Absolute(org), st.syms, st.pc, st.pc, f).v),
               g.Shape().Bytes(StoredValue(Absolute(org), mid.syms, st.pc, mid.pc, g).v));
  }

  lemma OpcodeField(mode: Mode, st: State, op: nat)
    requires op < 0x1_0000
    ensures StoredValue(mode, st.syms, st.pc, st.pc, FWord(Num(op))) == Value(op, false, false)
    ensures FWord(Num(op)).Shape() == WordShape && WordShape.Size() == 2
  {
    SmallStays(op);
    hide Int32;
  }

  lemma TwoInMemory(mem: D.Memory, at: int, x: seq<Byte>, y: seq<Byte>)
    requires InMemory(mem, at, x + y)
    ensures InMemory(mem, at, x) && InMemory(mem, at + |x|, y)
  {
    forall i | 0 <= i < |x|
      ensures mem(at + i) == x[i]
    {
      assert (x + y)[i] == x[i];
    }
    forall i | 0 <= i < |y|
      ensures mem(at + |x| + i) == y[i]
    {
      assert mem(at + (|x| + i)) == (x + y)[|x| + i] == y[i];
    }
  }

  lemma TwoData(org: int, st: State, f: Field, g: Field, junk: int)
    requires st.pc + LineSize(Code(None, Data([f, g]))) <= |st.code|
    ensures LineSize(Code(None, Data([f, g]))) == f.Shape().Size() + g.Shape().Size()
    ensures RunLine(Absolute(org), st, Code(None, Data([f, g])), junk)
            == GenField(Absolute(org), GenField(Absolute(org), st, st.pc, f), st.pc, g)
  {
    hide GenField;
    assert [f, g][1..] == [g] && [g][1..] == [] && Sizes([]) == 0;
    assert Sizes([g]) == g.Shape().Size();
    var mid := GenField(Absolute(org), st, st.pc, f);
    var r := GenField(Absolute(org), mid, st.pc, g);
    assert GenFields(Absolute(org), r, st.pc, []) == r;
    assert GenFields(Absolute(org), mid, st.pc, [g]) == r;
  }

  lemma WordBranch(org: int, st: State, cond: nat, e: Expr, x: int, junk: int, mem: D.Memory, mask: nat)
    requires cond < 16 && Eval(Absolute(org), st.syms, st.pc, st.pc + 2, e) == Value(x, false, false)
    requires st.pc + LineSize(Code(None, Branch(cond, false, e).Body())) <= |st.code|
    requires var start := st.pc + org; start % 2 == 0 && 0 <= start < 0x7fff_ffe0
    requires var r := RunLine(Absolute(org), st, Code(None, Branch(cond, false, e).Body()), junk);
             !r.errors && forall i :: st.pc <= i < r.pc ==> mem(org + i) == r.code[i]
    ensures QuickListed(Branch(cond, false, e), x, mem, mask, st.pc + org)
  {
    hide RunLine, Eval, InMemory, D.UW, D.BadWord, D.LineOf, D.Condition, LostBits, D.S8, D.S16, D.Masked, D.SW,
      D.Length, LineSize;
    var start, op := st.pc + org, 0x6000 + cond * 0x100;
    var k := BranchDistance(org, st.syms, st.pc, st.pc + 2, e, x);
    var v := TwoLoaded(org, st, op, FRel(e), junk, mem);
    WordAccepted(org, FRel(e), v);
    BranchWord(cond, 0);
    OpcodeLoaded(mem, start, op);
    WordLoaded(mem, start + 2, v.v);
    MaskedWraps(mask, x, k);
  }

  lemma WordAccepted(org: int, f: Field, v: Value)
    requires (f.FRel? || f.FLoop?) && !FieldError(Absolute(org), f, v)
    ensures -32768 <= v.v < 32768
  {
  }

  lemma WordLoaded(mem: D.Memory, at: int, v: int)
    requires at % 2 == 0 && -32768 <= v < 32768 && InMemory(mem, at, WordShape.Bytes(v))
    ensures D.SW(mem, at) == v && !D.BadWord(mem, at)
  {
    hide D.SW, D.BadWord, D.S16;
    var bytes := WordShape.Bytes(v);
    assert mem(at + 0) == bytes[0] && mem(at + 1) == bytes[1];
    ReadsWord(mem, at, v);
    ShortStays(v);
  }

  // ---- DBcc.

  /** An opcode put before its one extension word. */
  lemma WordBehind(org: int, st: State, op: nat, f: Field, junk: int, mem: D.Memory) returns (v: Value)
    requires f.Shape() == WordShape && op < 0x1_0000
    requires st.pc + LineSize(Code(None, Instr(op, [f]))) <= |st.code|
    requires !StoredValue(Absolute(org), st.syms, st.pc, st.pc + 2, f).undefined
    requires var r := RunLine(Absolute(org), st, Code(None, Instr(op, [f])), junk);
             !r.errors && forall i :: st.pc <= i < r.pc ==> mem(org + i) == r.code[i]
    ensures LineSize(Code(None, Instr(op, [f]))) == 4
    ensures v == StoredValue(Absolute(org), st.syms, st.pc, st.pc + 2, f) && !FieldError(Absolute(org), f, v)
    ensures InMemory(mem, org + st.pc, WordShape.Bytes(op)) && InMemory(mem, org + st.pc + 2, WordShape.Bytes(v.v))
  {
    OneWord(f);
    hide StoredValue, FieldError, Shape.Bytes, Shape.Size, Field.Shape, InMemory, GenField, GenFields, RunLine, Store,
      Sizes;
    var mode, st2 := Absolute(org), st.(pc := st.pc + 2);
    v := StoredValue(mode, st.syms, st.pc, st.pc + 2, f);
    RunInstr(org, st, op, [f], junk);
    OneOf(mode, st2, st.pc, f);
    GenWhole(mode, st2, st.pc, f);
    var x, y, r := WordShape.Bytes(op), WordShape.Bytes(v.v), RunLine(mode, st, Code(None, Instr(op, [f])), junk);
    StoreBefore(st.code, st.pc, x, y);
    StoreTwice(st.code, st.pc, x, y);
    BytesLoaded(mem, org, st, r.code, x + y);
    TwoInMemory(mem, org + st.pc, x, y);
  }

  lemma OneWord(f: Field)
    requires f.Shape() == WordShape
    ensures Sizes([f]) == f.Shape().Size() == WordShape.Size() == 2
  {
    assert [f][1..] == [] && Sizes([]) == 0;
  }

  lemma OneOf(mode: Mode, st: State, here: nat, f: Field)
    requires st.pc + Sizes([f]) <= |st.code| && Sizes([f]) == f.Shape().Size()
    ensures GenFields(mode, st, here, [f]) == GenField(mode, st, here, f)
  {
    hide GenField;
    assert [f][1..] == [];
    var r := GenField(mode, st, here, f);
    assert GenFields(mode, r, here, []) == r;
  }

  lemma LoopWord(cond: nat, n: nat)
    requires cond < 16 && n < 8
    ensures var w := 0x50c8 + cond * 0x100 + n;
            && w < 0x1_0000 && D.LineOf(w) == 5 && D.OpSz(w) == 3 && D.Adrm0(w) == D.MODE_AN && D.Reg0(w) == n
            && D.Condition(w) == cond && D.Length(w) == 4
  {
    hide D.LineOf, D.OpSz, D.Mode3, D.Reg0, D.Condition;
    LoopHigh(cond, n);
    LoopLow(cond, n);
  }

  lemma LoopHigh(cond: nat, n: nat)
    requires cond < 16 && n < 8
    ensures var w := 0x50c8 + cond * 0x100 + n; D.LineOf(w) == 5 && D.Condition(w) == cond
  {
    var w := 0x50c8 + cond * 0x100 + n;
    TwoBytes(w, 0x50 + cond, 0xc8 + n);
    LineAndCondition(w, 0x50 + cond, 5, cond);
  }

  lemma LoopLow(cond: nat, n: nat)
    requires cond < 16 && n < 8
    ensures var w := 0x50c8 + cond * 0x100 + n; D.OpSz(w) == 3 && D.Mode3(w) == 1 && D.Reg0(w) == n
  {
    var w := 0x50c8 + cond * 0x100 + n;
    Octal(w, 0xa19 + cond * 0x20, n);
    Octal(w / 8, 0x143 + cond * 4, 1);
    Eighths(w);
    FourTimes(w / 64, 0x50 + cond, 3);
  }

  lemma FourTimes(y: nat, x: nat, r: nat)
    requires y == x * 4 + r && r < 4
    ensures y % 4 == r
  {
  }

  lemma LoopLine(org: int, st: State, cond: nat, n: nat, e: Expr, x: int, junk: int, mem: D.Memory, mask: nat)
    requires cond < 16 && n < 8 && Eval(Absolute(org), st.syms, st.pc, st.pc + 2, e) == Value(x, false, false)
    requires st.pc + LineSize(Code(None, Loop(cond, n, e).Body())) <= |st.code|
    requires var start := st.pc + org; start % 2 == 0 && 0 <= start < 0x7fff_ffe0
    requires var r := RunLine(Absolute(org), st, Code(None, Loop(cond, n, e).Body()), junk);
             !r.errors && forall i :: st.pc <= i < r.pc ==> mem(org + i) == r.code[i]
    ensures QuickListed(Loop(cond, n, e), x, mem, mask, st.pc + org)
  {
    hide RunLine, Eval, InMemory, D.UW, D.BadWord, D.LineOf, D.OpSz, D.Adrm0, D.Reg0, D.Condition, LostBits, D.S16,
      D.Masked, D.SW, D.Length, LineSize;
    var start, op := st.pc + org, 0x50c8 + cond * 0x100 + n;
    var k := BranchDistance(org, st.syms, st.pc, st.pc + 2, e, x);
    var v := WordBehind(org, st, op, FLoop(e), junk, mem);
    WordAccepted(org, FLoop(e), v);
    LoopWord(cond, n);
    OpcodeLoaded(mem, start, op);
    WordLoaded(mem, start + 2, v.v);
    MaskedWraps(mask, x, k);
  }

  // ---- MOVEQ.

  lemma MoveQWord(n: nat, b: nat)
    requires n < 8 && b < 256
    ensures var w := 0x7000 + n * 0x200 + b;
            && w < 0x1_0000 && D.LineOf(w) == 7 && D.Reg9(w) == n && !D.Bit8(w) && w % 256 == b
            && D.Length(w) == 2
  {
  }

  lemma MoveQLine(org: int, st: State, e: Expr, n: nat, x: int, junk: int, mem: D.Memory, mask: nat)
    requires n < 8 && Eval(Absolute(org), st.syms, st.pc, st.pc, e) == Value(x, false, false)
    requires st.pc + LineSize(Code(None, MoveQ(e, n).Body())) <= |st.code|
    requires var start := st.pc + org; start % 2 == 0 && 0 <= start < 0x7fff_ffe0
    requires var r := RunLine(Absolute(org), st, Code(None, MoveQ(e, n).Body()), junk);
             !r.errors && forall i :: st.pc <= i < r.pc ==> mem(org + i) == r.code[i]
    ensures QuickListed(MoveQ(e, n), x, mem, mask, st.pc + org)
  {
    hide RunLine, Eval, InMemory, D.UW, D.BadWord, D.LineOf, D.Reg9, D.Bit8, D.S8, D.Length, LineSize, LostBits;
    var start, op := st.pc + org, 0x7000 + n * 0x200;
    var f := FQuick(e, op);
    var v := OneLoaded(org, st, f, junk, mem);
    OneData(org, st, f, junk);
    QuickAccepted(org, f, v);
    MoveQWord(n, x % 256);
    OpcodeLoaded(mem, start, op + x % 256);
    QuickByte(op + x % 256, x);
  }

  lemma QuickAccepted(org: int, f: Field, v: Value)
    requires f.FQuick? && !FieldError(Absolute(org), f, v)
    ensures -128 <= v.v <= 255
  {
  }

  lemma QuickByte(w: nat, x: int)
    requires -128 <= x <= 255 && w % 256 == x % 256
    ensures D.S8(w) == if x < 128 then x else x - 256
  {
    ByteBack(w, if x < 128 then x else x - 256);
  }

  // ---- ADDQ and SUBQ.

  lemma AddQFields(m: nat, t: nat, v: nat, subtract: bool)
    requires t <= D.SZ_LONG && 1 <= v <= 8
    ensures var w := 0x5000 + v % 8 * 0x200 + (if subtract then 0x100 else 0) + t * 0x40 + m % 64;
            && w < 0x1_0000 && D.LineOf(w) == 5 && D.OpSz(w) == t && D.Bit8(w) == subtract
            && (if D.Reg9(w) == 0 then 8 else D.Reg9(w)) == v
            && D.Mode3(w) == m / 8 % 8 && D.Reg0(w) == m % 8
  {
    var q, r, b, n := m / 8 % 8, m % 8, if subtract then 4 else 0, v % 8;
    assert m % 64 == q * 8 + r;
    var w := 0x5000 + n * 0x200 + (b + t) * 0x40 + (q * 8 + r);
    Octal(w, 0xa00 + n * 0x40 + (b + t) * 8 + q, r);
    Octal(w / 8, 0x140 + n * 8 + (b + t), q);
    Octal(w / 8 / 8, 0x28 + n, b + t);
    Eighths(w);
    QuickBits(w / 64, 0x28 + n, b, t);
  }

  lemma QuickBits(y: nat, x: nat, b: nat, t: nat)
    requires y == x * 8 + (b + t) && (b == 0 || b == 4) && t < 4
    ensures y % 4 == t && (y / 4 % 2 == 1 <==> b == 4)
  {
  }

  lemma AddQWord(q: Quick)
    requires q.Valid() && q.AddQ?
    ensures var w := q.Opcode();
            && w < 0x1_0000 && D.LineOf(w) == 5 && D.OpSz(w) == q.t && D.Bit8(w) == q.subtract
            && (if D.Reg9(w) == 0 then 8 else D.Reg9(w)) == q.v
            && D.Adrm0(w) == ModeOf(q.dst) <= 8 && D.Reg0(w) == OpMode(q.dst) % 8
            && D.Length(w) == 2 + D.EaSize(ModeOf(q.dst), q.t)
  {
    hide D.LineOf, D.OpSz, D.Bit8, D.Reg9, D.Mode3, D.Reg0, OpMode, ModeOf, D.EaSize, D.Extended;
    AddQFields(OpMode(q.dst), q.t, q.v, q.subtract);
    ModeBits(q.dst);
  }

  /** What an instruction with the extension words of one operand leaves in memory. */
  lemma OperandLoaded(org: int, st: State, op: nat, t: nat, o: Operand, e: Expr, x: int, junk: int, mem: D.Memory)
    requires Writable(o) && st.pc + LineSize(Code(None, Instr(op, FieldsWith(t, o, e)))) <= |st.code|
    requires FieldsWith(t, o, e) != [] ==> Eval(Absolute(org), st.syms, st.pc, st.pc + 2, e) == Value(x, false, false)
    requires Int32(x) == x
    requires var r := RunLine(Absolute(org), st, Code(None, Instr(op, FieldsWith(t, o, e))), junk);
             !r.errors && forall i :: st.pc <= i < r.pc ==> mem(org + i) == r.code[i]
    ensures Writable(WithNumber(o, x))
    ensures var n := WithNumber(o, x);
            var ext := ExtBytes(t, n, org + st.pc + 2);
            && Clean(Absolute(org), t, n, org + st.pc + 2)
            && LineSize(Code(None, Instr(op, FieldsWith(t, o, e)))) == 2 + |ext|
            && InMemory(mem, org + st.pc, WordShape.Bytes(op)) && InMemory(mem, org + st.pc + 2, ext)
  {
    hide Eval, RunLine, GenFields, FieldsWith, WithNumber, OpFields, Store, Sizes, InMemory, Clean, ExtBytes, Int32,
      Shape.Bytes;
    var mode, fs, n := Absolute(org), FieldsWith(t, o, e), WithNumber(o, x);
    NumberFields(t, o, x);
    SameField(org, st.(pc := st.pc + 2), st.pc, t, o, e, x);
    GenOperand(org, st.(pc := st.pc + 2), st.pc, t, n);
    RunInstr(org, st, op, fs, junk);
    var w, ext := WordShape.Bytes(op), ExtBytes(t, n, st.pc + 2 + org);
    StoreBefore(st.code, st.pc, w, ext);
    StoreTwice(st.code, st.pc, w, ext);
    BytesLoaded(mem, org, st, RunLine(mode, st, Code(None, Instr(op, fs)), junk).code, w + ext);
    TwoInMemory(mem, org + st.pc, w, ext);
  }

  lemma SameMode(o: Operand, x: int)
    requires Writable(o)
    ensures Writable(WithNumber(o, x)) && ModeOf(WithNumber(o, x)) == ModeOf(o) && OpMode(WithNumber(o, x)) == OpMode(o)
    ensures Int32(x) == x ==> CInts(WithNumber(o, x))
  {
  }

  lemma AddQLine(org: int, st: State, q: Quick, x: int, junk: int, mem: D.Memory, mask: nat)
    requires q.AddQ? && q.Valid() && st.pc + LineSize(Code(None, q.Body())) <= |st.code|
    requires FieldsWith(q.t, q.dst, q.dstExpr) != [] ==>
               Eval(Absolute(org), st.syms, st.pc, st.pc + 2, q.dstExpr) == Value(x, false, false)
    requires Int32(x) == x
    requires var start := st.pc + org; start % 2 == 0 && 0 <= start < 0x7fff_ffe0
    requires var r := RunLine(Absolute(org), st, Code(None, q.Body()), junk);
             !r.errors && forall i :: st.pc <= i < r.pc ==> mem(org + i) == r.code[i]
    ensures QuickListed(q, x, mem, mask, st.pc + org)
  {
    hide Eval, RunLine, FieldsWith, WithNumber, InMemory, Clean, ExtBytes, Int32, CInts, OpMode, ModeOf, Same, LineSize,
      Writable, MoveAccepted, D.LineOf, D.OpSz, D.Bit8, D.Reg9, D.Reg0, D.Adrm0, D.Length, D.UW, D.BadWord, D.EaOperand,
      D.EaError, D.EaSize, Quick.Opcode;
    var start, op, o := st.pc + org, q.Opcode(), WithNumber(q.dst, x);
    OperandLoaded(org, st, op, q.t, q.dst, q.dstExpr, x, junk, mem);
    AddQWord(q);
    OpcodeLoaded(mem, start, op);
    SameMode(q.dst, x);
    OperandDecodes(org, q.t, o, start + 2, mem, mask, D.Reg0(op));
  }

  // ---- The names of conditions.

  // What as68 takes the names of branches, of DBcc and of Scc for.
  const B_CONDITIONS: map<string, nat> := map["RA" := 0, "SR" := 1, "HI" := 2, "LS" := 3, "CC" := 4, "CS" := 5,
    "NE" := 6, "EQ" := 7, "VC" := 8, "VS" := 9, "PL" := 10, "MI" := 11, "GE" := 12, "LT" := 13, "GT" := 14,
    "LE" := 15, "LO" := 5, "HS" := 4]
  const DB_CONDITIONS: map<string, nat> := map["RA" := 1, "T" := 0, "F" := 1, "HI" := 2, "LS" := 3, "CC" := 4,
    "CS" := 5, "NE" := 6, "EQ" := 7, "VC" := 8, "VS" := 9, "PL" := 10, "MI" := 11, "GE" := 12, "LT" := 13,
    "GT" := 14, "LE" := 15]

  const S_CONDITIONS: map<string, nat> := map["T" := 0, "F" := 1, "HI" := 2, "LS" := 3, "CC" := 4, "CS" := 5,
    "NE" := 6, "EQ" := 7, "VC" := 8, "VS" := 9, "PL" := 10, "MI" := 11, "GE" := 12, "LT" := 13, "GT" := 14,
    "LE" := 15]

  /** The name that desa68 gives a branch is read back by as68 as the same condition. That of DBcc is,
      exactly unless the condition is 0: DBT is listed as DBRA, which as68 takes for DBF. Those of Scc all
      are. */
  lemma NamesReadBack(c: nat)
    requires c < 16
    ensures D.BCC[c] in B_CONDITIONS && B_CONDITIONS[D.BCC[c]] == c
    ensures D.SCC[c] in S_CONDITIONS && S_CONDITIONS[D.SCC[c]] == c
    ensures D.DBCC[c] in DB_CONDITIONS && (DB_CONDITIONS[D.DBCC[c]] == c <==> c != 0)
  {
    assert |D.BCC[c]| == 2;
  }

  // ---- A whole program.

  /** Line `k` of the program is this instruction, after an optional label. */
  predicate QuickAt(lines: seq<Line>, k: nat, q: Quick) {
    k < |lines| && q.Valid() && lines[k].Code? && lines[k].body == q.Body()
  }

  /** The value of its expression at an origin. */
  function QuickNumber(lines: seq<Line>, k: nat, q: Quick, org: int): int
    requires LinearProgram(lines) && QuickAt(lines, k, q)
  {
    var env, at := EnvAt(Labels(lines, 0), lines, 0, k), Extent(lines[..k]);
    match q
    case Branch(_, short, e) => NumberAt(env, at, if short then at else at + 2, e, org)
    case Loop(_, _, e) => NumberAt(env, at, at + 2, e, org)
    case MoveQ(e, _) => NumberAt(env, at, at, e, org)
    case AddQ(_, _, _, _, e) => NumberAt(env, at, at + 2, e, org)
  }

  lemma NumberIs(mode: Mode, syms: map<Name, Symbol>, env: map<Name, Lin>, here: nat, pc: nat, e: Expr)
    requires Agrees(mode, syms, env) && Linear(env, here, pc, e).Some?
    ensures Eval(mode, syms, here, pc, e) == Value(NumberAt(env, here, pc, e, mode.org), false, false)
  {
    hide Linear, Eval, Int32, Agrees;
    EvalLinear(mode, syms, env, here, pc, e);
  }

  lemma NumberFits(env: map<Name, Lin>, here: nat, pc: nat, e: Expr, org: int)
    ensures Int32(NumberAt(env, here, pc, e, org)) == NumberAt(env, here, pc, e, org)
  {
    hide Linear, Int32;
    SmallStays(0);
    if Linear(env, here, pc, e).Some? {
      AtInt(Linear(env, here, pc, e).value, org);
    }
  }

  lemma DistanceLinear(env: map<Name, Lin>, here: nat, pc: nat, e: Expr)
    requires Linear(env, here, pc, Sub(Sub(e, Here), Num(2))).Some?
    ensures Linear(env, here, pc, e).Some?
  {
    assert Linear(env, here, pc, Sub(e, Here)).Some?;
  }

  /** The expressions of a line whose fields are linear are linear themselves. */
  lemma QuickLinear(env: map<Name, Lin>, q: Quick, at: nat)
    requires q.Valid() && LinePieces(env, Code(None, q.Body()), at).Some?
    ensures q.Branch? ==> Linear(env, at, if q.short then at else at + 2, q.target).Some?
    ensures q.Loop? ==> Linear(env, at, at + 2, q.target).Some?
    ensures q.MoveQ? ==> Linear(env, at, at, q.value).Some?
    ensures q.AddQ? && FieldsWith(q.t, q.dst, q.dstExpr) != [] ==> Linear(env, at, at + 2, q.dstExpr).Some?
  {
    match q
    case Branch(_, short, e) =>
      if !short {
        var fs := [FWord(Num(q.Opcode())), FRel(e)];
        assert fs[1..] == [FRel(e)] && FieldPieces(env, at, at + 2, [FRel(e)]).Some?;
      }
      DistanceLinear(env, at, if short then at else at + 2, e);
    case Loop(_, _, e) => DistanceLinear(env, at, at + 2, e);
    case MoveQ(_, _) =>
    case AddQ(_, t, _, dst, e) =>
      var fs := FieldsWith(t, dst, e);
      if fs != [] {
        assert Linear(env, at, at + 2, fs[0].Stored()).Some?;
        LinearNumber(env, at, at + 2, t, dst, e);
      }
  }

  /** A branch, DBcc, MOVEQ, ADDQ or SUBQ anywhere in a linear program: in the image assembled at an origin,
      desa68 lists it with the value that its expression has there. */
  lemma QuickInProgram(lines: seq<Line>, k: nat, q: Quick, org: int, buffer: seq<Byte>, junk: int, mem: D.Memory,
        mask: nat)
    requires LinearProgram(lines) && Extent(lines) <= |buffer| < 0x8000_0000 && QuickAt(lines, k, q)
    requires AssembleAt(lines, buffer, org, junk).Image? && Loaded(mem, org, AssembleAt(lines, buffer, org, junk).code)
    requires var start := org + Extent(lines[..k]); start % 2 == 0 && 0 <= start < 0x7fff_ffe0
    ensures QuickListed(q, QuickNumber(lines, k, q, org), mem, mask, org + Extent(lines[..k]))
  {
    hide RunLine, AssembleAt, QuickListed, Pieces, DefinedOnce, EnvAt, Labels, Loaded, Linear, NumberAt, Agrees, Sizes,
      Eval, LinePieces, Quick.Body, Int32, LineSize;
    var at := LineInImage(lines, k, org, buffer, junk, mem);
    var env, mode := EnvAt(Labels(lines, 0), lines, 0, k), Absolute(org);
    var x := QuickNumber(lines, k, q, org);
    SameCode(env, lines[k], at.pc);
    QuickLinear(env, q, at.pc);
    match q
    case Branch(cond, short, e) =>
      NumberIs(mode, at.syms, env, at.pc, if short then at.pc else at.pc + 2, e);
      BranchListed(org, at, q, x, junk, mem, mask);
    case Loop(cond, n, e) =>
      NumberIs(mode, at.syms, env, at.pc, at.pc + 2, e);
      LoopListed(org, at, q, x, junk, mem, mask);
    case MoveQ(e, n) =>
      NumberIs(mode, at.syms, env, at.pc, at.pc, e);
      MoveQListed(org, at, q, x, junk, mem, mask);
    case AddQ(_, t, _, dst, e) =>
      NumberFits(env, at.pc, at.pc + 2, e, org);
      if FieldsWith(t, dst, e) != [] {
        NumberIs(mode, at.syms, env, at.pc, at.pc + 2, e);
      }
      AddQLine(org, at, q, x, junk, mem, mask);
  }

  lemma SameCode(env: map<Name, Lin>, line: Line, pc: nat)
    requires line.Code?
    ensures LinePieces(env, Code(None, line.body), pc) == LinePieces(env, line, pc)
    ensures LineSize(Code(None, line.body)) == LineSize(line)
  {
    hide FieldPieces, Sizes;
  }

  lemma BranchListed(org: int, st: State, q: Quick, x: int, junk: int, mem: D.Memory, mask: nat)
    requires q.Branch? && q.Valid() && st.pc + LineSize(Code(None, q.Body())) <= |st.code|
    requires Eval(Absolute(org), st.syms, st.pc, if q.short then st.pc else st.pc + 2, q.target)
             == Value(x, false, false)
    requires var start := st.pc + org; start % 2 == 0 && 0 <= start < 0x7fff_ffe0
    requires var r := RunLine(Absolute(org), st, Code(None, q.Body()), junk);
             !r.errors && forall i :: st.pc <= i < r.pc ==> mem(org + i) == r.code[i]
    ensures QuickListed(q, x, mem, mask, st.pc + org)
  {
    hide RunLine, Eval, QuickListed, LineSize, Quick.Body;
    if q.short {
      ShortBranch(org, st, q.cond, q.target, x, junk, mem, mask);
    } else {
      WordBranch(org, st, q.cond, q.target, x, junk, mem, mask);
    }
  }

  lemma LoopListed(org: int, st: State, q: Quick, x: int, junk: int, mem: D.Memory, mask: nat)
    requires q.Loop? && q.Valid() && st.pc + LineSize(Code(None, q.Body())) <= |st.code|
    requires Eval(Absolute(org), st.syms, st.pc, st.pc + 2, q.target) == Value(x, false, false)
    requires var start := st.pc + org; start % 2 == 0 && 0 <= start < 0x7fff_ffe0
    requires var r := RunLine(Absolute(org), st, Code(None, q.Body()), junk);
             !r.errors && forall i :: st.pc <= i < r.pc ==> mem(org + i) == r.code[i]
    ensures QuickListed(q, x, mem, mask, st.pc + org)
  {
    hide RunLine, Eval, QuickListed, LineSize, Quick.Body;
    LoopLine(org, st, q.cond, q.n, q.target, x, junk, mem, mask);
  }

  lemma MoveQListed(org: int, st: State, q: Quick, x: int, junk: int, mem: D.Memory, mask: nat)
    requires q.MoveQ? && q.Valid() && st.pc + LineSize(Code(None, q.Body())) <= |st.code|
    requires Eval(Absolute(org), st.syms, st.pc, st.pc, q.value) == Value(x, false, false)
    requires var start := st.pc + org; start % 2 == 0 && 0 <= start < 0x7fff_ffe0
    requires var r := RunLine(Absolute(org), st, Code(None, q.Body()), junk);
             !r.errors && forall i :: st.pc <= i < r.pc ==> mem(org + i) == r.code[i]
    ensures QuickListed(q, x, mem, mask, st.pc + org)
  {
    hide RunLine, Eval, QuickListed, LineSize, Quick.Body;
    MoveQLine(org, st, q.value, q.n, x, junk, mem, mask);
  }

  /** The same instruction in the relocatable image, after the origin has been added at the recorded
      places: a branch leads to where its label is at that origin. */
  lemma QuickRelocated(lines: seq<Line>, k: nat, q: Quick, base: int, buffer: seq<Byte>, junk: int, buffer': seq<Byte>,
        junk': int, mem: D.Memory, mask: nat)
    requires LinearProgram(lines) && Extent(lines) <= |buffer| < 0x8000_0000 && Extent(lines) <= |buffer'| < 0x8000_0000
    requires QuickAt(lines, k, q) && forall p <- PiecesOf(lines) :: Movable(p)
    requires AssembleRelocatable(lines, buffer, junk).Image? && AssembleAt(lines, buffer', base, junk').Image?
    requires forall image ::
               RelocatesTo(AssembleRelocatable(lines, buffer, junk), base, image) ==> Loaded(mem, base, image)
    requires var start := base + Extent(lines[..k]); start % 2 == 0 && 0 <= start < 0x7fff_ffe0
    ensures QuickListed(q, QuickNumber(lines, k, q, base), mem, mask, base + Extent(lines[..k]))
  {
    hide LinearProgram, AssembleAt, AssembleRelocatable, QuickListed, QuickNumber, Loaded, PiecesOf, Movable, Patched,
      QuickAt, InImage;
    RelocationPreserves(lines, buffer, junk, base, buffer', junk');
    QuickInProgram(lines, k, q, base, buffer', junk', mem, mask);
  }
}
