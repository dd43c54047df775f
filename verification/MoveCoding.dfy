/** MOVE as as68 encodes it (as68/opcode.c:378-586, 1255-1336) and as desa68 decodes it
    (desa68/desa68.c:664-783, 991-1009). */
module MoveCoding {
  import opened Options
  import opened BitStacks
  import opened Powers
  import opened Words
  import opened Assembly
  import opened Relocation
  import D = Disassembly

  type Operand = D.Operand

  // What op() returns besides the mode.
  const ALTERABLE := 0x40
  const CONTROL := 0x80
  const MEMORY := 0x100
  const DATA := 0x200

  /** The operands that op() knows, with their registers. */
  predicate Writable(o: Operand) {
    match o
    case DataReg(n) => n < 8
    case AddrReg(n) => n < 8
    case Indirect(n) => n < 8
    case PostInc(n) => n < 8
    case PreDec(n) => n < 8
    case Disp(_, n) => n < 8
    case Index(_, n, x, _) => n < 8 && x < 16
    case PcIndex(_, x, _) => x < 16
    case AbsWord(_) | AbsLong(_) | PcDisp(_) | Imm(_) => true
    case _ => false
  }

  /** The mode and flags that op() returns. */
  function OpMode(o: Operand): nat
    requires Writable(o)
  {
    match o
    case DataReg(n) => n + ALTERABLE + DATA
    case AddrReg(n) => 0x08 + n + ALTERABLE
    case Indirect(n) => 0x10 + n + CONTROL + DATA + ALTERABLE + MEMORY
    case PostInc(n) => 0x18 + n + DATA + ALTERABLE + MEMORY
    case PreDec(n) => 0x20 + n + DATA + ALTERABLE + MEMORY
    case Disp(_, n) => 0x28 + n + CONTROL + DATA + MEMORY + ALTERABLE
    case Index(_, n, _, _) => 0x30 + n + CONTROL + DATA + MEMORY + ALTERABLE
    case AbsWord(_) => 0x38 + CONTROL + DATA + MEMORY + ALTERABLE
    case AbsLong(_) => 0x39 + CONTROL + DATA + MEMORY + ALTERABLE
    case PcDisp(_) => 0x3a + CONTROL + DATA + MEMORY
    case PcIndex(_, _, _) => 0x3b + CONTROL + DATA + MEMORY
    case _ => 0x3c + DATA + MEMORY
  }

  function IndexBase(x: nat, long: bool): nat {
    x * 0x1000 + if long then 0x800 else 0
  }

  /** The extension words that op() generates for an operand of size `t`. */
  function OpFields(t: nat, o: Operand): seq<Field>
    requires Writable(o)
  {
    match o
    case Disp(d, _) => [FDisp(Num(d))]
    case Index(d, _, x, long) => [FIndex(Num(d), IndexBase(x, long))]
    case AbsWord(a) => [FShort(Num(a))]
    case AbsLong(a) => [FLong(Num(a))]
    case PcDisp(a) => [FDisp(Sub(Num(a), Pc))]
    case PcIndex(a, x, long) => [FIndex(Sub(Num(a), Pc), IndexBase(x, long))]
    case Imm(v) => [if t == D.SZ_LONG then FLong(Num(v)) else if t == D.SZ_BYTE then FImmByte(Num(v))
      else FWord(Num(v))]
    case _ => []
  }

  /** Cmove: a destination that is not alterable is an error. */
  predicate MoveAccepted(dst: Operand)
    requires Writable(dst)
  {
    OpMode(dst) / ALTERABLE % 2 == 1
  }

  /** The opcode that Cmove puts. */
  function MoveOpcode(t: nat, src: Operand, dst: Operand): nat
    requires Writable(src) && Writable(dst)
  {
    var m1, m2 := OpMode(src), OpMode(dst);
    (if t == D.SZ_BYTE then 1 else if t == D.SZ_WORD then 3 else 2) * 0x1000
    + m2 % 8 * 0x200 + m2 / 8 % 8 * 0x40 + m1 % 64
  }

  /** An opcode with the extension words of two operands. */
  function InstrLine(w: nat, t: nat, src: Operand, dst: Operand): Line
    requires Writable(src) && Writable(dst)
  {
    Code(None, Instr(w, OpFields(t, src) + OpFields(t, dst)))
  }

  function MoveLine(t: nat, src: Operand, dst: Operand): Line
    requires Writable(src) && Writable(dst)
  {
    InstrLine(MoveOpcode(t, src, dst), t, src, dst)
  }

  /** The extended mode of an operand. */
  function ModeOf(o: Operand): (r: nat)
    requires Writable(o)
    ensures r <= D.MODE_IMM
  {
    match o
    case DataReg(_) => 0
    case AddrReg(_) => 1
    case Indirect(_) => 2
    case PostInc(_) => 3
    case PreDec(_) => 4
    case Disp(_, _) => 5
    case Index(_, _, _, _) => 6
    case AbsWord(_) => 7
    case AbsLong(_) => 8
    case PcDisp(_) => 9
    case PcIndex(_, _, _) => 10
    case _ => 11
  }

  // ---- The opcode word.

  /** The disassembler finds the modes, registers and size that were encoded; it takes every MOVE
      that the assembler accepts except a byte move from or to an address register. */
  lemma OpcodeDecodes(t: nat, src: Operand, dst: Operand)
    requires Writable(src) && Writable(dst) && t <= D.SZ_LONG && MoveAccepted(dst)
    ensures var w := MoveOpcode(t, src, dst);
            && w < 0x4000 && 1 <= D.LineOf(w) <= 3 && D.MoveSize(w) == t
            && D.Adrm0(w) == ModeOf(src) && D.Adrm6(w) == ModeOf(dst)
            && (ModeOf(src) < 7 ==> D.Reg0(w) == OpMode(src) % 8) && (ModeOf(dst) < 7 ==> D.Reg9(w) == OpMode(dst) % 8)
            && (D.MoveValid(w) <==> !(t == D.SZ_BYTE && (src.AddrReg? || dst.AddrReg?)))
  {
    hide OpMode, D.Extended, D.Mode3, D.Mode6, D.Reg0, D.Reg9, D.LineOf;
    var m1, m2 := OpMode(src), OpMode(dst);
    var line := if t == D.SZ_BYTE then 1 else if t == D.SZ_WORD then 3 else 2;
    ModeBits(src);
    ModeBits(dst);
    OpcodeFields(line, m1, m2);
  }

  lemma OpcodeFields(line: nat, m1: nat, m2: nat)
    requires 1 <= line <= 3
    ensures var w := line * 0x1000 + m2 % 8 * 0x200 + m2 / 8 % 8 * 0x40 + m1 % 64;
            && w < 0x4000 && D.LineOf(w) == line && D.Reg9(w) == m2 % 8 && D.Mode6(w) == m2 / 8 % 8
            && D.Mode3(w) == m1 / 8 % 8 && D.Reg0(w) == m1 % 8
  {
    var r9, m6, m3, r0 := m2 % 8, m2 / 8 % 8, m1 / 8 % 8, m1 % 8;
    assert m1 % 64 == m3 * 8 + r0;
    var w := line * 0x1000 + r9 * 0x200 + m6 * 0x40 + (m3 * 8 + r0);
    Octal(w, line * 0x200 + r9 * 0x40 + m6 * 8 + m3, r0);
    Octal(w / 8, line * 0x40 + r9 * 8 + m6, m3);
    Octal(w / 8 / 8, line * 8 + r9, m6);
    Octal(w / 8 / 8 / 8, line, r9);
    Eighths(w);
  }

  /** Three bits at a time. */
  lemma Eighths(w: nat)
    ensures w / 64 == w / 8 / 8 && w / 512 == w / 8 / 8 / 8 && w / 4096 == w / 8 / 8 / 8 / 8 && w / 256 == w / 64 / 4
  {}

  lemma Octal(x: nat, q: nat, r: nat)
    requires x == q * 8 + r && r < 8
    ensures x / 8 == q && x % 8 == r
  {}

  /** The mode field and register field of what op() returns. */
  lemma ModeBits(o: Operand)
    requires Writable(o)
    ensures D.Extended(OpMode(o) / 8 % 8, OpMode(o) % 8) == ModeOf(o)
    ensures OpMode(o) / ALTERABLE % 2 == 1 <==> ModeOf(o) <= 8
  {
    ModeParts(o);
    ModeAlterable(o);
  }

  lemma ModeParts(o: Operand)
    requires Writable(o)
    ensures D.Extended(OpMode(o) / 8 % 8, OpMode(o) % 8) == ModeOf(o)
  {}

  lemma ModeAlterable(o: Operand)
    requires Writable(o)
    ensures OpMode(o) / ALTERABLE % 2 == 1 <==> ModeOf(o) <= 8
  {}

  // ---- The extension words.

  /** The value that op() hands to genB, genW or genL for an operand whose extension is at `at`. */
  function OperandValue(o: Operand, at: int): int {
    match o
    case Disp(d, _) => Int32(d)
    case Index(d, _, _, _) => Int32(d)
    case AbsWord(a) => Int32(a)
    case AbsLong(a) => Int32(a)
    case PcDisp(a) => Int32(Int32(a) - Int32(at))
    case PcIndex(a, _, _) => Int32(Int32(a) - Int32(at))
    case Imm(v) => Int32(v)
    case _ => 0
  }

  function ExtBytes(t: nat, o: Operand, at: int): seq<Byte>
    requires Writable(o)
  {
    if OpFields(t, o) == [] then [] else OpFields(t, o)[0].Shape().Bytes(OperandValue(o, at))
  }

  /** The assembler has nothing to object to. */
  predicate Clean(mode: Mode, t: nat, o: Operand, at: int)
    requires Writable(o)
  {
    OpFields(t, o) != [] ==> !FieldError(mode, OpFields(t, o)[0], Value(OperandValue(o, at), false, false))
  }

  function Absolute(org: int): Mode { Mode(false, 2, org) }

  lemma GenOperand(org: int, st: State, here: nat, t: nat, o: Operand)
    requires Writable(o) && st.pc + Sizes(OpFields(t, o)) <= |st.code|
    ensures var r, e := GenFields(Absolute(org), st, here, OpFields(t, o)), ExtBytes(t, o, st.pc + org);
            && |e| == Sizes(OpFields(t, o)) && r.code == Store(st.code, st.pc, e)
            && r.errors == (st.errors || !Clean(Absolute(org), t, o, st.pc + org))
  {
    hide FieldError, Shape.Bytes, Shape.Size, Store, StoredValue, OpFields, OperandValue;
    var fs := OpFields(t, o);
    FewFields(t, o);
    if fs == [] {
      StoreNothing(st.code, st.pc);
    } else {
      assert fs[1..] == [];
      StoredOperand(org, st, here, t, o);
      GenWhole(Absolute(org), st, here, fs[0]);
    }
  }

  lemma StoreNothing(code: seq<Byte>, at: nat)
    requires at <= |code|
    ensures Store(code, at, []) == code
  {
  }

  lemma FewFields(t: nat, o: Operand)
    requires Writable(o)
    ensures |OpFields(t, o)| <= 1
  {
  }

  /** A field whose value is known stores its bytes in the second pass. */
  lemma GenWhole(mode: Mode, st: State, here: nat, f: Field)
    requires !mode.relocatable && mode.pass == 2 && st.pc + f.Shape().Size() <= |st.code|
    requires !StoredValue(mode, st.syms, here, st.pc, f).undefined
    ensures var v := StoredValue(mode, st.syms, here, st.pc, f);
            var r := GenField(mode, st, here, f);
            r.code == Store(st.code, st.pc, f.Shape().Bytes(v.v)) && r.errors == (st.errors || FieldError(mode, f, v))
  {
    hide FieldError, Shape.Bytes, Store, StoredValue, Field.Shape, GetL;
  }

  lemma StoredOperand(org: int, st: State, here: nat, t: nat, o: Operand)
    requires Writable(o) && OpFields(t, o) != []
    ensures StoredValue(Absolute(org), st.syms, here, st.pc, OpFields(t, o)[0])
            == Value(OperandValue(o, st.pc + org), false, false)
  {
    hide Int32;
    if o.PcDisp? || o.PcIndex? {
      var mode := Absolute(org);
      assert Eval(mode, st.syms, here, st.pc, Num(o.a)) == Value(Int32(o.a), false, false);
      assert Eval(mode, st.syms, here, st.pc, Pc) == Value(Int32(st.pc + org), false, false);
      assert Eval(mode, st.syms, here, st.pc, Sub(Num(o.a), Pc)) == Value(OperandValue(o, st.pc + org), false, false);
    }
  }

  lemma {:induction false} GenFieldsAppend(mode: Mode, st: State, here: nat, a: seq<Field>, b: seq<Field>)
    requires st.pc + Sizes(a) + Sizes(b) <= |st.code|
    ensures Sizes(a + b) == Sizes(a) + Sizes(b)
    ensures GenFields(mode, st, here, a + b) == GenFields(mode, GenFields(mode, st, here, a), here, b)
    decreases |a|
  {
    hide GenField;
    if a == [] {
      assert a + b == b;
    } else {
      assert (a + b)[1..] == a[1..] + b;
      GenFieldsAppend(mode, GenField(mode, st, here, a[0]), here, a[1..], b);
    }
  }

  /** The bytes of the instruction. */
  function InstrBytes(w: nat, t: nat, src: Operand, dst: Operand, at: int): seq<Byte>
    requires Writable(src) && Writable(dst)
  {
    var e := ExtBytes(t, src, at + 2);
    WordShape.Bytes(w) + e + ExtBytes(t, dst, at + 2 + |e|)
  }

  lemma RunInstr(org: int, st: State, opcode: nat, fs: seq<Field>, junk: int)
    requires st.pc + 2 + Sizes(fs) <= |st.code|
    ensures LineSize(Code(None, Instr(opcode, fs))) == 2 + Sizes(fs)
    ensures var r := RunLine(Absolute(org), st, Code(None, Instr(opcode, fs)), junk);
            var mid := GenFields(Absolute(org), st.(pc := st.pc + 2), st.pc, fs);
            r.code == Store(mid.code, st.pc, WordShape.Bytes(opcode)) && (!r.errors ==> !mid.errors)
  {
    hide GenFields, Store, Sizes, LostBits, Shape.Bytes;
  }

  /** What the assembler leaves at the line: the opcode, then the extension words of the source,
      then those of the destination. */
  lemma InstrStores(org: int, st: State, w: nat, t: nat, src: Operand, dst: Operand, junk: int)
    requires Writable(src) && Writable(dst) && st.pc + LineSize(InstrLine(w, t, src, dst)) <= |st.code|
    ensures var r, at := RunLine(Absolute(org), st, InstrLine(w, t, src, dst), junk), st.pc + org;
            var e := ExtBytes(t, src, at + 2);
            && |InstrBytes(w, t, src, dst, at)| == LineSize(InstrLine(w, t, src, dst))
            && r.code == Store(st.code, st.pc, InstrBytes(w, t, src, dst, at))
            && (!r.errors ==> Clean(Absolute(org), t, src, at + 2) && Clean(Absolute(org), t, dst, at + 2 + |e|))
  {
    hide ExtBytes, Clean, OpFields, GenFields, Store, Shape.Bytes, RunLine, Sizes;
    SizesAppend(OpFields(t, src), OpFields(t, dst));
    var e, f := ExtStores(org, st.(pc := st.pc + 2), st.pc, t, src, dst);
    RunInstr(org, st, w, OpFields(t, src) + OpFields(t, dst), junk);
    var head := WordShape.Bytes(w);
    StoreBefore(st.code, st.pc, head, e + f);
    StoreTwice(st.code, st.pc, head, e + f);
    assert head + (e + f) == head + e + f;
  }

  lemma ExtStores(org: int, st: State, here: nat, t: nat, src: Operand, dst: Operand)
    returns (e: seq<Byte>, f: seq<Byte>)
    requires Writable(src) && Writable(dst) && st.pc + Sizes(OpFields(t, src)) + Sizes(OpFields(t, dst)) <= |st.code|
    ensures e == ExtBytes(t, src, st.pc + org) && f == ExtBytes(t, dst, st.pc + |e| + org)
    ensures |e| == Sizes(OpFields(t, src)) && |f| == Sizes(OpFields(t, dst))
    ensures Sizes(OpFields(t, src) + OpFields(t, dst)) == |e| + |f|
    ensures var r := GenFields(Absolute(org), st, here, OpFields(t, src) + OpFields(t, dst));
            && r.code == Store(st.code, st.pc, e + f)
            && (!r.errors ==>
                  Clean(Absolute(org), t, src, st.pc + org) && Clean(Absolute(org), t, dst, st.pc + |e| + org))
  {
    hide ExtBytes, Clean, OpFields, GenFields, Store, Sizes;
    e, f := ExtBytes(t, src, st.pc + org), [];
    GenFieldsAppend(Absolute(org), st, here, OpFields(t, src), OpFields(t, dst));
    GenOperand(org, st, here, t, src);
    var mid := GenFields(Absolute(org), st, here, OpFields(t, src));
    GenOperand(org, mid, here, t, dst);
    f := ExtBytes(t, dst, mid.pc + org);
    StoreTwice(st.code, st.pc, e, f);
  }

  lemma {:induction false} SizesAppend(a: seq<Field>, b: seq<Field>)
    ensures Sizes(a + b) == Sizes(a) + Sizes(b)
    decreases |a|
  {
    if a == [] {
      assert a + b == b;
    } else {
      assert (a + b)[1..] == a[1..] + b;
      SizesAppend(a[1..], b);
    }
  }

  // ---- Reading it back.

  /** The operands hold C ints. */
  predicate CInts(o: Operand) {
    match o
    case Disp(d, _) => -0x8000_0000 <= d < 0x8000_0000
    case Index(d, _, _, _) => -0x8000_0000 <= d < 0x8000_0000
    case AbsWord(a) => -0x8000_0000 <= a < 0x8000_0000
    case AbsLong(a) => -0x8000_0000 <= a < 0x8000_0000
    case PcDisp(a) => -0x8000_0000 <= a < 0x8000_0000
    case PcIndex(a, _, _) => -0x8000_0000 <= a < 0x8000_0000
    case Imm(v) => -0x8000_0000 <= v < 0x8000_0000
    case _ => true
  }

  function ImmModulus(t: nat): nat {
    if t == D.SZ_BYTE then 0x100 else if t == D.SZ_WORD then 0x1_0000 else 0x1_0000_0000
  }

  /** The operand shown is the one written: the same mode and registers, and the same value.
      Immediates agree modulo their size and targets as unsigned numbers; the assembler also takes
      index displacements from 128 to 255 (opcode.c:512), which are shown as the negative byte they
      encode. */
  predicate Same(t: nat, mask: nat, at: int, o: Operand, shown: Operand)
  {
    match o
    case Imm(v) => shown.Imm? && (v - shown.v) % ImmModulus(t) == 0
    case Index(d, n, x, long) => shown.Index? && shown == D.Index(shown.d, n, x, long)
                                 && shown.d == if d < 128 then d else d - 256
    case PcDisp(a) => shown == D.PcDisp(D.Masked(mask, a))
    case PcIndex(a, x, long) =>
      shown == D.PcIndex((if OperandValue(o, at) < 128 then a else a - 256) % 0x1_0000_0000, x, long)
    case _ => shown == o
  }

  lemma ReadsWord(mem: D.Memory, at: int, v: int)
    requires mem(at) == v / 256 % 256 && mem(at + 1) == v % 256
    ensures D.SW(mem, at) == D.S16(v) && (at % 2 == 0 ==> !D.BadWord(mem, at))
  {
    WordBytes(v);
    WordModulo(v);
  }

  lemma WordModulo(v: int)
    ensures D.S16(v % 0x1_0000) == D.S16(v)
  {
    AddMultiple(v % 0x1_0000 + 0x8000, v / 0x1_0000, 0x1_0000);
  }

  lemma ReadsUnsigned(mem: D.Memory, at: int, v: int)
    requires mem(at) == v / 256 % 256 && mem(at + 1) == v % 256
    ensures D.UW(mem, at) == v % 0x1_0000
  {
    WordBytes(v);
  }

  lemma ReadsLong(mem: D.Memory, at: int, v: int)
    requires mem(at) == v / 0x100_0000 % 256 && mem(at + 1) == v / 0x1_0000 % 256
    requires mem(at + 2) == v / 256 % 256 && mem(at + 3) == v % 256
    ensures D.SL(mem, at) == D.S32(v) && (at % 2 == 0 ==> !D.BadLong(mem, at))
  {
    var h := v / 0x1_0000;
    var g := h / 0x1_0000;
    assert v / 0x100_0000 == h / 256;
    ReadsUnsigned(mem, at, h);
    ReadsUnsigned(mem, at + 2, v);
    hide D.UW;
    var rest := h % 0x1_0000 * 0x1_0000 + v % 0x1_0000;
    assert v == rest + g * 0x1_0000_0000;
    AddMultiple(rest + 0x8000_0000, g, 0x1_0000_0000);
  }

  /** The bytes are in memory. */
  ghost predicate InMemory(mem: D.Memory, at: int, bytes: seq<Byte>) {
    forall i :: 0 <= i < |bytes| ==> mem(at + i) == bytes[i]
  }

  /** An operand that the assembler accepts is read back. */
  lemma OperandDecodes(org: int, t: nat, o: Operand, at: int, mem: D.Memory, mask: nat, reg: nat)
    requires Writable(o) && CInts(o) && t <= D.SZ_LONG
    requires Clean(Absolute(org), t, o, at) && InMemory(mem, at, ExtBytes(t, o, at))
    requires at % 2 == 0 && 0 <= at < 0x8000_0000 && (ModeOf(o) < 7 ==> reg == OpMode(o) % 8)
    ensures |ExtBytes(t, o, at)| == D.EaSize(ModeOf(o), t)
    ensures Same(t, mask, at, o, D.EaOperand(mem, mask, at, ModeOf(o), reg, t))
    ensures !D.EaError(mem, at, ModeOf(o), t)
  {
    hide D.SW, D.SL, D.BadWord, D.BadLong, Int32, D.BadImmediate, Clean;
    if o.AbsLong? || (o.Imm? && t == D.SZ_LONG) {
      LongDecodes(t, o, at, mem, mask, reg);
    } else if o.Index? || o.PcIndex? {
      IndexDecodes(org, t, o, at, mem, mask, reg);
    } else if o.Imm? {
      ImmediateDecodes(org, t, o, at, mem, mask, reg);
    } else if o.Disp? || o.AbsWord? || o.PcDisp? {
      WordDecodes(org, t, o, at, mem, mask, reg);
    }
  }

  /** What a long operand leaves in memory. */
  lemma LongFacts(t: nat, o: Operand, at: int, mem: D.Memory) returns (v: int)
    requires Writable(o) && CInts(o) && (o.AbsLong? || (o.Imm? && t == D.SZ_LONG))
             && InMemory(mem, at, ExtBytes(t, o, at))
    ensures |ExtBytes(t, o, at)| == 4 && v == (if o.Imm? then o.v else o.a) && -0x8000_0000 <= v < 0x8000_0000
    ensures mem(at) == v / 0x100_0000 % 256 && mem(at + 1) == v / 0x1_0000 % 256
    ensures mem(at + 2) == v / 256 % 256 && mem(at + 3) == v % 256
  {
    v := if o.Imm? then o.v else o.a;
    SmallStays(v);
    hide Int32;
    var e := ExtBytes(t, o, at);
    assert mem(at + 0) == e[0] && mem(at + 1) == e[1] && mem(at + 2) == e[2] && mem(at + 3) == e[3];
  }

  lemma LongDecodes(t: nat, o: Operand, at: int, mem: D.Memory, mask: nat, reg: nat)
    requires Writable(o) && CInts(o) && at % 2 == 0 && (o.AbsLong? || (o.Imm? && t == D.SZ_LONG))
    requires InMemory(mem, at, ExtBytes(t, o, at))
    ensures |ExtBytes(t, o, at)| == 4 == D.EaSize(ModeOf(o), t) && !D.EaError(mem, at, ModeOf(o), t)
    ensures Same(t, mask, at, o, D.EaOperand(mem, mask, at, ModeOf(o), reg, t))
  {
    hide ExtBytes, InMemory, D.SL, D.BadLong, D.EaOperand, D.EaError, D.EaSize, D.S32;
    var v := LongFacts(t, o, at, mem);
    ReadsLong(mem, at, v);
    LongStays(v);
    if o.Imm? {
      EaLongImmediate(mem, mask, at, reg);
    } else {
      EaLongAddress(mem, mask, at, reg, t);
    }
  }

  lemma LongStays(v: int)
    requires -0x8000_0000 <= v < 0x8000_0000
    ensures D.S32(v) == v && (v - v % 0x1_0000_0000) % 0x1_0000_0000 == 0
  {}

  lemma EaLongAddress(mem: D.Memory, mask: nat, at: int, reg: nat, t: nat)
    ensures D.EaOperand(mem, mask, at, D.MODE_ABSL, reg, t)
            == D.AbsLong(D.SL(mem, at))
    ensures D.EaError(mem, at, D.MODE_ABSL, t) == D.BadLong(mem, at)
    ensures D.EaSize(D.MODE_ABSL, t) == 4
  {
    hide D.SL, D.SW;
  }

  lemma EaLongImmediate(mem: D.Memory, mask: nat, at: int, reg: nat)
    ensures D.EaOperand(mem, mask, at, D.MODE_IMM, reg, D.SZ_LONG)
            == D.Imm(D.SL(mem, at) % 0x1_0000_0000)
    ensures D.EaError(mem, at, D.MODE_IMM, D.SZ_LONG) == D.BadLong(mem, at)
    ensures D.EaSize(D.MODE_IMM, D.SZ_LONG) == 4
  {
    hide D.SL, D.SW;
  }

  /** What an indexed operand leaves in memory. */
  lemma IndexFacts(org: int, t: nat, o: Operand, at: int, mem: D.Memory) returns (d: int)
    requires Writable(o) && CInts(o) && 0 <= at < 0x8000_0000 && (o.Index? || o.PcIndex?)
    requires Clean(Absolute(org), t, o, at) && InMemory(mem, at, ExtBytes(t, o, at))
    ensures |ExtBytes(t, o, at)| == 2 && d == OperandValue(o, at) && -128 <= d <= 255
    ensures var u := d % 256 + IndexBase(o.x, o.long); mem(at) == u / 256 % 256 && mem(at + 1) == u % 256
  {
    d := OperandValue(o, at);
    ExtIndex(t, o, at);
    CleanIndex(org, t, o, at);
    hide ExtBytes, OperandValue, IndexBase, Clean, CInts;
    var e := ExtBytes(t, o, at);
    assert mem(at + 0) == e[0] && mem(at + 1) == e[1];
  }

  lemma ExtIndex(t: nat, o: Operand, at: int)
    requires Writable(o) && (o.Index? || o.PcIndex?)
    ensures ExtBytes(t, o, at) == LowShape(IndexBase(o.x, o.long)).Bytes(OperandValue(o, at))
  {
    hide OperandValue, Shape.Bytes, IndexBase;
  }

  lemma CleanIndex(org: int, t: nat, o: Operand, at: int)
    requires Writable(o) && (o.Index? || o.PcIndex?) && Clean(Absolute(org), t, o, at)
    ensures -128 <= OperandValue(o, at) <= 255
  {
    hide OperandValue, IndexBase;
  }

  lemma IndexDecodes(org: int, t: nat, o: Operand, at: int, mem: D.Memory, mask: nat, reg: nat)
    requires Writable(o) && CInts(o) && at % 2 == 0 && 0 <= at < 0x8000_0000 && (o.Index? || o.PcIndex?)
    requires Clean(Absolute(org), t, o, at) && InMemory(mem, at, ExtBytes(t, o, at)) && (o.Index? ==> reg == o.n)
    ensures |ExtBytes(t, o, at)| == 2 == D.EaSize(ModeOf(o), t) && !D.EaError(mem, at, ModeOf(o), t)
    ensures Same(t, mask, at, o, D.EaOperand(mem, mask, at, ModeOf(o), reg, t))
  {
    hide ExtBytes, InMemory, Clean, IndexBase, CInts, OperandValue, D.SW, D.BadWord, D.S8, D.EaOperand, D.EaError,
      D.EaSize;
    var d := IndexFacts(org, t, o, at, mem);
    IndexWord(d, o.x, o.long, mem, at);
    var k := DistanceStays(o, at);
    ByteShown(d);
    EaIndex(mem, mask, at, reg, t, o.x, o.long);
    if o.PcIndex? {
      Wraps(if d < 128 then o.a else o.a - 256, k);
    }
  }

  lemma ByteShown(d: int)
    requires -128 <= d <= 255
    ensures D.S8(d) == if d < 128 then d else d - 256
  {}

  lemma EaIndex(mem: D.Memory, mask: nat, at: int, reg: nat, t: nat, x: nat, long: bool)
    requires var v := D.SW(mem, at); v / 4096 % 16 == x && v / 2048 % 2 == AsInt(long)
    ensures var d := D.S8(D.SW(mem, at));
            && D.EaOperand(mem, mask, at, D.MODE_DANXI, reg, t) == D.Index(d, reg, x, long)
            && D.EaOperand(mem, mask, at, D.MODE_DPCXI, reg, t)
               == D.PcIndex((at + d) % 0x1_0000_0000, x, long)
    ensures forall m <- [D.MODE_DANXI, D.MODE_DPCXI] ::
              D.EaSize(m, t) == 2 && D.EaError(mem, at, m, t) == D.BadWord(mem, at)
  {
    hide D.SL, D.SW, D.S8, D.Masked;
  }

  lemma Wraps(x: int, k: int)
    ensures (x + k * 0x1_0000_0000) % 0x1_0000_0000 == x % 0x1_0000_0000
  {
    AddMultiple(x, k, 0x1_0000_0000);
  }

  /** Values do not wrap; distances between addresses are right modulo 2^32. */
  lemma DistanceStays(o: Operand, at: int) returns (k: int)
    requires CInts(o) && 0 <= at < 0x8000_0000
    ensures o.Disp? || o.Index? ==> OperandValue(o, at) == o.d
    ensures o.AbsWord? || o.AbsLong? ==> OperandValue(o, at) == o.a
    ensures o.PcDisp? || o.PcIndex? ==> OperandValue(o, at) == o.a - at + k * 0x1_0000_0000
    ensures o.Imm? ==> OperandValue(o, at) == o.v
  {
    SmallStays(at);
    k := 0;
    if o.Disp? || o.Index? { SmallStays(o.d); }
    if o.AbsWord? || o.AbsLong? { SmallStays(o.a); }
    if o.PcDisp? || o.PcIndex? {
      SmallStays(o.a);
      k := Int32Off(o.a - at);
    }
    if o.Imm? { SmallStays(o.v); }
    hide Int32;
  }

  /** What a word operand leaves in memory. */
  lemma WordFacts(org: int, t: nat, o: Operand, at: int, mem: D.Memory) returns (v: int)
    requires Writable(o) && CInts(o) && 0 <= at < 0x8000_0000
    requires o.Disp? || o.AbsWord? || o.PcDisp? || (o.Imm? && t < D.SZ_LONG)
    requires Clean(Absolute(org), t, o, at) && InMemory(mem, at, ExtBytes(t, o, at))
    ensures |ExtBytes(t, o, at)| == 2 && v == OperandValue(o, at)
    ensures mem(at) == v / 256 % 256 && mem(at + 1) == v % 256
    ensures -32768 <= v <= 65535 && (!o.Imm? ==> v < 32768) && (o.Imm? && t == D.SZ_BYTE ==> -128 <= v <= 255)
  {
    hide Int32, OperandValue;
    v := OperandValue(o, at);
    var e := ExtBytes(t, o, at);
    assert mem(at + 0) == e[0] && mem(at + 1) == e[1];
  }

  lemma WordDecodes(org: int, t: nat, o: Operand, at: int, mem: D.Memory, mask: nat, reg: nat)
    requires Writable(o) && CInts(o) && at % 2 == 0 && 0 <= at < 0x8000_0000 && (o.Disp? || o.AbsWord? || o.PcDisp?)
    requires Clean(Absolute(org), t, o, at) && InMemory(mem, at, ExtBytes(t, o, at)) && (o.Disp? ==> reg == o.n)
    ensures |ExtBytes(t, o, at)| == 2 == D.EaSize(ModeOf(o), t) && !D.EaError(mem, at, ModeOf(o), t)
    ensures Same(t, mask, at, o, D.EaOperand(mem, mask, at, ModeOf(o), reg, t))
  {
    hide ExtBytes, InMemory, Clean, D.SW, D.BadWord, D.EaOperand, D.EaError, D.EaSize, D.S16, D.Masked, OperandValue,
      CInts;
    var v := WordFacts(org, t, o, at, mem);
    ReadsWord(mem, at, v);
    var k := DistanceStays(o, at);
    ShortStays(v);
    EaWord(mem, mask, at, reg, t);
    if o.PcDisp? {
      MaskedWraps(mask, o.a, k);
    }
  }

  lemma ShortStays(v: int)
    requires -32768 <= v < 32768
    ensures D.S16(v) == v
  {}

  lemma MaskedWraps(mask: nat, x: int, k: int)
    ensures D.Masked(mask, x + k * 0x1_0000_0000) == D.Masked(mask, x)
  {
    hide Bitwise;
    Wraps(x, k);
  }

  lemma EaWord(mem: D.Memory, mask: nat, at: int, reg: nat, t: nat)
    ensures var v := D.SW(mem, at);
            && D.EaOperand(mem, mask, at, D.MODE_DAN, reg, t) == D.Disp(v, reg)
            && D.EaOperand(mem, mask, at, D.MODE_ABSW, reg, t) == D.AbsWord(v)
            && D.EaOperand(mem, mask, at, D.MODE_DPC, reg, t)
               == D.PcDisp(D.Masked(mask, at + v))
    ensures forall m <- [D.MODE_DAN, D.MODE_ABSW, D.MODE_DPC] ::
              D.EaSize(m, t) == 2 && D.EaError(mem, at, m, t) == D.BadWord(mem, at)
  {
    hide D.SL, D.SW, D.Masked;
  }

  lemma ImmediateDecodes(org: int, t: nat, o: Operand, at: int, mem: D.Memory, mask: nat, reg: nat)
    requires Writable(o) && CInts(o) && at % 2 == 0 && 0 <= at < 0x8000_0000 && o.Imm? && t < D.SZ_LONG
    requires Clean(Absolute(org), t, o, at) && InMemory(mem, at, ExtBytes(t, o, at))
    ensures |ExtBytes(t, o, at)| == 2 == D.EaSize(ModeOf(o), t) && !D.EaError(mem, at, ModeOf(o), t)
    ensures Same(t, mask, at, o, D.EaOperand(mem, mask, at, ModeOf(o), reg, t))
  {
    hide ExtBytes, InMemory, Clean, CInts, OperandValue, D.SW, D.S16, D.S8, D.BadWord, D.BadImmediate, D.EaOperand,
      D.EaError, D.EaSize;
    var v := WordFacts(org, t, o, at, mem);
    var _ := DistanceStays(o, at);
    ReadsWord(mem, at, v);
    EaImmediate(mem, mask, at, reg);
    if t == D.SZ_BYTE { ByteImmediate(v); } else { WordImmediate(v); }
  }

  lemma EaImmediate(mem: D.Memory, mask: nat, at: int, reg: nat)
    ensures var v := D.SW(mem, at);
            var b := D.S8(v);
            && D.EaOperand(mem, mask, at, D.MODE_IMM, reg, D.SZ_BYTE)
               == D.Imm(if b < -0x3f then b % 256 else b)
            && D.EaOperand(mem, mask, at, D.MODE_IMM, reg, D.SZ_WORD)
               == D.Imm(if v < -0x3fff then v % 0x1_0000 else v)
            && (D.EaError(mem, at, D.MODE_IMM, D.SZ_BYTE)
                <==> D.BadWord(mem, at) || D.BadImmediate(v))
    ensures D.EaError(mem, at, D.MODE_IMM, D.SZ_WORD) == D.BadWord(mem, at)
    ensures forall t <- [D.SZ_BYTE, D.SZ_WORD] :: D.EaSize(D.MODE_IMM, t) == 2
  {
    hide D.SL, D.SW, D.S8, D.Masked;
  }

  lemma ByteImmediate(v: int)
    requires -128 <= v <= 255
    ensures var w := D.S16(v);
            var b := D.S8(w);
            !D.BadImmediate(w) && (v - (if b < -0x3f then b % 256 else b)) % 256 == 0
  {
    assert D.S16(v) == v;
    assert D.S8(v) == if v < 128 then v else v - 256;
  }

  lemma WordImmediate(v: int)
    requires -32768 <= v <= 65535
    ensures var w := D.S16(v); (v - (if w < -0x3fff then w % 0x1_0000 else w)) % 0x1_0000 == 0
  {
    assert D.S16(v) == if v < 32768 then v else v - 0x1_0000;
  }

  /** The control word of an indexed operand. */
  lemma IndexWord(v: int, x: nat, long: bool, mem: D.Memory, at: int)
    requires x < 16 && at % 2 == 0
    requires var u := v % 256 + IndexBase(x, long); mem(at) == u / 256 % 256 && mem(at + 1) == u % 256
    ensures var w := D.SW(mem, at);
            D.S8(w) == D.S8(v) && w / 4096 % 16 == x && w / 2048 % 2 == AsInt(long)
    ensures !D.BadWord(mem, at)
  {
    hide D.SW, D.BadWord;
    var u := v % 256 + IndexBase(x, long);
    ReadsWord(mem, at, u);
    ControlWord(x, AsInt(long), v % 256);
    hide D.S16;
    var w := D.S16(u);
    SameByte(w, v, (w - v % 256) / 256);
  }

  lemma S16Of(u: nat)
    requires u < 0x1_0000
    ensures D.S16(u) == if u < 0x8000 then u else u - 0x1_0000
  {}

  lemma ControlWord(x: nat, b: nat, lo: nat)
    requires x < 16 && b < 2 && lo < 256
    ensures var w := D.S16(x * 4096 + b * 2048 + lo);
            w / 4096 % 16 == x && w / 2048 % 2 == b && (w - lo) % 256 == 0
  {
    hide D.S16;
    var y := if x < 8 then x as int else x - 16;
    var w := y * 4096 + b * 2048 + lo;
    S16Of(x * 4096 + b * 2048 + lo);
    DivUnique(w, 4096, y, b * 2048 + lo);
    DivUnique(w, 2048, 2 * y + b, lo);
    DivUnique(w - lo, 256, 16 * y + 8 * b, 0);
  }

  lemma SameByte(w: int, v: int, k: int)
    requires w == k * 256 + v % 256
    ensures D.S8(w) == D.S8(v)
  {}

  /** What desa68 lists at `start` is this MOVE: its name, which tells whether it goes to an address
      register, its size, and the source before the destination, without errors and with no byte more.
      A byte move of an address register is listed as data. */
  predicate Listed(t: nat, src: Operand, dst: Operand, mem: D.Memory, mask: nat, start: int)
    requires Writable(src) && Writable(dst)
  {
    var w := D.UW(mem, start);
    && !D.BadWord(mem, start) && 1 <= D.LineOf(w) <= 3
    && var l := D.ListLine(mem, mask, start + 2, w);
       if t == D.SZ_BYTE && (src.AddrReg? || dst.AddrReg?) then l == D.DATA_WORD
       else
         && l.name == (if dst.AddrReg? then "MOVEA" else "MOVE") && l.size == t && |l.ops| == 2 && !l.error
         && Same(t, mask, start + 2, src, l.ops[0])
         && Same(t, mask, start + 2 + Sizes(OpFields(t, src)), dst, l.ops[1])
         && D.Length(w) == LineSize(MoveLine(t, src, dst))
  }

  /** Operand `o` of size `t` is read back from `at` on, and no byte more. */
  predicate Shown(t: nat, o: Operand, mem: D.Memory, mask: nat, at: int)
    requires Writable(o)
  {
    && Same(t, mask, at, o, D.EaOperand(mem, mask, at, ModeOf(o), OpMode(o) % 8, t))
    && !D.EaError(mem, at, ModeOf(o), t) && D.EaSize(ModeOf(o), t) == Sizes(OpFields(t, o))
  }

  /** What is left in memory by an opcode with the extension words of two operands. */
  lemma OperandsRead(w: nat, t: nat, src: Operand, dst: Operand, org: int, st: State, junk: int, mem: D.Memory,
        mask: nat)
    requires w < 0x1_0000 && Writable(src) && Writable(dst) && CInts(src) && CInts(dst) && t <= D.SZ_LONG
    requires st.pc + LineSize(InstrLine(w, t, src, dst)) <= |st.code|
    requires var start := st.pc + org; start % 2 == 0 && 0 <= start < 0x7fff_ffe0
    requires var r := RunLine(Absolute(org), st, InstrLine(w, t, src, dst), junk);
             !r.errors && forall i :: st.pc <= i < r.pc ==> mem(org + i) == r.code[i]
    ensures var start := st.pc + org;
            && D.UW(mem, start) == w && !D.BadWord(mem, start)
            && Clean(Absolute(org), t, src, start + 2) && InMemory(mem, start + 2, ExtBytes(t, src, start + 2))
            && Shown(t, src, mem, mask, start + 2)
            && Shown(t, dst, mem, mask, start + 2 + Sizes(OpFields(t, src)))
    ensures LineSize(InstrLine(w, t, src, dst)) == 2 + Sizes(OpFields(t, src)) + Sizes(OpFields(t, dst))
  {
    hide ExtBytes, Clean, D.EaOperand, D.EaError, Same, InstrBytes, RunLine, Store, D.EaSize, OpMode, ModeOf, CInts,
      OpFields, LineSize, D.UW, D.BadWord, InMemory, Writable, Sizes;
    var start, e := st.pc + org, ExtBytes(t, src, st.pc + org + 2);
    InstrStores(org, st, w, t, src, dst, junk);
    InstrBytesLength(w, t, src, dst, start);
    BytesInMemory(mem, org, st, RunLine(Absolute(org), st, InstrLine(w, t, src, dst), junk).code, w, t, src, dst);
    WordReads(mem, start, w);
    OperandDecodes(org, t, src, start + 2, mem, mask, OpMode(src) % 8);
    EvenSize(ModeOf(src), t);
    OperandDecodes(org, t, dst, start + 2 + |e|, mem, mask, OpMode(dst) % 8);
    ExtLength(t, src, start + 2);
    ExtLength(t, dst, start + 2 + |e|);
  }

  /** MOVE, written and listed again: whatever as68 assembles without an error at an even address,
      desa68 lists with the same size, modes, registers and values, reading the extension words
      where they were put; all but byte moves of address registers, which it takes for data. */
  lemma MoveRoundTrip(t: nat, src: Operand, dst: Operand, org: int, st: State, junk: int, mem: D.Memory, mask: nat)
    requires Writable(src) && Writable(dst) && CInts(src) && CInts(dst) && t <= D.SZ_LONG && MoveAccepted(dst)
    requires st.pc + LineSize(MoveLine(t, src, dst)) <= |st.code|
    requires var start := st.pc + org; start % 2 == 0 && 0 <= start < 0x7fff_ffe0
    requires var r := RunLine(Absolute(org), st, MoveLine(t, src, dst), junk);
             !r.errors && forall i :: st.pc <= i < r.pc ==> mem(org + i) == r.code[i]
    ensures Listed(t, src, dst, mem, mask, st.pc + org)
  {
    hide MoveOpcode, D.EaOperand, D.EaError, Same, RunLine, D.EaSize, OpMode, ModeOf, MoveAccepted, CInts, D.MoveValid,
      OpFields, LineSize, D.LineOf, D.MoveSize, D.Reg0, D.Reg9, D.Adrm0, D.Adrm6, D.UW, D.BadWord, Writable, Listed,
      Sizes, Clean, InMemory, InstrLine;
    var w, start := MoveOpcode(t, src, dst), st.pc + org;
    OpcodeDecodes(t, src, dst);
    OperandsRead(w, t, src, dst, org, st, junk, mem, mask);
    var b := start + 2 + Sizes(OpFields(t, src));
    AnyRegister(t, src, mem, mask, start + 2, D.Reg0(w));
    AnyRegister(t, dst, mem, mask, b, D.Reg9(w));
    MoveIsListed(t, src, dst, mem, mask, start, w, b);
  }

  /** Operands from mode 7 on have no register. */
  lemma AnyRegister(t: nat, o: Operand, mem: D.Memory, mask: nat, at: int, reg: nat)
    requires Writable(o) && (ModeOf(o) < 7 ==> reg == OpMode(o) % 8)
    ensures D.EaOperand(mem, mask, at, ModeOf(o), reg, t) == D.EaOperand(mem, mask, at, ModeOf(o), OpMode(o) % 8, t)
  {
    hide D.SW, D.SL, D.S8, D.Masked, OpMode, ModeOf;
  }

  lemma ExtLength(t: nat, o: Operand, at: int)
    requires Writable(o)
    ensures |ExtBytes(t, o, at)| == Sizes(OpFields(t, o))
  {
    hide OperandValue, Shape.Bytes;
    if OpFields(t, o) != [] {
      assert OpFields(t, o)[1..] == [];
    }
  }

  /** The listing of a MOVE from its parts. */
  lemma MoveIsListed(t: nat, src: Operand, dst: Operand, mem: D.Memory, mask: nat, start: int, w: nat, b: int)
    requires Writable(src) && Writable(dst) && w < 0x1_0000 && D.UW(mem, start) == w && !D.BadWord(mem, start)
    requires 1 <= D.LineOf(w) <= 3 && D.MoveSize(w) == t && b == start + 2 + Sizes(OpFields(t, src))
    requires D.Adrm0(w) == ModeOf(src) && D.Adrm6(w) == ModeOf(dst) && D.EaSize(ModeOf(src), t) == b - start - 2
    requires D.MoveValid(w) <==> !(t == D.SZ_BYTE && (src.AddrReg? || dst.AddrReg?))
    requires Same(t, mask, start + 2, src, D.EaOperand(mem, mask, start + 2, ModeOf(src), D.Reg0(w), t))
    requires Same(t, mask, b, dst, D.EaOperand(mem, mask, b, ModeOf(dst), D.Reg9(w), t))
    requires !D.EaError(mem, start + 2, ModeOf(src), t) && !D.EaError(mem, b, ModeOf(dst), t)
    requires 2 + D.EaSize(ModeOf(src), t) + D.EaSize(ModeOf(dst), t) == LineSize(MoveLine(t, src, dst))
    ensures Listed(t, src, dst, mem, mask, start)
  {
    hide D.EaOperand, D.EaError, Same, D.EaSize, D.MoveValid, OpFields, Sizes, D.Length, LineSize, D.LineOf, D.MoveSize,
      D.Reg0, D.Reg9, D.Adrm0, D.Adrm6, D.UW, D.BadWord, Writable;
    if D.MoveValid(w) { MoveLength(w, t); }
  }

  lemma InstrBytesLength(w: nat, t: nat, src: Operand, dst: Operand, at: int)
    requires Writable(src) && Writable(dst)
    ensures var e := ExtBytes(t, src, at + 2);
            |InstrBytes(w, t, src, dst, at)| == 2 + |e| + |ExtBytes(t, dst, at + 2 + |e|)|
  {
    hide ExtBytes;
  }

  lemma MoveLength(w: nat, t: nat)
    requires w < 0x1_0000 && 1 <= D.LineOf(w) <= 3 && D.MoveSize(w) == t && D.MoveValid(w)
    ensures D.Length(w) == 2 + D.EaSize(D.Adrm0(w), t) + D.EaSize(D.Adrm6(w), t)
  {}

  lemma EvenSize(m: nat, t: nat)
    ensures D.EaSize(m, t) % 2 == 0 && D.EaSize(m, t) <= 4
  {}

  lemma WordReads(mem: D.Memory, at: int, w: nat)
    requires w < 0x1_0000 && at % 2 == 0 && mem(at) == w / 256 % 256 && mem(at + 1) == w % 256
    ensures D.UW(mem, at) == w && !D.BadWord(mem, at)
  {}

  lemma BytesInMemory(mem: D.Memory, org: int, st: State, code: seq<Byte>, w: nat, t: nat, src: Operand,
        dst: Operand)
    requires Writable(src) && Writable(dst)
    requires var bytes := InstrBytes(w, t, src, dst, st.pc + org);
             && st.pc + |bytes| <= |st.code| && code == Store(st.code, st.pc, bytes)
             && forall i :: st.pc <= i < st.pc + |bytes| ==> mem(org + i) == code[i]
    ensures var start := st.pc + org;
            var e := ExtBytes(t, src, start + 2);
            && mem(start) == w / 256 % 256 && mem(start + 1) == w % 256
            && InMemory(mem, start + 2, e) && InMemory(mem, start + 2 + |e|, ExtBytes(t, dst, start + 2 + |e|))
  {
    hide ExtBytes;
    var start := st.pc + org;
    var e := ExtBytes(t, src, start + 2);
    var f := ExtBytes(t, dst, start + 2 + |e|);
    var bytes := InstrBytes(w, t, src, dst, start);
    forall i | 0 <= i < |bytes| ensures mem(start + i) == bytes[i] {
      assert mem(org + (st.pc + i)) == code[st.pc + i];
    }
    assert mem(start + 0) == bytes[0] && mem(start + 1) == bytes[1];
    forall i | 0 <= i < |e| ensures mem(start + 2 + i) == e[i] {
      assert mem(start + (2 + i)) == bytes[2 + i];
    }
    forall i | 0 <= i < |f| ensures mem(start + 2 + |e| + i) == f[i] {
      assert mem(start + (2 + |e| + i)) == bytes[2 + |e| + i];
    }
  }
}
