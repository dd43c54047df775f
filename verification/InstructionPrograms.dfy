/** Every instruction of as68 that has operands as op() takes them, anywhere in a program: what desa68
    lists for it, in the image assembled at an origin or relocated to it. */
module InstructionPrograms {
  import opened Options
  import opened BitStacks
  import opened Assembly
  import opened Relocation
  import opened RelocationTheorem
  import opened MoveCoding
  import opened MovePrograms
  import opened Instructions
  import D = Disassembly

  /** What desa68 makes of the memory at `start`: this instruction, exactly when the two programs agree on
      it, with the same operands and as many bytes. */
  predicate InstructionListed(op: Op, t: nat, src: Operand, dst: Operand, mem: D.Memory, mask: nat, start: int)
    requires Takes(op, t, src, dst)
  {
    var w := D.UW(mem, start);
    && !D.BadWord(mem, start) && w == Opcode(op, t, src, dst)
    && Settled(op, t, src, dst, mask, start + 2, D.ListLine(mem, mask, start + 2, w), D.Length(w))
  }

  lemma OpcodeWord(op: Op, t: nat, src: Operand, dst: Operand)
    requires Takes(op, t, src, dst)
    ensures Opcode(op, t, src, dst) < 0x1_0000
    ensures At(Opcode(op, t, src, dst), FieldsOf(op, t, src, dst))
  {
    hide Takes, Opcode, FieldsOf, At;
    OpcodePlace(op, t, src, dst);
    FieldsAt(Opcode(op, t, src, dst), FieldsOf(op, t, src, dst));
    WordAt(Opcode(op, t, src, dst), FieldsOf(op, t, src, dst));
  }

  lemma WordAt(w: nat, p: Fields)
    requires At(w, p)
    ensures w < 0x1_0000
  {}

  lemma StoredAsWord(org: int, t: nat, o: Operand, mem: D.Memory, at: int)
    requires Writable(o) && CInts(o) && t <= D.SZ_LONG && at % 2 == 0 && 0 <= at < 0x8000_0000
    requires Clean(Absolute(org), t, o, at) && InMemory(mem, at, ExtBytes(t, o, at))
    ensures WordStored(t, o, mem, at)
  {
    hide Clean, InMemory, ExtBytes, CInts, OperandValue, D.SW, D.BadWord, D.S16;
    if o.Imm? && t <= D.SZ_WORD {
      var v := WordFacts(org, t, o, at, mem);
      var _ := DistanceStays(o, at);
      ReadsWord(mem, at, v);
    }
  }

  lemma TakenOperands(op: Op, t: nat, src: Operand, dst: Operand)
    requires Takes(op, t, src, dst)
    ensures Writable(src) && Writable(dst) && t <= D.SZ_LONG
  {}

  lemma InstructionGiven(op: Op, t: nat, src: Operand, dst: Operand, org: int, st: State, junk: int, mem: D.Memory,
        mask: nat)
    requires Takes(op, t, src, dst) && CInts(src) && CInts(dst)
    requires st.pc + LineSize(InstrLine(Opcode(op, t, src, dst), t, src, dst)) <= |st.code|
    requires var start := st.pc + org; start % 2 == 0 && 0 <= start < 0x7fff_ffe0
    requires var r := RunLine(Absolute(org), st, InstrLine(Opcode(op, t, src, dst), t, src, dst), junk);
             !r.errors && forall i :: st.pc <= i < r.pc ==> mem(org + i) == r.code[i]
    ensures var start := st.pc + org;
            && D.UW(mem, start) == Opcode(op, t, src, dst) && !D.BadWord(mem, start)
            && Given(op, t, src, dst, Opcode(op, t, src, dst), mem, mask, start + 2)
  {
    hide Takes, Opcode, FieldsOf, At, CInts, Clean, InMemory, Shown, WordStored, D.UW, D.BadWord, OpFields, Sizes,
      RunLine, LineSize, InstrLine, Writable;
    var w, start := Opcode(op, t, src, dst), st.pc + org;
    TakenOperands(op, t, src, dst);
    OpcodeWord(op, t, src, dst);
    OperandsRead(w, t, src, dst, org, st, junk, mem, mask);
    StoredAsWord(org, t, src, mem, start + 2);
  }

  /** An instruction, assembled and listed: whatever as68 assembles without an error at an even address. */
  lemma InstructionRoundTrip(op: Op, t: nat, src: Operand, dst: Operand, org: int, st: State, junk: int, mem: D.Memory,
        mask: nat)
    requires Takes(op, t, src, dst) && CInts(src) && CInts(dst)
    requires st.pc + LineSize(InstrLine(Opcode(op, t, src, dst), t, src, dst)) <= |st.code|
    requires var start := st.pc + org; start % 2 == 0 && 0 <= start < 0x7fff_ffe0
    requires var r := RunLine(Absolute(org), st, InstrLine(Opcode(op, t, src, dst), t, src, dst), junk);
             !r.errors && forall i :: st.pc <= i < r.pc ==> mem(org + i) == r.code[i]
    ensures InstructionListed(op, t, src, dst, mem, mask, st.pc + org)
  {
    hide Takes, Opcode, CInts, Given, Settled, D.UW, D.BadWord, D.ListLine, D.Length, RunLine, LineSize, InstrLine;
    InstructionGiven(op, t, src, dst, org, st, junk, mem, mask);
    OpcodeWord(op, t, src, dst);
    OpcodeListed(op, t, src, dst, Opcode(op, t, src, dst), mem, mask, st.pc + org + 2);
  }

  // ---- Programs.

  /** Line `k` of the program is this instruction, after an optional label. */
  predicate InstructionAt(lines: seq<Line>, k: nat, op: Op, m: Operands) {
    && k < |lines| && m.Valid() && Takes(op, m.t, m.src, m.dst) && lines[k].Code?
    && lines[k].body == Instr(Opcode(op, m.t, m.src, m.dst), m.Exts())
  }

  function SrcOf(lines: seq<Line>, k: nat, m: Operands, org: int): Operand
    requires LinearProgram(lines) && k < |lines| && m.Valid()
  {
    WithNumber(m.src, SrcNumber(m, EnvAt(Labels(lines, 0), lines, 0, k), Extent(lines[..k]), org))
  }

  function DstOf(lines: seq<Line>, k: nat, m: Operands, org: int): Operand
    requires LinearProgram(lines) && k < |lines| && m.Valid()
  {
    WithNumber(m.dst, DstNumber(m, EnvAt(Labels(lines, 0), lines, 0, k), Extent(lines[..k]), org))
  }

  /** A number changes neither what is accepted nor the opcode. */
  lemma StillTaken(op: Op, t: nat, src: Operand, dst: Operand, x: int, y: int)
    requires Takes(op, t, src, dst)
    ensures Takes(op, t, WithNumber(src, x), WithNumber(dst, y))
    ensures Opcode(op, t, WithNumber(src, x), WithNumber(dst, y)) == Opcode(op, t, src, dst)
  {
    TakenOperands(op, t, src, dst);
    SameKind(src, x);
    SameKind(dst, y);
    hide Takes, Opcode, WithNumber, Alike;
    SameTakes(op, t, src, dst, WithNumber(src, x), WithNumber(dst, y));
    SameOpcode(op, t, src, dst, WithNumber(src, x), WithNumber(dst, y));
  }

  predicate Alike(o: Operand, n: Operand)
    requires Writable(o)
  {
    && Writable(n) && OpMode(n) == OpMode(o) && Ea(n) == Ea(o)
    && Has(n, ALTERABLE) == Has(o, ALTERABLE) && Has(n, CONTROL) == Has(o, CONTROL)
    && Has(n, MEMORY) == Has(o, MEMORY) && Has(n, DATA) == Has(o, DATA)
    && n.Imm? == o.Imm? && n.DataReg? == o.DataReg? && n.AddrReg? == o.AddrReg? && n.PostInc? == o.PostInc?
    && n.PreDec? == o.PreDec? && n.Disp? == o.Disp? && (o.DataReg? ==> n == o) && (o.Disp? ==> n.n == o.n)
  }

  lemma SameKind(o: Operand, x: int)
    requires Writable(o)
    ensures Alike(o, WithNumber(o, x))
  {}

  lemma SameTakes(op: Op, t: nat, src: Operand, dst: Operand, src': Operand, dst': Operand)
    requires Takes(op, t, src, dst) && Alike(src, src') && Alike(dst, dst')
    ensures Takes(op, t, src', dst')
  {
    hide Takes, Alike;
    if op.ToData? || op.ToAddress? || op.FromData? || op.BitBy? || op.ShiftMemory? {
      SameAlu(op, t, src, dst, src', dst');
    } else if OneOperand(op) {
      SameOne(op, t, src, dst, src', dst');
    } else if TwoOperands(op) || ImmediateOnly(op) {
      SameTwo(op, t, src, dst, src', dst');
    } else {
      SameNone(op, t, src, dst, src', dst');
    }
  }

  lemma SameOpcode(op: Op, t: nat, src: Operand, dst: Operand, src': Operand, dst': Operand)
    requires Takes(op, t, src, dst) && Takes(op, t, src', dst') && Alike(src, src') && Alike(dst, dst')
    ensures Opcode(op, t, src', dst') == Opcode(op, t, src, dst)
  {
    hide Takes, Encoded, Has, OpMode, Ea, Writable;
  }

  lemma SameAlu(op: Op, t: nat, src: Operand, dst: Operand, src': Operand, dst': Operand)
    requires op.ToData? || op.ToAddress? || op.FromData? || op.BitBy? || op.ShiftMemory?
    requires Takes(op, t, src, dst) && Alike(src, src') && Alike(dst, dst')
    ensures Takes(op, t, src', dst')
  {
    hide Has, OpMode, Ea;
  }

  lemma SameOne(op: Op, t: nat, src: Operand, dst: Operand, src': Operand, dst': Operand)
    requires OneOperand(op) && !op.ToData? && !op.ToAddress? && !op.FromData? && !op.BitBy? && !op.ShiftMemory?
    requires Takes(op, t, src, dst) && Alike(src, src') && Alike(dst, dst')
    ensures Takes(op, t, src', dst')
  {
    hide Has, OpMode, Ea;
  }

  lemma SameTwo(op: Op, t: nat, src: Operand, dst: Operand, src': Operand, dst': Operand)
    requires (TwoOperands(op) || ImmediateOnly(op)) && Takes(op, t, src, dst) && Alike(src, src') && Alike(dst, dst')
    ensures Takes(op, t, src', dst')
  {
    hide Has, OpMode, Ea;
  }

  lemma SameNone(op: Op, t: nat, src: Operand, dst: Operand, src': Operand, dst': Operand)
    requires !OneOperand(op) && !TwoOperands(op) && !ImmediateOnly(op)
    requires Takes(op, t, src, dst) && Alike(src, src') && Alike(dst, dst')
    ensures src' == src && dst' == dst
  {
    hide Has, OpMode, Ea;
  }

  /** An instruction anywhere in a linear program, with any expressions in its operands: what desa68 lists in
      the image assembled at an origin. */
  lemma InstructionInProgram(lines: seq<Line>, k: nat, op: Op, m: Operands, org: int, buffer: seq<Byte>, junk: int,
        mem: D.Memory, mask: nat)
    requires LinearProgram(lines) && Extent(lines) <= |buffer| < 0x8000_0000 && InstructionAt(lines, k, op, m)
    requires AssembleAt(lines, buffer, org, junk).Image? && Loaded(mem, org, AssembleAt(lines, buffer, org, junk).code)
    requires var start := org + Extent(lines[..k]); start % 2 == 0 && 0 <= start < 0x7fff_ffe0
    ensures Takes(op, m.t, SrcOf(lines, k, m, org), DstOf(lines, k, m, org))
    ensures InstructionListed(op, m.t, SrcOf(lines, k, m, org), DstOf(lines, k, m, org), mem, mask,
                              org + Extent(lines[..k]))
  {
    hide RunLine, AssembleAt, InstructionListed, WithNumber, CInts, Numbers, Pieces, DefinedOnce, EnvAt, Labels, Loaded,
      Linear, NumberAt, Agrees, Sizes, Takes, Opcode, InstrLine, Operands.Exts, LineSize;
    var at := LineInImage(lines, k, org, buffer, junk, mem);
    var env := EnvAt(Labels(lines, 0), lines, 0, k);
    InstrPiecesOf(env, lines[k], at.pc);
    NumbersAre(Absolute(org), at.syms, env, m, at.pc);
    var w, x, y := Opcode(op, m.t, m.src, m.dst), SrcNumber(m, env, at.pc, org), DstNumber(m, env, at.pc, org);
    BodySize(lines[k]);
    SameLine(org, at, w, m, x, y, junk);
    StillTaken(op, m.t, m.src, m.dst, x, y);
    NumbersFit(m.src, env, at.pc, at.pc + 2, m.srcExpr, org);
    NumbersFit(m.dst, env, at.pc, at.pc + 2 + Sizes(FieldsWith(m.t, m.src, m.srcExpr)), m.dstExpr, org);
    InstructionRoundTrip(op, m.t, WithNumber(m.src, x), WithNumber(m.dst, y), org, at, junk, mem, mask);
  }

  lemma InstrPiecesOf(env: map<Name, Lin>, line: Line, pc: nat)
    requires LinePieces(env, line, pc).Some? && line.Code? && line.body.Instr?
    ensures FieldPieces(env, pc, pc + 2, line.body.exts).Some?
  {
    hide FieldPieces;
  }

  lemma BodySize(line: Line)
    requires line.Code?
    ensures LineSize(Code(None, line.body)) == LineSize(line)
  {
    hide Sizes;
  }

  /** The same instruction in the relocatable image, after the origin has been added at the recorded places. */
  lemma InstructionRelocated(lines: seq<Line>, k: nat, op: Op, m: Operands, base: int, buffer: seq<Byte>, junk: int,
        buffer': seq<Byte>, junk': int, mem: D.Memory, mask: nat)
    requires LinearProgram(lines) && Extent(lines) <= |buffer| < 0x8000_0000 && Extent(lines) <= |buffer'| < 0x8000_0000
    requires InstructionAt(lines, k, op, m) && forall p <- PiecesOf(lines) :: Movable(p)
    requires AssembleRelocatable(lines, buffer, junk).Image? && AssembleAt(lines, buffer', base, junk').Image?
    requires forall image ::
               RelocatesTo(AssembleRelocatable(lines, buffer, junk), base, image) ==> Loaded(mem, base, image)
    requires var start := base + Extent(lines[..k]); start % 2 == 0 && 0 <= start < 0x7fff_ffe0
    ensures Takes(op, m.t, SrcOf(lines, k, m, base), DstOf(lines, k, m, base))
    ensures InstructionListed(op, m.t, SrcOf(lines, k, m, base), DstOf(lines, k, m, base), mem, mask,
                              base + Extent(lines[..k]))
  {
    hide LinearProgram, AssembleAt, AssembleRelocatable, InstructionListed, SrcOf, DstOf, Loaded, PiecesOf, Movable,
      Patched, InstructionAt, InImage, Takes;
    RelocationPreserves(lines, buffer, junk, base, buffer', junk');
    InstructionInProgram(lines, k, op, m, base, buffer', junk', mem, mask);
  }
}
