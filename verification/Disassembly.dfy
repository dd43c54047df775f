/** What a 68000 opcode word and its extension words stand for (desa68/desa68.c): addressing modes,
    operands, how many bytes an instruction takes, and how it is listed. */
module Disassembly {
  import opened Words

  // Sizes.
  const SZ_BYTE := 0
  const SZ_WORD := 1
  const SZ_LONG := 2
  const SZ_ADDR := 3
  const SZ_NDEF := 255

  // Extended addressing modes.
  const MODE_AN := 1
  const MODE_PAN := 4
  const MODE_DAN := 5
  const MODE_DANXI := 6
  const MODE_ABSW := 7
  const MODE_ABSL := 8
  const MODE_DPC := 9
  const MODE_DPCXI := 10
  const MODE_IMM := 11

  /** An operand as the listing shows it. Index registers are 0 to 7 for D0-D7, 8 to 15 for
      A0-A7. */
  datatype Operand =
    | DataReg(n: nat) | AddrReg(n: nat) | Indirect(n: nat) | PostInc(n: nat) | PreDec(n: nat)
    | Disp(d: int, n: nat)
    | Index(d: int, n: nat, x: nat, long: bool)
    | AbsWord(a: int) | AbsLong(a: int)
    | PcDisp(a: int) | PcIndex(a: int, x: nat, long: bool)
    | Imm(v: int)
    | SpecialReg(name: string)
    | RegList(mask: nat, reversed: bool)
    | Target(a: int)

  // The fields of an opcode word.

  function Reg0(w: nat): nat { w % 8 }
  function Mode3(w: nat): nat { w / 8 % 8 }
  function OpSz(w: nat): nat { w / 64 % 4 }
  function Mode6(w: nat): nat { w / 64 % 8 }
  function Reg9(w: nat): nat { w / 512 % 8 }
  function LineOf(w: nat): nat { w / 4096 % 16 }
  predicate Bit5(w: nat) { w / 32 % 2 == 1 }
  predicate Bit7(w: nat) { w / 128 % 2 == 1 }
  predicate Bit8(w: nat) { w / 256 % 2 == 1 }

  /** A mode and its register as one number. */
  function Extended(mode: nat, reg: nat): nat {
    if mode == MODE_ABSW then mode + reg else mode
  }

  function Adrm0(w: nat): nat { Extended(Mode3(w), Reg0(w)) }
  function Adrm6(w: nat): nat { Extended(Mode6(w), Reg9(w)) }

  // Sets of modes, written as bit masks in the source.

  predicate AnyMode(m: nat) { m <= 11 }                             // MBIT_ALL
  predicate Alterable(m: nat) { m <= 8 }                            // MBIT_DST
  predicate DataMode(m: nat) { m <= 11 && m != 1 }                  // 07775, 0xffd
  predicate DataAlterable(m: nat) { m <= 8 && m != 1 }              // 00775
  predicate MemoryAlterable(m: nat) { 2 <= m <= 8 }                 // 0x1fc
  predicate ControlMode(m: nat) { m == 2 || 5 <= m <= 10 }          // 03744, 0x7e4
  predicate MovemStore(m: nat) { m == 2 || 4 <= m <= 8 }            // 00764
  predicate MovemLoad(m: nat) { m == 2 || m == 3 || 5 <= m <= 10 }  // 03754

  // Memory. A callback answers a byte, or -1 for none.

  type Memory = int -> MemByte
  type MemByte = x: int | -1 <= x < 256

  function UB(mem: Memory, a: int): (r: nat)
    ensures r < 256
  {
    if mem(a) < 0 then 0 else mem(a)
  }

  function UW(mem: Memory, a: int): (r: nat)
    ensures r < 0x1_0000
  {
    UB(mem, a) * 256 + UB(mem, a + 1)
  }

  function S8(x: int): int { (x + 128) % 256 - 128 }
  function S16(x: int): int { (x + 0x8000) % 0x1_0000 - 0x8000 }
  function S32(x: int): int { (x + 0x8000_0000) % 0x1_0000_0000 - 0x8000_0000 }

  function SW(mem: Memory, a: int): int { S16(UW(mem, a)) }

  function SL(mem: Memory, a: int): int { S32(UW(mem, a) * 0x1_0000 + UW(mem, a + 2)) }

  /** Reading a word fails when a byte is missing or the address is odd. */
  predicate BadWord(mem: Memory, a: int) {
    mem(a) < 0 || mem(a + 1) < 0 || a % 2 != 0
  }

  predicate BadLong(mem: Memory, a: int) {
    mem(a) < 0 || mem(a + 1) < 0 || mem(a + 2) < 0 || mem(a + 3) < 0 || a % 2 != 0
  }

  /** The high byte of a byte immediate must be clear or the sign. */
  predicate BadImmediate(w: int) {
    S8(w) != w && w / 256 % 256 != 0 && w / 256 % 256 != S8(w) / 256 % 256
  }

  // ---- Effective addresses.

  /** The bytes of extension words. */
  function EaSize(m: nat, immsz: nat): (r: nat)
    ensures r % 2 == 0 && r <= 4
  {
    if m in {MODE_DAN, MODE_DANXI, MODE_ABSW, MODE_DPC, MODE_DPCXI} then 2
    else if m == MODE_ABSL then 4
    else if m == MODE_IMM then if immsz == SZ_LONG then 4 else 2
    else 0
  }

  /** What get_ea_2 may be asked for. */
  predicate EaAllowed(isSrc: bool, m: nat, reg: nat, immsz: nat) {
    m <= MODE_IMM && reg < 8 && (isSrc || Alterable(m)) && (m == MODE_IMM ==> immsz <= SZ_LONG)
  }

  /** `addr & memmsk`. */
  function Masked(mask: nat, a: int): nat {
    Bitwise(AND, a % 0x1_0000_0000, mask)
  }

  /** The operand whose extension words start at `pc`. A target is an unsigned number; one without
      an index is cut to the address space. */
  function EaOperand(mem: Memory, mask: nat, pc: int, m: nat, reg: nat, immsz: nat): Operand
    requires m <= MODE_IMM
  {
    var v := SW(mem, pc);
    if m == 0 then DataReg(reg)
    else if m == 1 then AddrReg(reg)
    else if m == 2 then Indirect(reg)
    else if m == 3 then PostInc(reg)
    else if m == MODE_PAN then PreDec(reg)
    else if m == MODE_DAN then Disp(v, reg)
    else if m == MODE_DANXI then Index(S8(v), reg, v / 4096 % 16, v / 2048 % 2 == 1)
    else if m == MODE_ABSW then AbsWord(v)
    else if m == MODE_ABSL then AbsLong(SL(mem, pc))
    else if m == MODE_DPC then PcDisp(Masked(mask, pc + v))
    else if m == MODE_DPCXI then PcIndex((pc + S8(v)) % 0x1_0000_0000, v / 4096 % 16, v / 2048 % 2 == 1)
    else Imm(
      if immsz == SZ_BYTE then if S8(v) < -0x3f then S8(v) % 256 else S8(v)
      else if immsz == SZ_WORD then if v < -0x3fff then v % 0x1_0000 else v
      else SL(mem, pc) % 0x1_0000_0000)
  }

  predicate EaError(mem: Memory, pc: int, m: nat, immsz: nat) {
    if m == MODE_ABSL || (m == MODE_IMM && immsz == SZ_LONG) then BadLong(mem, pc)
    else EaSize(m, immsz) == 2 && (BadWord(mem, pc) || (m == MODE_IMM && immsz == SZ_BYTE && BadImmediate(SW(mem, pc))))
  }

  // ---- Lengths.

  function Ea0(w: nat, immsz: nat): (r: nat)
    ensures r % 2 == 0 && r <= 4
  {
    EaSize(Adrm0(w), immsz)
  }

  /** The bytes that an opcode and its extension words take. */
  function Length(w: nat): (r: nat)
    requires w < 0x1_0000
    ensures 2 <= r <= 10 && r % 2 == 0
  {
    var line := LineOf(w);
    if line == 0 then Length0(w)
    else if line <= 3 then Length123(w)
    else if line == 4 then Length4(w)
    else if line == 5 then Length5(w)
    else if line == 6 then Length6(w)
    else if line == 7 || line == 0xa || line == 0xf then 2
    else if line == 0xe then LengthE(w)
    else LengthAlu(w)
  }

  /** DBcc, Scc, ADDQ and SUBQ. */
  function Length5(w: nat): (r: nat)
    ensures 2 <= r <= 10 && r % 2 == 0
  {
    var m, sz := Adrm0(w), OpSz(w);
    if sz == 3 then if m == MODE_AN then 4 else if DataAlterable(m) then 2 + Ea0(w, SZ_NDEF) else 2
    else if Alterable(m) then 2 + Ea0(w, sz) else 2
  }

  /** Branches. */
  function Length6(w: nat): (r: nat)
    ensures 2 <= r <= 10 && r % 2 == 0
  {
    if w % 256 == 0 then 4 else 2
  }

  /** Shifts and rotates. */
  function LengthE(w: nat): (r: nat)
    ensures 2 <= r <= 10 && r % 2 == 0
  {
    if OpSz(w) == 3 && MemoryAlterable(Adrm0(w)) && Reg9(w) < 4 then 2 + Ea0(w, SZ_NDEF) else 2
  }

  /** MOVEP, bit operations, immediates to CCR and SR, immediate operations. */
  function Length0(w: nat): (r: nat)
    ensures 2 <= r <= 10 && r % 2 == 0
  {
    var m, sz := Adrm0(w), OpSz(w);
    if Bit8(w) then
      if Mode3(w) == 1 then 4 else if DataAlterable(m) then 2 + Ea0(w, SZ_NDEF) else 2
    else if Reg9(w) == 4 then if DataAlterable(m) then 4 + Ea0(w, SZ_NDEF) else 2
    else if m == MODE_IMM then if sz < 2 && Reg9(w) in {0, 1, 5} then 4 else 2
    else if DataAlterable(m) && sz != 3 && Reg9(w) != 7 then 2 + EaSize(MODE_IMM, sz) + Ea0(w, SZ_NDEF)
    else 2
  }

  /** The size of a MOVE. */
  function MoveSize(w: nat): nat {
    if LineOf(w) == 1 then SZ_BYTE else if LineOf(w) == 2 then SZ_LONG else SZ_WORD
  }

  predicate MoveValid(w: nat) {
    && Adrm0(w) <= MODE_IMM && Adrm6(w) <= MODE_ABSL
    && (LineOf(w) == 1 ==> Adrm0(w) != MODE_AN && Adrm6(w) != MODE_AN)
  }

  /** MOVEM between registers and an operand that goes with its direction. */
  predicate MovemValid(w: nat) {
    && Mode6(w) in {2, 3}
    && (if Reg9(w) == 4 then MovemStore(Adrm0(w)) else Reg9(w) == 6 && MovemLoad(Adrm0(w)))
  }

  function Length123(w: nat): (r: nat)
    ensures 2 <= r <= 10 && r % 2 == 0
  {
    if MoveValid(w) then 2 + EaSize(Adrm0(w), MoveSize(w)) + EaSize(Adrm6(w), MoveSize(w)) else 2
  }

  function Length4(w: nat): (r: nat)
    ensures 2 <= r <= 10 && r % 2 == 0
  {
    var m, sz, r9, m6 := Adrm0(w), OpSz(w), Reg9(w), Mode6(w);
    if m6 == 7 then if ControlMode(m) then 2 + Ea0(w, SZ_NDEF) else 2            // LEA
    else if m6 == 6 then if DataMode(m) then 2 + Ea0(w, SZ_WORD) else 2          // CHK
    else if m6 >= 4 then 2
    else if m6 >= 2 && r9 == 4 && Mode3(w) == 0 then 2                           // EXT
    else if MovemValid(w) then 4 + Ea0(w, SZ_NDEF)
    else if m6 >= 2 && r9 == 7 && ControlMode(m) then 2 + Ea0(w, SZ_NDEF)        // JMP, JSR
    else if m6 == 3 && r9 in {2, 3} && DataMode(m) then 2 + Ea0(w, SZ_WORD)      // to CCR, SR
    else if r9 in {0, 1, 2, 3, 5} && DataAlterable(m) then 2 + Ea0(w, SZ_NDEF)
    else if r9 == 4 && m6 == 0 && DataAlterable(m) then 2 + Ea0(w, SZ_NDEF)      // NBCD
    else if r9 == 4 && m6 == 1 && ControlMode(m) then 2 + Ea0(w, SZ_NDEF)        // PEA
    else if r9 == 7 && m6 == 1 && (Mode3(w) == 2 || (Mode3(w) == 6 && Reg0(w) == 2)) then 4 // LINK, STOP
    else 2
  }

  /** OR, SUB, CMP, AND, ADD and what shares their lines. */
  function LengthAlu(w: nat): (r: nat)
    ensures 2 <= r <= 10 && r % 2 == 0
  {
    var m, sz, line := Adrm0(w), OpSz(w), LineOf(w);
    if sz == 3 then
      if (if line in {8, 0xc} then DataMode(m) else AnyMode(m))
      then 2 + Ea0(w, if line in {8, 0xc} || !Bit8(w) then SZ_WORD else SZ_LONG) else 2
    else if Bit8(w) then
      if (if line in {9, 0xd} then Mode3(w) >= 2 && Alterable(m)
          else if line == 0xb then DataAlterable(m) else MemoryAlterable(m))
      then 2 + Ea0(w, sz) else 2
    else if (if line in {8, 0xc} then DataMode(m) else AnyMode(m) && !(sz == 0 && m == 1)) then 2 + Ea0(w, sz)
    else 2
  }

  // ---- What is listed.

  // The conditions of branches, of DBcc and of Scc.
  const TESTS: seq<string> := ["HI", "LS", "CC", "CS", "NE", "EQ", "VC", "VS", "PL", "MI", "GE", "LT", "GT", "LE"]
  const BCC: seq<string> := ["RA", "SR"] + TESTS
  const DBCC: seq<string> := ["RA", "F"] + TESTS
  const SCC: seq<string> := ["T", "F"] + TESTS

  // Other names, by a field of the opcode.
  const BIT_OPS: seq<string> := ["BTST", "BCHG", "BCLR", "BSET"]
  const IMMEDIATE_OPS: seq<string> := ["ORI", "ANDI", "SUBI", "ADDI", "", "EORI", "CMPI", ""]
  const UNARY_OPS: seq<string> := ["NEGX", "CLR", "NEG", "NOT", "", "TST"]
  const PLAIN_OPS: seq<string> := ["RESET", "NOP", "STOP", "RTE", "", "RTS", "TRAPV", "RTR"]
  const SHIFTS: seq<string> := ["AS", "LS", "ROX", "RO"]

  /** An instruction as it is listed; `error` is whether its extension words could not be read. */
  datatype Listing = Listing(name: string, size: nat, ops: seq<Operand>, error: bool)

  const DATA_WORD := Listing("DC.W", SZ_NDEF, [], false)

  /** The condition of an opcode. */
  function Condition(w: nat): (c: nat)
    ensures c < 16
  {
    w / 256 % 16
  }

  function BccName(w: nat): string {
    "B" + BCC[Condition(w)] + if w % 256 != 0 then ".S" else ".W"
  }

  function DbccName(w: nat): string { "DB" + DBCC[Condition(w)] }

  function SccName(w: nat): string { "S" + SCC[Condition(w)] }

  /** An instruction whose only extension words are those of the operand in the low six bits. */
  function ListOperand(mem: Memory, mask: nat, pc: int, w: nat, immsz: nat, name: string, size: nat,
        before: seq<Operand>, after: seq<Operand>): Listing
    requires Adrm0(w) <= MODE_IMM
  {
    Listing(name, size, before + [EaOperand(mem, mask, pc, Adrm0(w), Reg0(w), immsz)] + after,
            EaError(mem, pc, Adrm0(w), immsz))
  }

  /** MOVEP, bit operations, immediates to CCR and SR, immediate operations; `pc` is behind the opcode. */
  function ListLine0(mem: Memory, mask: nat, pc: int, w: nat): Listing {
    var m, sz, r0, r9 := Adrm0(w), OpSz(w), Reg0(w), Reg9(w);
    if Bit8(w) && Mode3(w) == 1 then
      var d, ea := DataReg(r9), EaOperand(mem, mask, pc, MODE_DAN, r0, SZ_NDEF);
      Listing("MOVEP", SZ_WORD + sz % 2, if Bit7(w) then [d, ea] else [ea, d], EaError(mem, pc, MODE_DAN, SZ_NDEF))
    else if DataAlterable(m) && Bit8(w) then
      ListOperand(mem, mask, pc, w, SZ_NDEF, BIT_OPS[sz], SZ_NDEF, [DataReg(r9)], [])
    else if DataAlterable(m) && r9 == 4 then
      Listing(BIT_OPS[sz], SZ_NDEF, [Imm(SW(mem, pc) % 256), EaOperand(mem, mask, pc + 2, m, r0, SZ_NDEF)],
              BadWord(mem, pc) || EaError(mem, pc + 2, m, SZ_NDEF))
    else if !Bit8(w) && m == MODE_IMM && sz < 2 && r9 in {0, 1, 5} then
      ListOperand(mem, mask, pc, w, SZ_WORD, IMMEDIATE_OPS[r9], SZ_NDEF,
                  [], [SpecialReg(if sz == 1 then "SR" else "CCR")])
    else if !Bit8(w) && DataAlterable(m) && sz != 3 && r9 != 7 then
      var mid := pc + EaSize(MODE_IMM, sz);
      Listing(IMMEDIATE_OPS[r9], sz,
              [EaOperand(mem, mask, pc, MODE_IMM, 0, sz), EaOperand(mem, mask, mid, m, r0, SZ_NDEF)],
              EaError(mem, pc, MODE_IMM, sz) || EaError(mem, mid, m, SZ_NDEF))
    else DATA_WORD
  }

  /** MOVE and MOVEA. */
  function ListLine123(mem: Memory, mask: nat, pc: int, w: nat): Listing {
    var sz := MoveSize(w);
    var mid := pc + EaSize(Adrm0(w), sz);
    if MoveValid(w) then
      Listing(if Adrm6(w) == MODE_AN then "MOVEA" else "MOVE", sz,
              [EaOperand(mem, mask, pc, Adrm0(w), Reg0(w), sz), EaOperand(mem, mask, mid, Adrm6(w), Reg9(w), sz)],
              EaError(mem, pc, Adrm0(w), sz) || EaError(mem, mid, Adrm6(w), sz))
    else DATA_WORD
  }

  /** MOVEM: the mask comes before the operand. */
  function ListMovem(mem: Memory, mask: nat, pc: int, w: nat): Listing
    requires MovemValid(w)
  {
    var regs := SW(mem, pc) % 0x1_0000;
    var ea := EaOperand(mem, mask, pc + 2, Adrm0(w), Reg0(w), SZ_NDEF);
    Listing("MOVEM", SZ_WORD + Mode6(w) % 2,
            if Reg9(w) == 6 then [ea, RegList(regs, false)] else [RegList(regs, Mode3(w) == MODE_PAN), ea],
            BadWord(mem, pc) || EaError(mem, pc + 2, Adrm0(w), SZ_NDEF))
  }

  /** TRAP, LINK, UNLK, MOVE USP and the instructions without operands. */
  function ListSpecial(mem: Memory, mask: nat, pc: int, w: nat): Listing {
    var m, r0 := Mode3(w), Reg0(w);
    var imm, bad := EaOperand(mem, mask, pc, MODE_IMM, 0, SZ_WORD), EaError(mem, pc, MODE_IMM, SZ_WORD);
    if m <= 1 then Listing("TRAP", SZ_NDEF, [Imm(w % 16)], false)
    else if m == 2 then Listing("LINK", SZ_NDEF, [AddrReg(r0), imm], bad)
    else if m == 3 then Listing("UNLK", SZ_NDEF, [AddrReg(r0)], false)
    else if m == 4 then Listing("MOVE", SZ_NDEF, [AddrReg(r0), SpecialReg("USP")], false)
    else if m == 5 then Listing("MOVE", SZ_NDEF, [SpecialReg("USP"), AddrReg(r0)], false)
    else if m == 6 && r0 == 2 then Listing("STOP", SZ_NDEF, [imm], bad)
    else if m == 6 && r0 != 4 then Listing(PLAIN_OPS[r0], SZ_NDEF, [], false)
    else DATA_WORD
  }

  /** The many instructions of line 4, the more special ones first. */
  function ListLine4(mem: Memory, mask: nat, pc: int, w: nat): Listing {
    var m, sz, r9, m6 := Adrm0(w), OpSz(w), Reg9(w), Mode6(w);
    if m6 == 7 then
      if ControlMode(m) then ListOperand(mem, mask, pc, w, SZ_NDEF, "LEA", SZ_NDEF, [], [AddrReg(r9)]) else DATA_WORD
    else if m6 == 6 then
      if DataMode(m) then ListOperand(mem, mask, pc, w, SZ_WORD, "CHK", SZ_NDEF, [], [DataReg(r9)]) else DATA_WORD
    else if m6 >= 4 then DATA_WORD
    else if m6 >= 2 && r9 == 4 && Mode3(w) == 0 then Listing("EXT", SZ_WORD + m6 % 2, [DataReg(Reg0(w))], false)
    else if MovemValid(w) then ListMovem(mem, mask, pc, w)
    else if m6 >= 2 && r9 == 7 && ControlMode(m) then
      ListOperand(mem, mask, pc, w, SZ_NDEF, if m6 == 2 then "JSR" else "JMP", SZ_NDEF, [], [])
    else if m6 == 3 && r9 == 0 && DataAlterable(m) then
      ListOperand(mem, mask, pc, w, SZ_WORD, "MOVE", SZ_NDEF, [SpecialReg("SR")], [])
    else if m6 == 3 && r9 == 2 && DataMode(m) then
      ListOperand(mem, mask, pc, w, SZ_BYTE, "MOVE", SZ_NDEF, [], [SpecialReg("CCR")])
    else if m6 == 3 && r9 == 3 && DataMode(m) then
      ListOperand(mem, mask, pc, w, SZ_WORD, "MOVE", SZ_NDEF, [], [SpecialReg("SR")])
    else if m6 == 3 && r9 == 5 && DataAlterable(m) then
      ListOperand(mem, mask, pc, w, SZ_NDEF, "TAS", SZ_ADDR, [], [])
    else if w == 0x4afc then Listing("ILLEGAL", SZ_NDEF, [], false)
    else if r9 in {0, 1, 2, 3, 5} && DataAlterable(m) then
      ListOperand(mem, mask, pc, w, SZ_NDEF, UNARY_OPS[r9], sz, [], [])
    else if r9 == 4 && m6 == 0 && DataAlterable(m) then
      ListOperand(mem, mask, pc, w, SZ_NDEF, "NBCD", SZ_ADDR, [], [])
    else if r9 == 4 && m6 == 1 && Mode3(w) == 0 then Listing("SWAP", SZ_NDEF, [DataReg(Reg0(w))], false)
    else if r9 == 4 && m6 == 1 && ControlMode(m) then
      ListOperand(mem, mask, pc, w, SZ_NDEF, "PEA", SZ_ADDR, [], [])
    else if r9 == 7 && m6 == 1 then ListSpecial(mem, mask, pc, w)
    else DATA_WORD
  }

  /** ADDQ, SUBQ, Scc and DBcc. */
  function ListLine5(mem: Memory, mask: nat, pc: int, w: nat): Listing {
    var m, sz := Adrm0(w), OpSz(w);
    if sz == 3 then
      if m == MODE_AN then
        Listing(DbccName(w), SZ_NDEF,
                [DataReg(Reg0(w)), Target(Masked(mask, pc + SW(mem, pc)))], BadWord(mem, pc))
      else if DataAlterable(m) then
        Listing(SccName(w), SZ_NDEF,
                [EaOperand(mem, mask, pc, m, Reg0(w), SZ_NDEF)], EaError(mem, pc, m, SZ_NDEF))
      else DATA_WORD
    else if Alterable(m) then
      Listing(if Bit8(w) then "SUBQ" else "ADDQ", sz,
              [Imm(if Reg9(w) == 0 then 8 else Reg9(w)), EaOperand(mem, mask, pc, m, Reg0(w), sz)],
              EaError(mem, pc, m, sz))
    else DATA_WORD
  }

  /** Branches. The target of a short one is not cut to the address space. */
  function ListLine6(mem: Memory, mask: nat, pc: int, w: nat): Listing {
    if w % 256 != 0 then Listing(BccName(w), SZ_NDEF, [Target((S8(w) + pc) % 0x1_0000_0000)], false)
    else Listing(BccName(w), SZ_NDEF, [Target(Masked(mask, pc + SW(mem, pc)))], BadWord(mem, pc))
  }

  /** MOVEQ. */
  function ListLine7(w: nat): Listing {
    if Bit8(w) then DATA_WORD else Listing("MOVEQ", SZ_NDEF, [Imm(S8(w)), DataReg(Reg9(w))], false)
  }

  /** An operation between a data register and an operand, either way. */
  function ListDnAe(mem: Memory, mask: nat, pc: int, w: nat, name: string): Listing
    requires Adrm0(w) <= MODE_IMM
  {
    if Bit8(w) then ListOperand(mem, mask, pc, w, OpSz(w), name, OpSz(w), [DataReg(Reg9(w))], [])
    else ListOperand(mem, mask, pc, w, OpSz(w), name, OpSz(w), [], [DataReg(Reg9(w))])
  }

  /** Two data registers, or two memory operands stepped down. */
  function ListRyRx(w: nat, name: string, size: nat): Listing {
    if Mode3(w) % 2 == 1 then Listing(name, size, [PreDec(Reg0(w)), PreDec(Reg9(w))], false)
    else Listing(name, size, [DataReg(Reg0(w)), DataReg(Reg9(w))], false)
  }

  /** OR, DIV and SBCD, or AND, MUL and ABCD, and EXG. */
  function ListLine8C(mem: Memory, mask: nat, pc: int, w: nat): Listing {
    var m, sz, and := Adrm0(w), OpSz(w), LineOf(w) == 0xc;
    if Bit8(w) && sz == 0 && Mode3(w) <= 1 then ListRyRx(w, if and then "ABCD" else "SBCD", SZ_ADDR)
    else if sz == 3 && DataMode(m) then
      ListOperand(mem, mask, pc, w, SZ_WORD, (if and then "MUL" else "DIV") + if Bit8(w) then "S" else "U", SZ_NDEF,
                  [], [DataReg(Reg9(w))])
    else if Bit8(w) && sz == 1 && Mode3(w) == 0 then
      Listing("EXG", SZ_NDEF, [DataReg(Reg9(w)), DataReg(Reg0(w))], false)
    else if Bit8(w) && sz == 1 && Mode3(w) == 1 then
      Listing("EXG", SZ_NDEF, [AddrReg(Reg9(w)), AddrReg(Reg0(w))], false)
    else if Bit8(w) && sz == 2 && Mode3(w) == 1 then
      Listing("EXG", SZ_NDEF, [DataReg(Reg9(w)), AddrReg(Reg0(w))], false)
    else if sz != 3 && (if Bit8(w) then MemoryAlterable(m) else DataMode(m)) then
      ListDnAe(mem, mask, pc, w, if and then "AND" else "OR")
    else DATA_WORD
  }

  /** The operations whose destination is an address register. */
  function ListToAddress(mem: Memory, mask: nat, pc: int, w: nat, name: string): Listing
    requires Adrm0(w) <= MODE_IMM
  {
    var sz := if Bit8(w) then SZ_LONG else SZ_WORD;
    ListOperand(mem, mask, pc, w, sz, name, sz, [], [AddrReg(Reg9(w))])
  }

  /** SUB, SUBA and SUBX, or ADD, ADDA and ADDX. */
  function ListLine9D(mem: Memory, mask: nat, pc: int, w: nat): Listing {
    var m, sz, add := Adrm0(w), OpSz(w), LineOf(w) == 0xd;
    if sz == 3 then
      if AnyMode(m) then ListToAddress(mem, mask, pc, w, if add then "ADDA" else "SUBA") else DATA_WORD
    else if Bit8(w) && Mode3(w) <= 1 then ListRyRx(w, if add then "ADDX" else "SUBX", sz)
    else if (if Bit8(w) then Alterable(m) else AnyMode(m)) && !(sz == 0 && m == 1) then
      ListDnAe(mem, mask, pc, w, if add then "ADD" else "SUB")
    else DATA_WORD
  }

  /** CMPM, CMPA, EOR and CMP. A CMPA of an address register's long word is taken for CMPM. */
  function ListLineB(mem: Memory, mask: nat, pc: int, w: nat): Listing {
    var m, sz := Adrm0(w), OpSz(w);
    if Bit8(w) && Mode3(w) == 1 then Listing("CMPM", SZ_NDEF, [PostInc(Reg0(w)), PostInc(Reg9(w))], false)
    else if sz == 3 && AnyMode(m) then ListToAddress(mem, mask, pc, w, "CMPA")
    else if sz != 3 && Bit8(w) && DataAlterable(m) then ListDnAe(mem, mask, pc, w, "EOR")
    else if sz != 3 && !Bit8(w) && AnyMode(m) && !(sz == 0 && m == 1) then ListDnAe(mem, mask, pc, w, "CMP")
    else DATA_WORD
  }

  /** Shifts and rotates: of a word in memory by one, or of a data register by a number or a register. */
  function ListLineE(mem: Memory, mask: nat, pc: int, w: nat): Listing {
    var way := if Bit8(w) then "L" else "R";
    if OpSz(w) == 3 then
      if MemoryAlterable(Adrm0(w)) && Reg9(w) < 4 then
        ListOperand(mem, mask, pc, w, SZ_NDEF, SHIFTS[Reg9(w)] + way, SZ_NDEF, [], [])
      else DATA_WORD
    else
      var count := if Bit5(w) then DataReg(Reg9(w)) else Imm(if Reg9(w) == 0 then 8 else Reg9(w));
      Listing(SHIFTS[w / 8 % 4] + way, OpSz(w), [count, DataReg(Reg0(w))], false)
  }

  function ListLine(mem: Memory, mask: nat, pc: int, w: nat): Listing {
    var line := LineOf(w);
    if line == 0 then ListLine0(mem, mask, pc, w)
    else if line <= 3 then ListLine123(mem, mask, pc, w)
    else if line == 4 then ListLine4(mem, mask, pc, w)
    else if line == 5 then ListLine5(mem, mask, pc, w)
    else if line == 6 then ListLine6(mem, mask, pc, w)
    else if line == 7 then ListLine7(w)
    else if line == 8 || line == 0xc then ListLine8C(mem, mask, pc, w)
    else if line == 9 || line == 0xd then ListLine9D(mem, mask, pc, w)
    else if line == 0xb then ListLineB(mem, mask, pc, w)
    else if line == 0xe then ListLineE(mem, mask, pc, w)
    else DATA_WORD
  }
}
