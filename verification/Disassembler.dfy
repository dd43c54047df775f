/** The disassembler as the source writes it (desa68/desa68.c): decoders that consume words and
    list operands. */
module DisassemblerProgram {
  import opened Disassembly

  /** A memory reference of an instruction; `rtype` is SZ_NDEF when there is none. */
  datatype Ref = Ref(rtype: nat, addr: int)

  const NO_REF := Ref(SZ_NDEF, -1)

  class Disassembler {
    const mem: Memory
    // The address space.
    const memmsk: nat
    // Whether the symbol callback knows a value.
    const known: int -> bool
    var pc: int
    var w: int
    var opw: nat
    var sref: Ref
    var dref: Ref
    var error: bool
    var name: string
    var size: nat
    var ops: seq<Operand>

    constructor (mem: Memory, memmsk: nat, known: int -> bool, pc: int)
      ensures this.mem == mem && this.memmsk == (if memmsk == 0 then 0xff_ffff else memmsk) && this.known == known
      ensures this.pc == pc
    {
      this.mem, this.known, this.pc := mem, known, pc;
      this.memmsk := if memmsk == 0 then 0xff_ffff else memmsk;
      w, opw, sref, dref, error, name, size, ops := 0, 0, NO_REF, NO_REF, false, "", SZ_NDEF, [];
    }

    /** Where a decoder starts: after the opcode, with nothing listed. */
    ghost predicate Fresh()
      reads this
    {
      opw < 0x1_0000 && w == S16(opw) && sref.rtype == dref.rtype == SZ_NDEF && ops == []
    }

    /** What is listed is `l`; `bad` when there was an error before. */
    ghost predicate Lists(l: Listing, bad: bool)
      reads this
    {
      name == l.name && size == l.size && ops == l.ops && error == (bad || l.error)
    }

    method PcW() returns (r: int)
      modifies `pc, `w, `error
      ensures r == w == SW(mem, old(pc)) && pc == old(pc) + 2 && error == (old(error) || BadWord(mem, old(pc)))
    {
      w := SW(mem, pc);
      if BadWord(mem, pc) { error := true; }
      pc := pc + 2;
      r := w;
    }

    method PcL() returns (r: int)
      modifies `pc, `w, `error
      ensures r == SL(mem, old(pc)) && pc == old(pc) + 4 && error == (old(error) || BadLong(mem, old(pc)))
    {
      r := SL(mem, pc);
      if BadLong(mem, pc) { error := true; }
      w := S16(r);
      pc := pc + 4;
    }

    method ImmB() returns (v: int)
      modifies `pc, `w, `error
      ensures v == S8(SW(mem, old(pc))) && pc == old(pc) + 2
      ensures error == (old(error) || BadWord(mem, old(pc)) || BadImmediate(SW(mem, old(pc))))
    {
      var word := PcW();
      v := S8(word);
      if v != word && word / 256 % 256 != 0 && word / 256 % 256 != v / 256 % 256 {
        error := true;
      }
    }

    method RelPC() returns (a: int)
      modifies `pc, `w, `error
      ensures a == Masked(memmsk, old(pc) + SW(mem, old(pc))) && pc == old(pc) + 2
      ensures error == (old(error) || BadWord(mem, old(pc)))
    {
      var word := PcW();
      a := Masked(memmsk, pc + word - 2);
    }

    method List(o: Operand)
      modifies `ops
      ensures ops == old(ops) + [o]
    {
      ops := ops + [o];
    }

    method SetRef(isSrc: bool, rtype: nat, a: int)
      requires (if isSrc then sref else dref).rtype == SZ_NDEF
      modifies `sref, `dref
      ensures if isSrc then dref == old(dref) && sref == Ref(rtype, a % 0x1_0000_0000)
              else sref == old(sref) && dref == Ref(rtype, a % 0x1_0000_0000)
    {
      if isSrc { sref := Ref(rtype, a % 0x1_0000_0000); } else { dref := Ref(rtype, a % 0x1_0000_0000); }
    }

    /** get_ea_2: an operand with its extension words. */
    method GetEa2(isSrc: bool, rtype: nat, mode: nat, reg: nat, immsz: nat)
      requires EaAllowed(isSrc, Extended(mode, reg), reg, immsz) && (if isSrc then sref else dref).rtype == SZ_NDEF
      modifies `pc, `w, `error, `ops, `sref, `dref
      ensures pc == old(pc) + EaSize(Extended(mode, reg), immsz)
      ensures ops == old(ops) + [EaOperand(mem, memmsk, old(pc), Extended(mode, reg), reg, immsz)]
      ensures error == (old(error) || EaError(mem, old(pc), Extended(mode, reg), immsz))
      ensures if isSrc then dref == old(dref) else sref == old(sref)
    {
      hide SW, SL, S8, S16, S32, BadWord, BadLong, BadImmediate;
      var m := Extended(mode, reg);
      var v;
      if m == 0 { List(DataReg(reg)); }
      else if m == 1 { List(AddrReg(reg)); }
      else if m == 2 { List(Indirect(reg)); }
      else if m == 3 { List(PostInc(reg)); }
      else if m == MODE_PAN { List(PreDec(reg)); }
      else if m == MODE_DAN {
        v := PcW();
        List(Disp(v, reg));
      } else if m == MODE_DANXI {
        v := PcW();
        List(Index(S8(v), reg, v / 4096 % 16, v / 2048 % 2 == 1));
      } else if m == MODE_ABSW {
        v := PcW();
        List(AbsWord(v));
        SetRef(isSrc, rtype, v);
      } else if m == MODE_ABSL {
        v := PcL();
        List(AbsLong(v));
        SetRef(isSrc, rtype, v);
      } else if m == MODE_DPC {
        v := RelPC();
        List(PcDisp(v));
        SetRef(isSrc, rtype, v);
      } else if m == MODE_DPCXI {
        v := PcW();
        SetRef(isSrc, rtype, pc - 2 + S8(v));
        List(PcIndex((pc - 2 + S8(v)) % 0x1_0000_0000, v / 4096 % 16, v / 2048 % 2 == 1));
      } else {
        GetImmediate(rtype, immsz);
      }
    }

    method GetImmediate(rtype: nat, immsz: nat)
      requires immsz <= SZ_LONG && sref.rtype == SZ_NDEF
      modifies `pc, `w, `error, `ops, `sref, `dref
      ensures pc == old(pc) + EaSize(MODE_IMM, immsz) && dref == old(dref)
      ensures ops == old(ops) + [EaOperand(mem, memmsk, old(pc), MODE_IMM, 0, immsz)]
      ensures error == (old(error) || EaError(mem, old(pc), MODE_IMM, immsz))
    {
      hide SW, SL, S8, S16, S32, BadWord, BadLong, BadImmediate;
      var v;
      if immsz == SZ_BYTE {
        v := ImmB();
        if v < -0x3f { v := v % 256; }
      } else if immsz == SZ_WORD {
        v := PcW();
        if v < -0x3fff { v := v % 0x1_0000; }
      } else {
        v := PcL();
        v := v % 0x1_0000_0000;
        if known(v) { SetRef(true, SZ_ADDR, v); }
      }
      List(Imm(v));
    }

    /** The operand in the low six bits of the opcode. */
    method Operand0(isSrc: bool, rtype: nat, immsz: nat)
      requires EaAllowed(isSrc, Adrm0(opw), Reg0(opw), immsz) && (if isSrc then sref else dref).rtype == SZ_NDEF
      modifies `pc, `w, `error, `ops, `sref, `dref
      ensures pc == old(pc) + Ea0(opw, immsz)
      ensures ops == old(ops) + [EaOperand(mem, memmsk, old(pc), Adrm0(opw), Reg0(opw), immsz)]
      ensures error == (old(error) || EaError(mem, old(pc), Adrm0(opw), immsz))
      ensures if isSrc then dref == old(dref) else sref == old(sref)
    {
      GetEa2(isSrc, rtype, Mode3(opw), Reg0(opw), immsz);
    }

    method Named(n: string, sz: nat)
      modifies `name, `size
      ensures name == n && size == sz
    {
      name, size := n, sz;
    }

    /** A word that is no instruction. */
    method Dcw()
      modifies `name, `size
      ensures name == "DC.W" && size == SZ_NDEF
    {
      Named("DC.W", SZ_NDEF);
    }

    // ---- Line 0

    method CheckMovep() returns (ok: bool)
      requires Fresh() && LineOf(opw) == 0
      modifies this
      ensures ok == (Bit8(opw) && Mode3(opw) == 1) && opw == old(opw)
      ensures if !ok then pc == old(pc) && error == old(error) && Fresh() else
              pc == old(pc) + 2 && Lists(ListLine0(mem, memmsk, old(pc), opw), old(error))
    {
      if !(Bit8(opw) && Mode3(opw) == 1) { return false; }
      var sz := SZ_WORD + OpSz(opw) % 2;
      Named("MOVEP", sz);
      if !Bit7(opw) {
        GetEa2(true, sz, MODE_DAN, Reg0(opw), SZ_NDEF);
        List(DataReg(Reg9(opw)));
      } else {
        List(DataReg(Reg9(opw)));
        GetEa2(false, sz, MODE_DAN, Reg0(opw), SZ_NDEF);
      }
      ok := true;
    }

    method CheckBitOp() returns (ok: bool)
      requires Fresh() && LineOf(opw) == 0
      modifies this
      ensures opw == old(opw) && ok == (DataAlterable(Adrm0(opw)) && (Bit8(opw) || Reg9(opw) == 4))
      ensures if !ok then pc == old(pc) && error == old(error) && Fresh() else
              pc == old(pc) + Ea0(opw, SZ_NDEF) + if Bit8(opw) then 0 else 2
      ensures ok && !(Bit8(opw) && Mode3(opw) == 1) ==> Lists(ListLine0(mem, memmsk, old(pc), opw), old(error))
    {
      hide EaOperand, EaError, BadWord, SW;
      if !DataAlterable(Adrm0(opw)) { return false; }
      if !Bit8(opw) {
        if Reg9(opw) != 4 { return false; }
        var v := PcW();
        List(Imm(v % 256));
      } else {
        List(DataReg(Reg9(opw)));
      }
      Named(BIT_OPS[OpSz(opw)], SZ_NDEF);
      Operand0(false, SZ_BYTE, SZ_NDEF);
      ok := true;
    }

    method CheckImmSr() returns (ok: bool)
      requires Fresh() && LineOf(opw) == 0
      modifies this
      ensures opw == old(opw)
      ensures ok == (!Bit8(opw) && Adrm0(opw) == MODE_IMM && OpSz(opw) < 2 && Reg9(opw) in {0, 1, 5})
      ensures if !ok then pc == old(pc) && error == old(error) && Fresh() else
              pc == old(pc) + 2 && Lists(ListLine0(mem, memmsk, old(pc), opw), old(error))
    {
      hide EaOperand, EaError, EaSize, Bit8;
      BitEight(opw);
      SizeBits(opw);
      ImmediateSize();
      if Bit8(opw) || Adrm0(opw) != MODE_IMM || OpSz(opw) >= 2 || Reg9(opw) !in {0, 1, 5} { return false; }
      Named(if Reg9(opw) == 5 then "EORI" else if Reg9(opw) == 1 then "ANDI" else "ORI", SZ_NDEF);
      AnyRegister(mem, memmsk, pc, Reg0(opw), MODE_IMM - MODE_ABSW, SZ_WORD);
      GetEa2(true, SZ_WORD, MODE_ABSW, MODE_IMM - MODE_ABSW, SZ_WORD);
      List(SpecialReg(if Mode6(opw) % 2 == 1 then "SR" else "CCR"));
      ok := true;
    }

    method CheckImmOp() returns (ok: bool)
      requires Fresh() && LineOf(opw) == 0
      modifies this
      ensures opw == old(opw)
      ensures ok == (!Bit8(opw) && DataAlterable(Adrm0(opw)) && OpSz(opw) != 3 && Reg9(opw) !in {4, 7})
      ensures if !ok then pc == old(pc) && error == old(error) && Fresh() else
              pc == old(pc) + EaSize(MODE_IMM, OpSz(opw)) + Ea0(opw, SZ_NDEF)
      ensures ok ==> Lists(ListLine0(mem, memmsk, old(pc), opw), old(error))
    {
      hide EaOperand, EaError, BadWord, SW;
      if Bit8(opw) || !DataAlterable(Adrm0(opw)) || OpSz(opw) == 3 || Reg9(opw) in {4, 7} { return false; }
      Named(IMMEDIATE_OPS[Reg9(opw)], OpSz(opw));
      AnyRegister(mem, memmsk, pc, 0, MODE_IMM - MODE_ABSW, OpSz(opw));
      GetEa2(true, SZ_ADDR, MODE_ABSW, MODE_IMM - MODE_ABSW, OpSz(opw));
      Operand0(false, OpSz(opw), SZ_NDEF);
      ok := true;
    }

    method Line0()
      requires Fresh() && LineOf(opw) == 0
      modifies this
      ensures opw == old(opw) && pc == old(pc) + Length(opw) - 2
      ensures Lists(ListLine0(mem, memmsk, old(pc), opw), old(error))
    {
      hide ListOperand, EaOperand, EaError, BadWord, SW;
      var ok := CheckMovep();
      if !ok { ok := CheckBitOp(); }
      if !ok { ok := CheckImmSr(); }
      if !ok { ok := CheckImmOp(); }
      if !ok { Dcw(); }
    }

    // ---- Lines 1 to 3

    /** MOVE and MOVEA. */
    method Line123()
      requires Fresh() && 1 <= LineOf(opw) <= 3
      modifies this
      ensures opw == old(opw) && pc == old(pc) + Length(opw) - 2
      ensures Lists(ListLine123(mem, memmsk, old(pc), opw), old(error))
    {
      hide EaOperand, EaError;
      if !MoveValid(opw) {
        Dcw();
        return;
      }
      Named(if Adrm6(opw) == MODE_AN then "MOVEA" else "MOVE", MoveSize(opw));
      GetEa2(true, MoveSize(opw), Mode3(opw), Reg0(opw), MoveSize(opw));
      GetEa2(false, MoveSize(opw), Mode6(opw), Reg9(opw), MoveSize(opw));
    }

    // ---- Line 4

    method CheckImp(n: string, allowed: bool, opsz: nat) returns (ok: bool)
      requires Fresh() && (allowed ==> EaAllowed(true, Adrm0(opw), Reg0(opw), SZ_NDEF))
      modifies this
      ensures opw == old(opw) && ok == (!Bit8(opw) && allowed)
      ensures if ok then pc == old(pc) + Ea0(opw, SZ_NDEF) else pc == old(pc) && error == old(error) && Fresh()
      ensures ok ==> Lists(ListOperand(mem, memmsk, old(pc), opw, SZ_NDEF, n, opsz, [], []), old(error))
    {
      hide EaOperand, EaError;
      if Bit8(opw) || !allowed { return false; }
      Named(n, opsz);
      Operand0(true, opsz, SZ_NDEF);
      if opsz <= SZ_LONG { dref := sref; }
      ok := true;
    }

    method CheckMovem() returns (ok: bool)
      requires Fresh() && LineOf(opw) == 4
      modifies this
      ensures opw == old(opw)
      ensures ok == MovemValid(opw)
      ensures if ok then pc == old(pc) + Length(opw) - 2 else pc == old(pc) && error == old(error) && Fresh()
      ensures ok ==> Lists(ListMovem(mem, memmsk, old(pc), opw), old(error))
    {
      hide EaOperand, EaError, SW, BadWord;
      if !MovemValid(opw) {
        return false;
      }
      var sz := 1 + Mode6(opw) % 2;
      Named("MOVEM", sz);
      var mask := PcW();
      if Reg9(opw) == 6 {
        Operand0(true, sz, SZ_NDEF);
        List(RegList(mask % 0x1_0000, false));
      } else {
        List(RegList(mask % 0x1_0000, Mode3(opw) == MODE_PAN));
        Operand0(false, sz, SZ_NDEF);
      }
      ok := true;
    }

    method CheckJmp() returns (ok: bool)
      requires Fresh() && LineOf(opw) == 4
      modifies this
      ensures opw == old(opw) && ok == (Reg9(opw) == 7 && Mode6(opw) in {2, 3} && ControlMode(Adrm0(opw)))
      ensures if ok then pc == old(pc) + Length(opw) - 2 else pc == old(pc) && error == old(error) && Fresh()
      ensures ok ==> Lists(ListLine4(mem, memmsk, old(pc), opw), old(error))
    {
      hide EaOperand, EaError;
      SizeBits(opw);
      if !(Reg9(opw) == 7 && Mode6(opw) in {2, 3} && ControlMode(Adrm0(opw))) { return false; }
      Named(if OpSz(opw) == 2 then "JSR" else "JMP", SZ_NDEF);
      Operand0(true, SZ_ADDR, SZ_NDEF);
      if sref.rtype != SZ_NDEF { dref := Ref(SZ_ADDR, sref.addr); }
      ok := true;
    }

    /** Moves from SR, to CCR and to SR, and TAS. */
    method CheckLine4Mode3() returns (ok: bool)
      requires Fresh() && LineOf(opw) == 4
      modifies this
      ensures opw == old(opw)
      ensures ok ==> Mode6(opw) == 3 && Reg9(opw) in {0, 2, 3, 5}
      ensures !ok ==> pc == old(pc) && error == old(error) && Fresh() && opw != 0x4afc
      ensures ok ==> Lists(ListLine4(mem, memmsk, old(pc), opw), old(error))
      ensures ok ==> pc == old(pc) + Length(opw) - 2
      ensures !ok && Mode6(opw) == 3 ==>
                && (Reg9(opw) in {0, 5} ==> !DataAlterable(Adrm0(opw)))
                && (Reg9(opw) in {2, 3} ==> !DataMode(Adrm0(opw)))
    {
      hide EaOperand, EaError, Bit8, ListLine4, Length, EaSize;
      BitEight(opw);
      IllegalFields(opw);
      if Mode6(opw) != 3 { return false; }
      ModeThree(mem, memmsk, pc, opw);
      AnySize(Adrm0(opw));
      ok := false;
      if Reg9(opw) == 0 && DataAlterable(Adrm0(opw)) {
        Named("MOVE", SZ_NDEF);
        List(SpecialReg("SR"));
        Operand0(false, SZ_WORD, SZ_WORD);
        ok := true;
      } else if Reg9(opw) == 2 && DataMode(Adrm0(opw)) {
        Named("MOVE", SZ_NDEF);
        Operand0(true, SZ_WORD, SZ_BYTE);
        List(SpecialReg("CCR"));
        ok := true;
      } else if Reg9(opw) == 3 && DataMode(Adrm0(opw)) {
        Named("MOVE", SZ_NDEF);
        Operand0(true, SZ_WORD, SZ_WORD);
        List(SpecialReg("SR"));
        ok := true;
      } else if Reg9(opw) == 5 {
        ok := CheckImp("TAS", DataAlterable(Adrm0(opw)), SZ_ADDR);
        if !ok && w == 0x4afc {
          Named("ILLEGAL", SZ_NDEF);
          ok := true;
        }
      }
    }

    /** What is left of line 4 when nothing more specific matched. */
    method Line4Rest()
      requires Fresh() && LineOf(opw) == 4 && Mode6(opw) in {0, 1, 2, 3, 5} && opw != 0x4afc
      requires Mode6(opw) in {2, 3} ==>
                 && !(Reg9(opw) == 4 && Mode3(opw) == 0) && !MovemValid(opw)
                 && !(Reg9(opw) == 7 && ControlMode(Adrm0(opw)))
      requires Mode6(opw) == 3 ==>
                 && (Reg9(opw) in {0, 5} ==> !DataAlterable(Adrm0(opw)))
                 && (Reg9(opw) in {2, 3} ==> !DataMode(Adrm0(opw)))
      modifies this
      ensures opw == old(opw) && Lists(ListLine4(mem, memmsk, old(pc), opw), old(error))
      ensures pc == old(pc) + Length(opw) - 2
    {
      hide Bit8, ListOperand, ListMovem, ListSpecial, Ea0;
      BitEight(opw);
      var ok := false;
      if Reg9(opw) in {0, 1, 2, 3, 5} {
        ok := CheckImp(UNARY_OPS[Reg9(opw)], DataAlterable(Adrm0(opw)), OpSz(opw));
      } else if Reg9(opw) == 4 && Mode6(opw) == 0 {
        ok := CheckImp("NBCD", DataAlterable(Adrm0(opw)), SZ_ADDR);
      } else if Reg9(opw) == 4 && Mode6(opw) == 1 && Mode3(opw) == 0 {
        Named("SWAP", SZ_NDEF);
        List(DataReg(Reg0(opw)));
        ok := true;
      } else if Reg9(opw) == 4 && Mode6(opw) == 1 {
        ok := CheckImp("PEA", ControlMode(Adrm0(opw)), SZ_ADDR);
      } else if Reg9(opw) == 7 && Mode6(opw) == 1 {
        ok := Special();
      }
      if !ok { Dcw(); }
    }

    /** TRAP, LINK, UNLK, MOVE USP and the instructions without operands. */
    method Special() returns (ok: bool)
      requires Fresh() && LineOf(opw) == 4 && Reg9(opw) == 7 && Mode6(opw) == 1
      modifies this
      ensures opw == old(opw)
      ensures pc == old(pc) + if Mode3(opw) == 2 || (Mode3(opw) == 6 && Reg0(opw) == 2) then 2 else 0
      ensures if ok then Lists(ListSpecial(mem, memmsk, old(pc), opw), old(error)) else
              Fresh() && error == old(error) && ListSpecial(mem, memmsk, old(pc), opw) == DATA_WORD
    {
      hide EaOperand, EaError;
      ok := true;
      var m := Mode3(opw);
      if m <= 1 {
        Named("TRAP", SZ_NDEF);
        List(Imm(opw % 16));
        dref := Ref(SZ_ADDR, 0x80 + opw % 16 * 4);
      } else if m == 2 {
        Named("LINK", SZ_NDEF);
        List(AddrReg(Reg0(opw)));
        AnyRegister(mem, memmsk, pc, 0, MODE_IMM - MODE_ABSW, SZ_WORD);
        GetEa2(true, SZ_ADDR, MODE_ABSW, MODE_IMM - MODE_ABSW, SZ_WORD);
      } else if m == 3 {
        Named("UNLK", SZ_NDEF);
        List(AddrReg(Reg0(opw)));
      } else if m == 4 {
        Named("MOVE", SZ_NDEF);
        List(AddrReg(Reg0(opw)));
        List(SpecialReg("USP"));
      } else if m == 5 {
        Named("MOVE", SZ_NDEF);
        List(SpecialReg("USP"));
        List(AddrReg(Reg0(opw)));
      } else if m == 6 && Reg0(opw) != 4 {
        Named(PLAIN_OPS[Reg0(opw)], SZ_NDEF);
        if Reg0(opw) == 2 { GetEa2(true, SZ_WORD, MODE_IMM, 0, SZ_WORD); }
      } else {
        ok := false;
      }
    }

    method CheckLea() returns (ok: bool)
      requires Fresh() && LineOf(opw) == 4 && Mode6(opw) == 7
      modifies this
      ensures opw == old(opw) && ok == ControlMode(Adrm0(opw))
      ensures if ok then pc == old(pc) + Length(opw) - 2 else pc == old(pc) && error == old(error) && Fresh()
      ensures if ok then Lists(ListLine4(mem, memmsk, old(pc), opw), old(error)) else
              Length(opw) == 2 && ListLine4(mem, memmsk, pc, opw) == DATA_WORD
    {
      hide EaOperand, EaError;
      ok := ControlMode(Adrm0(opw));
      if ok {
        Named("LEA", SZ_NDEF);
        Operand0(true, SZ_ADDR, SZ_NDEF);
        List(AddrReg(Reg9(opw)));
      }
    }

    method CheckChk() returns (ok: bool)
      requires Fresh() && LineOf(opw) == 4 && Mode6(opw) == 6
      modifies this
      ensures opw == old(opw) && ok == DataMode(Adrm0(opw))
      ensures if ok then pc == old(pc) + Length(opw) - 2 else pc == old(pc) && error == old(error) && Fresh()
      ensures if ok then Lists(ListLine4(mem, memmsk, old(pc), opw), old(error)) else
              Length(opw) == 2 && ListLine4(mem, memmsk, pc, opw) == DATA_WORD
    {
      hide EaOperand, EaError;
      ok := DataMode(Adrm0(opw));
      if ok {
        Named("CHK", SZ_NDEF);
        Operand0(true, SZ_WORD, SZ_WORD);
        List(DataReg(Reg9(opw)));
        dref := Ref(SZ_ADDR, 0x18);
      }
    }

    method CheckExt() returns (ok: bool)
      requires Fresh() && LineOf(opw) == 4 && Mode6(opw) in {2, 3}
      modifies this
      ensures opw == old(opw) && pc == old(pc) && ok == (Reg9(opw) == 4 && Mode3(opw) == 0)
      ensures ok ==> Length(opw) == 2 && Lists(ListLine4(mem, memmsk, old(pc), opw), old(error))
      ensures !ok ==> error == old(error) && Fresh()
    {
      ok := Reg9(opw) == 4 && Mode3(opw) == 0;
      if ok {
        Named("EXT", 1 + Mode6(opw) % 2);
        List(DataReg(Reg0(opw)));
      }
    }

    method Line4()
      requires Fresh() && LineOf(opw) == 4
      modifies this
      ensures opw == old(opw) && pc == old(pc) + Length(opw) - 2
      ensures Lists(ListLine4(mem, memmsk, old(pc), opw), old(error))
    {
      hide ListLine4, Length, MovemValid, ControlMode, DataMode, DataAlterable, Extended;
      LineFour(mem, memmsk, pc, opw);
      var m6 := Mode6(opw);
      var ok := false;
      if m6 == 7 {
        ok := CheckLea();
        if !ok { Dcw(); }
      } else if m6 == 6 {
        ok := CheckChk();
        if !ok { Dcw(); }
      } else if m6 == 4 {
        Dcw();
      } else {
        if m6 == 3 || m6 == 2 {
          ok := CheckExt();
          if !ok { ok := CheckMovem(); }
          if !ok { ok := CheckJmp(); }
          if !ok { ok := CheckLine4Mode3(); }
        }
        if !ok { Line4Rest(); }
      }
    }

    // ---- Lines 5 to F

    /** ADDQ and SUBQ. */
    method CheckQuick() returns (ok: bool)
      requires Fresh() && LineOf(opw) == 5 && OpSz(opw) != 3
      modifies this
      ensures opw == old(opw) && ok == Alterable(Adrm0(opw))
      ensures if !ok then pc == old(pc) && error == old(error) && Fresh() else
              && pc == old(pc) + Length(opw) - 2 && Lists(ListLine5(mem, memmsk, old(pc), opw), old(error))
    {
      hide EaOperand, EaError, EaSize, BadWord, SW, Masked, DbccName, SccName;
      ok := Alterable(Adrm0(opw));
      if ok {
        Named(if Bit8(opw) then "SUBQ" else "ADDQ", OpSz(opw));
        List(Imm(if Reg9(opw) == 0 then 8 else Reg9(opw)));
        Operand0(false, OpSz(opw), OpSz(opw));
      }
    }

    method Line5()
      requires Fresh() && LineOf(opw) == 5
      modifies this
      ensures opw == old(opw) && pc == old(pc) + Length(opw) - 2
      ensures Lists(ListLine5(mem, memmsk, old(pc), opw), old(error))
    {
      hide EaOperand, EaError, EaSize, BadWord, SW, Masked, DbccName, SccName;
      if OpSz(opw) == 3 {
        if Adrm0(opw) == MODE_AN {
          Named(DbccName(opw), SZ_NDEF);
          List(DataReg(Reg0(opw)));
          var a := RelPC();
          List(Target(a));
          dref := Ref(SZ_ADDR, a);
        } else if DataAlterable(Adrm0(opw)) {
          Named(SccName(opw), SZ_NDEF);
          Operand0(false, SZ_BYTE, SZ_NDEF);
        } else { Dcw(); }
      } else {
        var ok := CheckQuick();
        if !ok { Dcw(); }
      }
    }

    method Line6()
      requires Fresh() && LineOf(opw) == 6
      modifies this
      ensures opw == old(opw) && pc == old(pc) + Length(opw) - 2
      ensures Lists(ListLine6(mem, memmsk, old(pc), opw), old(error))
    {
      hide BadWord, SW, Masked, BccName;
      var a;
      Named(BccName(opw), SZ_NDEF);
      if opw % 256 != 0 {
        a := (S8(opw) + pc) % 0x1_0000_0000;
      } else {
        a := RelPC();
      }
      List(Target(a));
      dref := Ref(SZ_ADDR, a);
    }

    method Line7()
      requires Fresh() && LineOf(opw) == 7
      modifies this
      ensures opw == old(opw) && pc == old(pc) + Length(opw) - 2
      ensures Lists(ListLine7(opw), old(error))
    {
      if Bit8(opw) { Dcw(); } else {
        Named("MOVEQ", SZ_NDEF);
        List(Imm(S8(opw)));
        List(DataReg(Reg9(opw)));
      }
    }

    /** An operation between a data register and an operand, either way. */
    method DnAe(n: string)
      requires Fresh() && OpSz(opw) != 3
      requires EaAllowed(!Bit8(opw), Adrm0(opw), Reg0(opw), OpSz(opw))
      modifies this
      ensures opw == old(opw) && pc == old(pc) + Ea0(opw, OpSz(opw))
      ensures Lists(ListDnAe(mem, memmsk, old(pc), opw, n), old(error))
    {
      hide EaOperand, EaError;
      Named(n, OpSz(opw));
      if Bit8(opw) {
        List(DataReg(Reg9(opw)));
        Operand0(false, OpSz(opw), OpSz(opw));
      } else {
        Operand0(true, OpSz(opw), OpSz(opw));
        List(DataReg(Reg9(opw)));
      }
    }

    /** Two registers, or two memory operands stepped down. */
    method RyRx(n: string, sz: nat)
      requires ops == []
      modifies `name, `size, `ops
      ensures Lists(ListRyRx(opw, n, sz), error)
    {
      Named(n, sz);
      if Mode3(opw) % 2 == 1 {
        List(PreDec(Reg0(opw)));
        List(PreDec(Reg9(opw)));
      } else {
        List(DataReg(Reg0(opw)));
        List(DataReg(Reg9(opw)));
      }
    }

    method LineB()
      requires Fresh() && LineOf(opw) == 0xb
      modifies this
      ensures opw == old(opw) && pc == old(pc) + Length(opw) - 2
      ensures Lists(ListLineB(mem, memmsk, old(pc), opw), old(error))
    {
      hide EaOperand, EaError;
      var m := Adrm0(opw);
      if Bit8(opw) && Mode3(opw) == 1 {
        Named("CMPM", SZ_NDEF);
        List(PostInc(Reg0(opw)));
        List(PostInc(Reg9(opw)));
      } else if OpSz(opw) == 3 && AnyMode(m) {
        var sz := if Bit8(opw) then SZ_LONG else SZ_WORD;
        Named("CMPA", sz);
        Operand0(true, sz, sz);
        List(AddrReg(Reg9(opw)));
      } else if OpSz(opw) != 3 && (if Bit8(opw) then DataAlterable(m) else AnyMode(m) && !(OpSz(opw) == 0 && m == 1)) {
        DnAe(if Bit8(opw) then "EOR" else "CMP");
      } else { Dcw(); }
    }

    method Line8C()
      requires Fresh() && LineOf(opw) in {8, 0xc}
      modifies this
      ensures opw == old(opw) && pc == old(pc) + Length(opw) - 2
      ensures Lists(ListLine8C(mem, memmsk, old(pc), opw), old(error))
    {
      hide EaOperand, EaError;
      var m := Adrm0(opw);
      if Bit8(opw) && OpSz(opw) == 0 && Mode3(opw) <= 1 {
        RyRx(if LineOf(opw) == 0xc then "ABCD" else "SBCD", SZ_ADDR);
      } else if OpSz(opw) == 3 && DataMode(m) {
        Named((if LineOf(opw) == 0xc then "MUL" else "DIV") + if Bit8(opw) then "S" else "U", SZ_NDEF);
        Operand0(true, SZ_WORD, SZ_WORD);
        List(DataReg(Reg9(opw)));
      } else if Bit8(opw) && ((OpSz(opw) == 1 && Mode3(opw) <= 1) || (OpSz(opw) == 2 && Mode3(opw) == 1)) {
        Named("EXG", SZ_NDEF);
        List(if OpSz(opw) == 1 && Mode3(opw) == 1 then AddrReg(Reg9(opw)) else DataReg(Reg9(opw)));
        List(if Mode3(opw) == 1 then AddrReg(Reg0(opw)) else DataReg(Reg0(opw)));
      } else if OpSz(opw) != 3 && (if Bit8(opw) then MemoryAlterable(m) else DataMode(m)) {
        DnAe(if LineOf(opw) == 0xc then "AND" else "OR");
      } else { Dcw(); }
    }

    method Line9D()
      requires Fresh() && LineOf(opw) in {9, 0xd}
      modifies this
      ensures opw == old(opw) && pc == old(pc) + Length(opw) - 2
      ensures Lists(ListLine9D(mem, memmsk, old(pc), opw), old(error))
    {
      hide EaOperand, EaError;
      var m := Adrm0(opw);
      if OpSz(opw) == 3 {
        if AnyMode(m) {
          var sz := if Bit8(opw) then SZ_LONG else SZ_WORD;
          Named(if LineOf(opw) == 0xd then "ADDA" else "SUBA", sz);
          Operand0(true, sz, sz);
          List(AddrReg(Reg9(opw)));
        } else { Dcw(); }
      } else if Bit8(opw) && Mode3(opw) <= 1 {
        RyRx(if LineOf(opw) == 0xd then "ADDX" else "SUBX", OpSz(opw));
      } else if (if Bit8(opw) then Alterable(m) else AnyMode(m)) && !(OpSz(opw) == 0 && m == 1) {
        DnAe(if LineOf(opw) == 0xd then "ADD" else "SUB");
      } else { Dcw(); }
    }

    method LineE()
      requires Fresh() && LineOf(opw) == 0xe
      modifies this
      ensures opw == old(opw) && pc == old(pc) + Length(opw) - 2
      ensures Lists(ListLineE(mem, memmsk, old(pc), opw), old(error))
    {
      hide EaOperand, EaError;
      if OpSz(opw) == 3 {
        if !MemoryAlterable(Adrm0(opw)) || Reg9(opw) >= 4 { Dcw(); } else {
          Named(SHIFTS[Reg9(opw)] + if Bit8(opw) then "L" else "R", SZ_NDEF);
          Operand0(true, SZ_BYTE, SZ_NDEF);
          dref := sref;
        }
      } else {
        Named(SHIFTS[opw / 8 % 4] + if Bit8(opw) then "L" else "R", OpSz(opw));
        List(if Bit5(opw) then DataReg(Reg9(opw)) else Imm(if Reg9(opw) == 0 then 8 else Reg9(opw)));
        List(DataReg(Reg0(opw)));
      }
    }

    /** The table desa_line. */
    method DecodeLine()
      requires Fresh()
      modifies this
      ensures opw == old(opw) && pc == old(pc) + Length(opw) - 2
      ensures Lists(ListLine(mem, memmsk, old(pc), opw), old(error))
    {
      hide EaOperand, EaError, EaSize, Length, BadWord, SW, UW, ListLine0, ListLine123, ListLine4, ListLine5, ListLine6,
        ListLine7, ListLine8C, ListLine9D, ListLineB, ListLineE;
      LineBelow16(opw);
      if LineOf(opw) == 0xa || LineOf(opw) == 0xf { EmulatorLines(opw); }
      var line := LineOf(opw);
      if line == 0 { Line0(); }
      else if line <= 3 { Line123(); }
      else if line == 4 { Line4(); }
      else if line == 5 { Line5(); }
      else if line == 6 { Line6(); }
      else if line == 7 { Line7(); }
      else if line == 8 || line == 0xc { Line8C(); }
      else if line == 9 || line == 0xd { Line9D(); }
      else if line == 0xb { LineB(); }
      else if line == 0xe { LineE(); }
      else { Dcw(); }
    }

    /** desa68: one instruction. The bytes it takes depend on the opcode word alone, whatever the
        extension words, the memory and the symbols are. */
    method Desa()
      modifies this
      ensures opw == UW(mem, Masked(memmsk, old(pc)))
      ensures pc == Masked(memmsk, Masked(memmsk, old(pc)) + Length(opw))
      ensures var start := Masked(memmsk, old(pc));
              Lists(ListLine(mem, memmsk, start + 2, opw), BadWord(mem, start))
    {
      hide EaOperand, EaError, EaSize, Length, BadWord, SW, UW, Masked, ListLine;
      sref, dref, error, ops, name, size := NO_REF, NO_REF, false, [], "", SZ_NDEF;
      pc := Masked(memmsk, pc);
      ghost var start := pc;
      w := PcW();
      opw := w % 0x1_0000;
      OpcodeWord(mem, start);
      DecodeLine();
      pc := Masked(memmsk, pc);
      if sref.rtype != SZ_NDEF { sref := sref.(addr := Masked(memmsk, sref.addr)); }
      if dref.rtype != SZ_NDEF { dref := dref.(addr := Masked(memmsk, dref.addr)); }
    }
  }

  lemma OpcodeWord(mem: Memory, a: int)
    ensures SW(mem, a) % 0x1_0000 == UW(mem, a) && SW(mem, a) == S16(UW(mem, a))
  {}

  /** An immediate operand has no register. */
  lemma AnyRegister(mem: Memory, mask: nat, pc: int, r: nat, reg: nat, immsz: nat)
    ensures EaOperand(mem, mask, pc, MODE_IMM, r, immsz) == EaOperand(mem, mask, pc, MODE_IMM, reg, immsz)
  {
    hide SW, SL, S8;
  }

  lemma IllegalFields(w: nat)
    requires w < 0x1_0000
    ensures S16(w) == 0x4afc <==> w == 0x4afc
    ensures w == 0x4afc ==> Mode6(w) == 3 && Reg9(w) == 5 && Adrm0(w) == MODE_IMM
  {}

  lemma ImmediateSize()
    ensures EaSize(MODE_IMM, SZ_WORD) == 2
  {}

  /** The fourth part of line 4 has no instructions; what MOVEM lists. */
  lemma LineFour(mem: Memory, mask: nat, pc: int, w: nat)
    requires w < 0x1_0000 && LineOf(w) == 4
    ensures Mode6(w) == 4 ==> Length(w) == 2 && ListLine4(mem, mask, pc, w) == DATA_WORD
    ensures w == 0x4afc ==> Mode6(w) == 3
    ensures Mode6(w) in {2, 3} && MovemValid(w) ==> ListLine4(mem, mask, pc, w) == ListMovem(mem, mask, pc, w)
  {
    hide ListMovem, ListSpecial, EaOperand, EaError;
    IllegalFields(w);
  }

  /** Without an immediate the size does not matter; an immediate byte takes a word. */
  lemma AnySize(m: nat)
    ensures EaSize(m, SZ_BYTE) == EaSize(m, SZ_WORD) && (m != MODE_IMM ==> EaSize(m, SZ_WORD) == EaSize(m, SZ_NDEF))
  {}

  /** Moves from SR, to CCR and to SR, and TAS. */
  lemma ModeThree(mem: Memory, mask: nat, pc: int, w: nat)
    requires w < 0x1_0000 && LineOf(w) == 4 && Mode6(w) == 3
    ensures Reg9(w) == 0 && DataAlterable(Adrm0(w)) ==>
              && ListLine4(mem, mask, pc, w)
                 == ListOperand(mem, mask, pc, w, SZ_WORD, "MOVE", SZ_NDEF, [SpecialReg("SR")], [])
              && Length(w) == 2 + Ea0(w, SZ_NDEF)
    ensures Reg9(w) == 2 && DataMode(Adrm0(w)) ==>
              && ListLine4(mem, mask, pc, w)
                 == ListOperand(mem, mask, pc, w, SZ_BYTE, "MOVE", SZ_NDEF, [], [SpecialReg("CCR")])
              && Length(w) == 2 + Ea0(w, SZ_WORD)
    ensures Reg9(w) == 3 && DataMode(Adrm0(w)) ==>
              && ListLine4(mem, mask, pc, w)
                 == ListOperand(mem, mask, pc, w, SZ_WORD, "MOVE", SZ_NDEF, [], [SpecialReg("SR")])
              && Length(w) == 2 + Ea0(w, SZ_WORD)
    ensures Reg9(w) == 5 && DataAlterable(Adrm0(w)) ==>
              && ListLine4(mem, mask, pc, w) == ListOperand(mem, mask, pc, w, SZ_NDEF, "TAS", SZ_ADDR, [], [])
              && Length(w) == 2 + Ea0(w, SZ_NDEF)
    ensures w == 0x4afc ==>
              ListLine4(mem, mask, pc, w) == Listing("ILLEGAL", SZ_NDEF, [], false) && Length(w) == 2
  {
    hide ListOperand, ListMovem, ListSpecial, EaSize;
    IllegalFields(w);
  }

  lemma SizeBits(w: nat)
    ensures OpSz(w) == Mode6(w) % 4
  {}

  lemma LineBelow16(w: nat)
    ensures LineOf(w) < 16
  {}

  lemma EmulatorLines(w: nat)
    requires w < 0x1_0000 && LineOf(w) in {0xa, 0xf}
    ensures Length(w) == 2
  {}

  /** Bit 8 is the top bit of the second mode field. */
  lemma BitEight(w: nat)
    ensures Bit8(w) == (Mode6(w) >= 4)
  {
    var q := w / 64;
    assert w / 256 == q / 4;
    assert q == 8 * (q / 8) + q % 8;
  }
}
