/** What desa68 lists for each kind of opcode, by the fields of the opcode, and how long it is
    (desa68/desa68.c:856-1836). */
module OpcodeLines {
  import opened Disassembly

  lemma NotIllegal(w: nat)
    ensures w == 0x4afc ==> Reg9(w) == 5 && Mode6(w) == 3
  {}

  // ---- Line 0.

  /** A bit named by a register; what cannot be changed is not even tested. */
  lemma BitByRegister(mem: Memory, mask: nat, at: int, w: nat)
    requires w < 0x1_0000 && LineOf(w) == 0 && Bit8(w) && Mode3(w) != 1
    ensures DataAlterable(Adrm0(w)) ==>
              && ListLine(mem, mask, at, w)
                 == ListOperand(mem, mask, at, w, SZ_NDEF, BIT_OPS[OpSz(w)], SZ_NDEF, [DataReg(Reg9(w))], [])
              && Length(w) == 2 + Ea0(w, SZ_NDEF)
    ensures !DataAlterable(Adrm0(w)) ==> ListLine(mem, mask, at, w) == DATA_WORD && Length(w) == 2
  {
    hide LineOf, Reg9, OpSz, Bit8, Mode3, Reg0, Adrm0, Ea0, ListOperand, EaOperand, EaError, EaSize;
  }

  lemma BitByNumber(mem: Memory, mask: nat, at: int, w: nat)
    requires w < 0x1_0000 && LineOf(w) == 0 && !Bit8(w) && Reg9(w) == 4
    ensures DataAlterable(Adrm0(w)) ==>
              && ListLine(mem, mask, at, w)
                 == Listing(BIT_OPS[OpSz(w)], SZ_NDEF,
                            [Imm(SW(mem, at) % 256), EaOperand(mem, mask, at + 2, Adrm0(w), Reg0(w), SZ_NDEF)],
                            BadWord(mem, at) || EaError(mem, at + 2, Adrm0(w), SZ_NDEF))
              && Length(w) == 4 + Ea0(w, SZ_NDEF)
    ensures !DataAlterable(Adrm0(w)) ==> ListLine(mem, mask, at, w) == DATA_WORD && Length(w) == 2
  {
    hide LineOf, Reg9, OpSz, Bit8, Mode3, Reg0, Adrm0, Ea0, ListOperand, EaOperand, EaError, EaSize, SW, BadWord;
  }

  lemma ImmediateToStatus(mem: Memory, mask: nat, at: int, w: nat)
    requires w < 0x1_0000 && LineOf(w) == 0 && !Bit8(w) && Reg9(w) in {0, 1, 5} && OpSz(w) < 2
             && Adrm0(w) == MODE_IMM
    ensures ListLine(mem, mask, at, w)
            == ListOperand(mem, mask, at, w, SZ_WORD, IMMEDIATE_OPS[Reg9(w)], SZ_NDEF,
                           [], [SpecialReg(if OpSz(w) == 1 then "SR" else "CCR")])
    ensures Length(w) == 4
  {
    hide LineOf, Reg9, OpSz, Bit8, Mode3, Reg0, Adrm0, ListOperand;
  }

  lemma ImmediateTo(mem: Memory, mask: nat, at: int, w: nat)
    requires w < 0x1_0000 && LineOf(w) == 0 && !Bit8(w) && Reg9(w) !in {4, 7} && OpSz(w) != 3
             && DataAlterable(Adrm0(w))
    ensures var sz := OpSz(w);
            var mid := at + EaSize(MODE_IMM, sz);
            && ListLine(mem, mask, at, w)
               == Listing(IMMEDIATE_OPS[Reg9(w)], sz,
                          [EaOperand(mem, mask, at, MODE_IMM, 0, sz),
                           EaOperand(mem, mask, mid, Adrm0(w), Reg0(w), SZ_NDEF)],
                          EaError(mem, at, MODE_IMM, sz) || EaError(mem, mid, Adrm0(w), SZ_NDEF))
            && Length(w) == 2 + EaSize(MODE_IMM, sz) + Ea0(w, SZ_NDEF)
  {
    hide LineOf, Reg9, OpSz, Bit8, Mode3, Reg0, Adrm0, Ea0, ListOperand, EaOperand, EaError, EaSize;
  }

  lemma Peripheral(mem: Memory, mask: nat, at: int, w: nat)
    requires w < 0x1_0000 && LineOf(w) == 0 && Bit8(w) && Mode3(w) == 1
    ensures var d, ea := DataReg(Reg9(w)), EaOperand(mem, mask, at, MODE_DAN, Reg0(w), SZ_NDEF);
            && ListLine(mem, mask, at, w)
               == Listing("MOVEP", SZ_WORD + OpSz(w) % 2, if Bit7(w) then [d, ea] else [ea, d],
                          EaError(mem, at, MODE_DAN, SZ_NDEF))
            && Length(w) == 4
  {
    hide LineOf, Reg9, OpSz, Bit8, Bit7, Mode3, Reg0, Adrm0, EaOperand, EaError;
  }

  // ---- Line 4.

  lemma Unary(mem: Memory, mask: nat, at: int, w: nat)
    requires w < 0x1_0000 && LineOf(w) == 4 && OpSz(w) == Mode6(w) <= 2 && DataAlterable(Adrm0(w))
    requires Reg9(w) in {0, 1, 2, 3, 5}
    ensures ListLine(mem, mask, at, w) == ListOperand(mem, mask, at, w, SZ_NDEF, UNARY_OPS[Reg9(w)], OpSz(w), [], [])
    ensures Length(w) == 2 + Ea0(w, SZ_NDEF)
  {
    NotIllegal(w);
    hide LineOf, Reg9, Mode6, OpSz, Bit8, Mode3, Reg0, Adrm0, Ea0, ListOperand, ListSpecial, ListMovem;
  }

  lemma NegateBcd(mem: Memory, mask: nat, at: int, w: nat)
    requires w < 0x1_0000 && LineOf(w) == 4 && Mode6(w) == 0 && Reg9(w) == 4 && DataAlterable(Adrm0(w))
    ensures ListLine(mem, mask, at, w) == ListOperand(mem, mask, at, w, SZ_NDEF, "NBCD", SZ_ADDR, [], [])
    ensures Length(w) == 2 + Ea0(w, SZ_NDEF)
  {
    NotIllegal(w);
    hide LineOf, Reg9, Mode6, OpSz, Bit8, Mode3, Reg0, Adrm0, Ea0, ListOperand, ListSpecial, ListMovem;
  }

  /** The operands of LEA, PEA, JSR and JMP. */
  lemma Control(mem: Memory, mask: nat, at: int, w: nat)
    requires w < 0x1_0000 && LineOf(w) == 4 && ControlMode(Adrm0(w)) && Mode3(w) != 0
    ensures Mode6(w) == 7 ==>
              ListLine(mem, mask, at, w)
              == ListOperand(mem, mask, at, w, SZ_NDEF, "LEA", SZ_NDEF, [], [AddrReg(Reg9(w))])
    ensures Mode6(w) in {2, 3} && Reg9(w) == 7 ==>
              ListLine(mem, mask, at, w)
              == ListOperand(mem, mask, at, w, SZ_NDEF, if Mode6(w) == 2 then "JSR" else "JMP", SZ_NDEF, [], [])
    ensures Mode6(w) == 1 && Reg9(w) == 4 ==>
              ListLine(mem, mask, at, w) == ListOperand(mem, mask, at, w, SZ_NDEF, "PEA", SZ_ADDR, [], [])
    ensures Mode6(w) == 7 || (Mode6(w) in {2, 3} && Reg9(w) == 7) || (Mode6(w) == 1 && Reg9(w) == 4) ==>
              Length(w) == 2 + Ea0(w, SZ_NDEF)
  {
    NotIllegal(w);
    hide LineOf, Reg9, Mode6, OpSz, Bit8, Mode3, Reg0, Adrm0, Ea0, ListOperand, ListSpecial, ListMovem;
  }

  lemma Check(mem: Memory, mask: nat, at: int, w: nat)
    requires w < 0x1_0000 && LineOf(w) == 4 && Mode6(w) == 6 && DataMode(Adrm0(w))
    ensures ListLine(mem, mask, at, w)
            == ListOperand(mem, mask, at, w, SZ_WORD, "CHK", SZ_NDEF, [], [DataReg(Reg9(w))])
    ensures Length(w) == 2 + Ea0(w, SZ_WORD)
  {
    hide LineOf, Reg9, Mode6, OpSz, Bit8, Mode3, Reg0, Adrm0, Ea0, ListOperand, ListSpecial, ListMovem;
  }

  /** MOVE from SR, and what stands where MOVE from CCR does on later processors. */
  lemma FromStatus(mem: Memory, mask: nat, at: int, w: nat)
    requires w < 0x1_0000 && LineOf(w) == 4 && Mode6(w) == 3 && Reg9(w) <= 1
    ensures DataAlterable(Adrm0(w)) && Reg9(w) == 0 ==>
              ListLine(mem, mask, at, w)
              == ListOperand(mem, mask, at, w, SZ_WORD, "MOVE", SZ_NDEF, [SpecialReg("SR")], [])
    ensures DataAlterable(Adrm0(w)) && Reg9(w) == 1 ==>
              ListLine(mem, mask, at, w) == ListOperand(mem, mask, at, w, SZ_NDEF, "CLR", OpSz(w), [], [])
    ensures DataAlterable(Adrm0(w)) ==> Length(w) == 2 + Ea0(w, SZ_NDEF)
    ensures !DataAlterable(Adrm0(w)) ==> ListLine(mem, mask, at, w) == DATA_WORD && Length(w) == 2
  {
    NotIllegal(w);
    hide LineOf, Reg9, Mode6, OpSz, Bit8, Mode3, Reg0, Adrm0, Ea0, ListOperand, ListSpecial, ListMovem;
  }

  lemma ToStatus(mem: Memory, mask: nat, at: int, w: nat)
    requires w < 0x1_0000 && LineOf(w) == 4 && Mode6(w) == 3 && Reg9(w) in {2, 3}
    ensures DataMode(Adrm0(w)) && Reg9(w) == 2 ==>
              ListLine(mem, mask, at, w)
              == ListOperand(mem, mask, at, w, SZ_BYTE, "MOVE", SZ_NDEF, [], [SpecialReg("CCR")])
    ensures DataMode(Adrm0(w)) && Reg9(w) == 3 ==>
              ListLine(mem, mask, at, w)
              == ListOperand(mem, mask, at, w, SZ_WORD, "MOVE", SZ_NDEF, [], [SpecialReg("SR")])
    ensures DataMode(Adrm0(w)) ==> Length(w) == 2 + Ea0(w, SZ_WORD)
    ensures !DataMode(Adrm0(w)) ==> ListLine(mem, mask, at, w) == DATA_WORD && Length(w) == 2
  {
    NotIllegal(w);
    hide LineOf, Reg9, Mode6, OpSz, Bit8, Mode3, Reg0, Adrm0, Ea0, ListOperand, ListSpecial, ListMovem;
  }

  lemma TestAndSet(mem: Memory, mask: nat, at: int, w: nat)
    requires w < 0x1_0000 && LineOf(w) == 4 && Mode6(w) == 3 && Reg9(w) == 5 && DataAlterable(Adrm0(w))
    ensures ListLine(mem, mask, at, w) == ListOperand(mem, mask, at, w, SZ_NDEF, "TAS", SZ_ADDR, [], [])
    ensures Length(w) == 2 + Ea0(w, SZ_NDEF)
  {
    hide LineOf, Reg9, Mode6, OpSz, Bit8, Mode3, Reg0, Adrm0, Ea0, ListOperand, ListSpecial, ListMovem;
  }

  lemma Many(mem: Memory, mask: nat, at: int, w: nat)
    requires w < 0x1_0000 && LineOf(w) == 4 && MovemValid(w) && Mode3(w) != 0
    ensures ListLine(mem, mask, at, w) == ListMovem(mem, mask, at, w) && Length(w) == 4 + Ea0(w, SZ_NDEF)
  {
    hide LineOf, Reg9, Mode6, OpSz, Bit8, Mode3, Reg0, Adrm0, Ea0, ListOperand, ListSpecial, ListMovem;
  }

  lemma Special(mem: Memory, mask: nat, at: int, w: nat)
    requires w < 0x1_0000 && LineOf(w) == 4 && Mode6(w) == 1 && Reg9(w) == 7
    ensures ListLine(mem, mask, at, w) == ListSpecial(mem, mask, at, w)
    ensures Length(w) == if Mode3(w) == 2 || (Mode3(w) == 6 && Reg0(w) == 2) then 4 else 2
  {
    NotIllegal(w);
    hide LineOf, Reg9, Mode6, OpSz, Bit8, Mode3, Reg0, Adrm0, Ea0, ListOperand, ListSpecial, ListMovem;
  }

  lemma ExtendOrSwap(mem: Memory, mask: nat, at: int, w: nat)
    requires w < 0x1_0000 && LineOf(w) == 4 && 1 <= Mode6(w) <= 3 && Reg9(w) == 4 && Mode3(w) == 0
    ensures ListLine(mem, mask, at, w)
            == Listing(if Mode6(w) == 1 then "SWAP" else "EXT", if Mode6(w) == 1 then SZ_NDEF else 1 + Mode6(w) % 2,
                       [DataReg(Reg0(w))], false)
    ensures Length(w) == 2
  {
    NotIllegal(w);
    hide LineOf, Reg9, Mode6, OpSz, Bit8, Reg0, ListOperand, ListSpecial, ListMovem;
  }

  lemma Illegal(mem: Memory, mask: nat, at: int)
    ensures ListLine(mem, mask, at, 0x4afc) == Listing("ILLEGAL", SZ_NDEF, [], false) && Length(0x4afc) == 2
  {
    assert Mode6(0x4afc) == 3 && Reg9(0x4afc) == 5 && Adrm0(0x4afc) == MODE_IMM && LineOf(0x4afc) == 4;
  }

  // ---- Lines 5 and 8 to E.

  lemma SetIf(mem: Memory, mask: nat, at: int, w: nat)
    requires w < 0x1_0000 && LineOf(w) == 5 && OpSz(w) == 3 && DataAlterable(Adrm0(w))
    ensures ListLine(mem, mask, at, w) == ListOperand(mem, mask, at, w, SZ_NDEF, SccName(w), SZ_NDEF, [], [])
    ensures Length(w) == 2 + Ea0(w, SZ_NDEF)
  {
    hide LineOf, OpSz, Adrm0, Reg0, Ea0, SccName, DbccName, EaOperand, EaError;
    var a := EaOperand(mem, mask, at, Adrm0(w), Reg0(w), SZ_NDEF);
    assert [] + [a] + [] == [a];
  }

  /** An operation of an operand on a data register, of the size in the opcode. */
  lemma ToDataRegister(mem: Memory, mask: nat, at: int, w: nat, name: string)
    requires w < 0x1_0000 && OpSz(w) < 3 && !Bit8(w) && AnyMode(Adrm0(w))
    requires LineOf(w) in {8, 9, 0xb, 0xc, 0xd}
    requires name == match LineOf(w) case 8 => "OR" case 9 => "SUB" case 11 => "CMP" case 12 => "AND" case _ => "ADD"
    ensures var ok := if LineOf(w) in {8, 0xc} then Adrm0(w) != 1 else !(OpSz(w) == 0 && Adrm0(w) == 1);
            if ok then
              && ListLine(mem, mask, at, w)
                 == ListOperand(mem, mask, at, w, OpSz(w), name, OpSz(w), [], [DataReg(Reg9(w))])
              && Length(w) == 2 + Ea0(w, OpSz(w))
            else ListLine(mem, mask, at, w) == DATA_WORD && Length(w) == 2
  {
    hide LineOf, Reg9, OpSz, Bit8, Mode3, Reg0, Adrm0, Ea0, ListOperand;
  }

  /** An operation of a data register on an operand in memory; EOR takes data registers too. */
  lemma FromDataRegister(mem: Memory, mask: nat, at: int, w: nat, name: string)
    requires w < 0x1_0000 && OpSz(w) < 3 && Bit8(w) && LineOf(w) in {8, 9, 0xb, 0xc, 0xd}
    requires Alterable(Adrm0(w)) && Mode3(w) != 1 && (LineOf(w) == 0xb || (Adrm0(w) >= 2 && Mode3(w) >= 2))
    requires Adrm0(w) != 1
    requires name == match LineOf(w) case 8 => "OR" case 9 => "SUB" case 11 => "EOR" case 12 => "AND" case _ => "ADD"
    ensures ListLine(mem, mask, at, w)
            == ListOperand(mem, mask, at, w, OpSz(w), name, OpSz(w), [DataReg(Reg9(w))], [])
    ensures Length(w) == 2 + Ea0(w, OpSz(w))
  {
    hide LineOf, Reg9, OpSz, Bit8, Mode3, Reg0, Adrm0, Ea0, ListOperand;
  }

  /** An operation on an address register. A long word of an address register is not compared. */
  lemma ToAddressRegister(mem: Memory, mask: nat, at: int, w: nat, name: string)
    requires w < 0x1_0000 && OpSz(w) == 3 && AnyMode(Adrm0(w)) && LineOf(w) in {9, 0xb, 0xd}
    requires name == match LineOf(w) case 9 => "SUBA" case 11 => "CMPA" case _ => "ADDA"
    ensures var sz := if Bit8(w) then SZ_LONG else SZ_WORD;
            if LineOf(w) == 0xb && Bit8(w) && Mode3(w) == 1 then
              ListLine(mem, mask, at, w) == Listing("CMPM", SZ_NDEF, [PostInc(Reg0(w)), PostInc(Reg9(w))], false)
            else
              && ListLine(mem, mask, at, w) == ListOperand(mem, mask, at, w, sz, name, sz, [], [AddrReg(Reg9(w))])
              && Length(w) == 2 + Ea0(w, sz)
  {
    hide LineOf, Reg9, OpSz, Bit8, Mode3, Reg0, Adrm0, Ea0, ListOperand;
  }

  lemma MultiplyOrDivide(mem: Memory, mask: nat, at: int, w: nat)
    requires w < 0x1_0000 && OpSz(w) == 3 && DataMode(Adrm0(w)) && LineOf(w) in {8, 0xc}
    ensures ListLine(mem, mask, at, w)
            == ListOperand(mem, mask, at, w, SZ_WORD,
                           (if LineOf(w) == 0xc then "MUL" else "DIV") + if Bit8(w) then "S" else "U", SZ_NDEF,
                           [], [DataReg(Reg9(w))])
    ensures Length(w) == 2 + Ea0(w, SZ_WORD)
  {
    hide LineOf, Reg9, OpSz, Bit8, Mode3, Reg0, Adrm0, Ea0, ListOperand;
  }

  /** ADDX, SUBX, ABCD, SBCD, CMPM and EXG: two registers and no extension words. */
  lemma TwoRegisters(mem: Memory, mask: nat, at: int, w: nat)
    requires w < 0x1_0000 && Bit8(w) && Mode3(w) <= 1 && Adrm0(w) == Mode3(w) && OpSz(w) < 3
    ensures LineOf(w) == 0xd ==> ListLine(mem, mask, at, w) == ListRyRx(w, "ADDX", OpSz(w))
    ensures LineOf(w) == 9 ==> ListLine(mem, mask, at, w) == ListRyRx(w, "SUBX", OpSz(w))
    ensures LineOf(w) == 0xc && OpSz(w) == 0 ==> ListLine(mem, mask, at, w) == ListRyRx(w, "ABCD", SZ_ADDR)
    ensures LineOf(w) == 8 && OpSz(w) == 0 ==> ListLine(mem, mask, at, w) == ListRyRx(w, "SBCD", SZ_ADDR)
    ensures LineOf(w) == 0xb && Mode3(w) == 1 ==>
              ListLine(mem, mask, at, w) == Listing("CMPM", SZ_NDEF, [PostInc(Reg0(w)), PostInc(Reg9(w))], false)
    ensures LineOf(w) == 0xc && (OpSz(w) == 1 || (OpSz(w) == 2 && Mode3(w) == 1)) ==>
              ListLine(mem, mask, at, w)
              == Listing("EXG", SZ_NDEF,
                         [if OpSz(w) == 1 && Mode3(w) == 1 then AddrReg(Reg9(w)) else DataReg(Reg9(w)),
                          if Mode3(w) == 1 then AddrReg(Reg0(w)) else DataReg(Reg0(w))], false)
    ensures LineOf(w) in {8, 9, 0xc, 0xd} || (LineOf(w) == 0xb && Mode3(w) == 1) ==> Length(w) == 2
  {
    hide LineOf, Reg9, OpSz, Bit8, Mode3, Reg0, Adrm0, ListOperand, ListRyRx;
  }

  lemma ShiftMemory(mem: Memory, mask: nat, at: int, w: nat)
    requires w < 0x1_0000 && LineOf(w) == 0xe && OpSz(w) == 3 && MemoryAlterable(Adrm0(w)) && Reg9(w) < 4
    ensures ListLine(mem, mask, at, w)
            == ListOperand(mem, mask, at, w, SZ_NDEF, SHIFTS[Reg9(w)] + if Bit8(w) then "L" else "R", SZ_NDEF, [], [])
    ensures Length(w) == 2 + Ea0(w, SZ_NDEF)
  {
    hide LineOf, Reg9, OpSz, Bit8, Reg0, Adrm0, Ea0, ListOperand;
  }

  lemma ShiftData(mem: Memory, mask: nat, at: int, w: nat)
    requires w < 0x1_0000 && LineOf(w) == 0xe && OpSz(w) < 3
    ensures ListLine(mem, mask, at, w)
            == Listing(SHIFTS[w / 8 % 4] + if Bit8(w) then "L" else "R", OpSz(w),
                       [if Bit5(w) then DataReg(Reg9(w)) else Imm(if Reg9(w) == 0 then 8 else Reg9(w)),
                        DataReg(Reg0(w))], false)
    ensures Length(w) == 2
  {
    hide LineOf, Reg9, OpSz, Bit8, Bit5, Reg0, Adrm0, ListOperand;
  }

  // ---- Words that are no instructions.

  /** What is listed as data takes one word, whatever follows. */
  lemma DataWord(mem: Memory, mask: nat, at: int, w: nat)
    requires w < 0x1_0000 && ListLine(mem, mask, at, w) == DATA_WORD
    ensures Length(w) == 2
  {
    hide Length, ListLine0, ListLine123, ListLine4, ListLine5, ListLine8C, ListLine9D, ListLineB, ListLineE, ListLine6,
      ListLine7;
    if LineOf(w) == 0 { Data0(mem, mask, at, w); }
    else if LineOf(w) == 4 { Data4(mem, mask, at, w); }
    else if LineOf(w) in {8, 9, 0xb, 0xc, 0xd} { DataAlu(mem, mask, at, w); }
    else { DataOther(mem, mask, at, w); }
  }

  lemma Data0(mem: Memory, mask: nat, at: int, w: nat)
    requires w < 0x1_0000 && LineOf(w) == 0 && ListLine0(mem, mask, at, w) == DATA_WORD
    ensures Length(w) == 2
  {
    hide LineOf, Reg9, OpSz, Bit8, Bit7, Mode3, Reg0, Adrm0, Ea0, EaOperand, EaError, EaSize, SW, BadWord;
  }

  lemma Data4(mem: Memory, mask: nat, at: int, w: nat)
    requires w < 0x1_0000 && LineOf(w) == 4 && ListLine4(mem, mask, at, w) == DATA_WORD
    ensures Length(w) == 2
  {
    hide LineOf, Reg9, Mode6, OpSz, Bit8, Mode3, Reg0, Adrm0, Ea0, EaOperand, EaError, EaSize, SW, BadWord;
  }

  lemma DataAlu(mem: Memory, mask: nat, at: int, w: nat)
    requires w < 0x1_0000 && LineOf(w) in {8, 9, 0xb, 0xc, 0xd} && ListLine(mem, mask, at, w) == DATA_WORD
    ensures Length(w) == 2
  {
    RegisterMode(w);
    hide LineOf, Reg9, OpSz, Bit8, Mode3, Reg0, Adrm0, Ea0, EaOperand, EaError, EaSize;
  }

  lemma RegisterMode(w: nat)
    ensures Mode3(w) <= 1 || Adrm0(w) <= 1 ==> Adrm0(w) == Mode3(w)
  {}

  lemma DataOther(mem: Memory, mask: nat, at: int, w: nat)
    requires w < 0x1_0000 && LineOf(w) !in {0, 4, 8, 9, 0xb, 0xc, 0xd} && ListLine(mem, mask, at, w) == DATA_WORD
    ensures Length(w) == 2
  {
    LineBelow16(w);
    hide LineOf, Reg9, Mode6, OpSz, Bit5, Bit8, Mode3, Reg0, Adrm0, Adrm6, Ea0, EaOperand, EaError, EaSize, SW, BadWord,
      MoveValid, BccName, DbccName, SccName, Masked, S8;
  }

  lemma LineBelow16(w: nat)
    ensures LineOf(w) < 16
  {}
}
