/** The assembler as the source writes it: a program counter, a code buffer, a symbol table and a
    relocation table that every line updates (as68/opcode.c, as68/as68.c). */
module AssemblerProgram {
  import opened BitStacks
  import opened Assembly

  /** The state with an error reported if `bad`. */
  function Reported(st: State, bad: bool): State {
    st.(errors := st.errors || bad)
  }

  /** Errors do not change what is stored. */
  lemma GenErrors(mode: Mode, st: State, shape: Shape, a: int, bad: bool)
    requires st.pc + shape.Size() <= |st.code| && !shape.LongShape?
    ensures Gen(mode, Reported(st, bad), shape, a) == Reported(Gen(mode, st, shape, a), bad)
  {}

  /** genW reports a value that is lost when it is stored. */
  predicate LostWord(mode: Mode, a: int) {
    mode.Writes() && LostBits(mode, a, -32768, 65535)
  }

  /** What a field whose value has been computed without an error lays down. */
  function Emitted(mode: Mode, st: State, f: Field, v: Value): (r: State)
    requires st.pc + f.Shape().Size() <= |st.code|
  {
    var st1 := Reported(st, FieldError(mode, f, v.(error := false)));
    if f.FDisp? && v.undefined then st1.(pc := st.pc + 2) else Gen(mode, st1, f.Shape(), v.v)
  }

  lemma EmittedIsField(mode: Mode, st: State, here: nat, f: Field, v: Value)
    requires st.pc + f.Shape().Size() <= |st.code| && v == StoredValue(mode, st.syms, here, st.pc, f)
    ensures Emitted(mode, Reported(st, v.error), f, v) == GenField(mode, st, here, f)
  {
    hide Gen, Eval, LostBits;
  }

  class Assembler {
    const code: array<Byte>
    const relocatable: bool
    // What the allocator leaves in the second value of a new variable.
    const junk: int
    var org: int
    var curPass: nat
    var pc: nat
    var maxPc: nat
    var syms: map<Name, Symbol>
    var rel: seq<nat>
    var errors: bool

    constructor (code: array<Byte>, relocatable: bool, org: int, junk: int)
      ensures this.code == code && this.relocatable == relocatable && this.junk == junk
      ensures this.org == (if relocatable then 0 else org) && curPass == 0 && Now() == Initial(code[..])
    {
      this.code, this.relocatable, this.junk := code, relocatable, junk;
      this.org := if relocatable then 0 else org;
      curPass, pc, maxPc, syms, rel, errors := 0, 0, 0, map[], [], false;
    }

    function ModeNow(): Mode
      reads this
    {
      Mode(relocatable, curPass, org)
    }

    ghost function Now(): State
      reads this, code
    {
      State(code[..], pc, maxPc, syms, rel, errors)
    }

    method Report(bad: bool)
      modifies `errors
      ensures errors == (old(errors) || bad)
    {
      if bad { errors := true; }
    }

    method Bump(n: nat)
      modifies `pc, `maxPc
      ensures Now() == Advance(old(Now()), n)
    {
      pc := pc + n;
      if pc > maxPc { maxPc := pc; }
    }

    method GenB(a: int)
      requires pc + 1 <= code.Length
      modifies `pc, `maxPc, `errors, code
      ensures Now() == Gen(ModeNow(), Reported(old(Now()), ModeNow().Writes() && LostBits(ModeNow(), a, -128, 255)),
                           ByteShape, a)
    {
      if ModeNow().Writes() {
        Report(LostBits(ModeNow(), a, -128, 255));
        code[pc] := a % 256;
        assert code[..] == Store(old(code[..]), pc, ByteShape.Bytes(a));
      }
      Bump(1);
    }

    method StoreWord(at: nat, a: int)
      requires at + 2 <= code.Length
      modifies code
      ensures code[..] == Store(old(code[..]), at, WordShape.Bytes(a))
    {
      code[at] := a / 256 % 256;
      code[at + 1] := a % 256;
    }

    method GenW(a: int)
      requires pc + 2 <= code.Length
      modifies `pc, `maxPc, `errors, code
      ensures Now() == Gen(ModeNow(), Reported(old(Now()), LostWord(ModeNow(), a)), WordShape, a)
    {
      if ModeNow().Writes() {
        Report(LostBits(ModeNow(), a, -32768, 65535));
        StoreWord(pc, a);
      }
      Bump(2);
    }

    method PutWord(a: nat, at: nat)
      requires at + 2 <= code.Length
      modifies `maxPc, `errors, code
      ensures Now() == PutW(ModeNow(), old(Now()), at, a)
    {
      if ModeNow().Writes() {
        Report(LostBits(ModeNow(), a, -32768, 65535));
        StoreWord(at, a);
      }
      if at + 2 > maxPc { maxPc := at + 2; }
    }

    method Gen24(a: int)
      requires pc + 3 <= code.Length
      modifies `pc, `maxPc, `errors, code
      ensures Now() == Gen(ModeNow(), Reported(old(Now()), ModeNow().Writes() && (a > 0xff_ffff || a < -0x80_0000)),
                           TriShape, a)
    {
      if ModeNow().Writes() {
        Report(a > 0xff_ffff || a < -0x80_0000);
        code[pc] := a / 0x1_0000 % 256;
        code[pc + 1] := a / 256 % 256;
        code[pc + 2] := a % 256;
        assert code[..] == Store(old(code[..]), pc, TriShape.Bytes(a));
      }
      Bump(3);
    }

    method StoreLong(at: nat, a: int)
      requires at + 4 <= code.Length
      modifies code
      ensures code[..] == Store(old(code[..]), at, LongShape.Bytes(a))
    {
      code[at] := a / 0x100_0000 % 256;
      code[at + 1] := a / 0x1_0000 % 256;
      code[at + 2] := a / 256 % 256;
      code[at + 3] := a % 256;
    }

    method LoadLong(at: nat) returns (there: int)
      requires at + 4 <= code.Length
      ensures there == GetL(code[..], at)
    {
      hide Int32;
      there := Int32(code[at] as int * 0x100_0000 + code[at + 1] as int * 0x1_0000 + code[at + 2] as int * 0x100
                     + code[at + 3]);
    }

    method GenLong(a: int)
      requires pc + 4 <= code.Length
      modifies `pc, `maxPc, `errors, `rel, code
      ensures Now() == Gen(ModeNow(), old(Now()), LongShape, a)
    {
      hide Int32, GetL, Store;
      var there := LoadLong(pc);
      if relocatable && curPass == 3 && Int32(a - there) == SHIFTED {
        if |rel| >= MAX_REL {
          errors := true;
        } else {
          rel := rel + [pc];
        }
      } else {
        StoreLong(pc, a);
      }
      Bump(4);
    }

    /** One operand or one item of data. */
    method EmitField(here: nat, f: Field)
      requires pc + f.Shape().Size() <= code.Length
      modifies `pc, `maxPc, `errors, `rel, code
      ensures Now() == GenField(ModeNow(), old(Now()), here, f)
    {
      hide StoredValue, GenField, Emitted;
      var v := StoredValue(ModeNow(), syms, here, pc, f);
      EmittedIsField(ModeNow(), Now(), here, f, v);
      Report(v.error);
      match f {
        case FByte(_) | FTri(_) | FLong(_) => EmitData(v, f);
        case FWord(_) | FShort(_) | FImmByte(_) | FDisp(_) => EmitWord(v, f);
        case FRel(_) | FLoop(_) => EmitDistance(v, f);
        case FIndex(_, _) | FRelShort(_, _) | FQuick(_, _) => EmitOffset(v, f);
      }
    }

    method EmitData(v: Value, f: Field)
      requires pc + f.Shape().Size() <= code.Length && (f.FByte? || f.FTri? || f.FLong?)
      modifies `pc, `maxPc, `errors, `rel, code
      ensures Now() == Emitted(ModeNow(), old(Now()), f, v)
    {
      hide Gen, LostBits;
      match f {
        case FByte(_) => GenB(v.v);
        case FTri(_) => Gen24(v.v);
        case FLong(_) => GenLong(v.v);
      }
    }

    method EmitWord(v: Value, f: Field)
      requires pc + f.Shape().Size() <= code.Length && (f.FWord? || f.FShort? || f.FImmByte? || f.FDisp?)
      modifies `pc, `maxPc, `errors, code
      ensures Now() == Emitted(ModeNow(), old(Now()), f, v)
    {
      hide Gen, LostBits;
      match f {
        case FWord(_) => GenW(v.v);
        case FShort(_) => EmitShort(v.v);
        case FImmByte(_) => EmitImmediate(v.v);
        case FDisp(_) => EmitDisplacement(v);
      }
    }

    /** A short address: it must not be negative as a word. */
    method EmitShort(a: int)
      requires pc + 2 <= code.Length
      modifies `pc, `maxPc, `errors, code
      ensures Now() == Gen(ModeNow(), Reported(old(Now()), a >= 32768 || LostBits(ModeNow(), a, -32768, 65535)),
                           WordShape, a)
    {
      hide Gen, Store;
      Report(a >= 32768 || LostBits(ModeNow(), a, -32768, 65535));
      GenW(a);
    }

    /** A displacement: one that is not defined yet only takes its place. */
    method EmitDisplacement(v: Value)
      requires pc + 2 <= code.Length
      modifies `pc, `maxPc, `errors, code
      ensures var st := Reported(old(Now()), curPass > 1 && !v.undefined && v.v >= 32768);
              Now() == if v.undefined then st.(pc := st.pc + 2)
                       else Gen(ModeNow(), Reported(st, LostWord(ModeNow(), v.v)), WordShape, v.v)
    {
      hide Gen, Store, LostWord;
      Report(curPass > 1 && !v.undefined && v.v >= 32768);
      if v.undefined {
        pc := pc + 2;
      } else {
        GenW(v.v);
      }
    }

    /** A byte operand after `#`: stored as a word and tested as a byte. */
    method EmitImmediate(a: int)
      requires pc + 2 <= code.Length
      modifies `pc, `maxPc, `errors, code
      ensures var st := Reported(old(Now()), LostWord(ModeNow(), a));
              Now() == Gen(ModeNow(), Reported(st, LostBits(ModeNow(), a, -128, 255)), WordShape, a)
    {
      hide Gen, Store, LostWord;
      GenErrors(ModeNow(), Reported(Now(), LostWord(ModeNow(), a)), WordShape, a, LostBits(ModeNow(), a, -128, 255));
      GenW(a);
      Report(LostBits(ModeNow(), a, -128, 255));
    }

    /** The distance of a branch or of DBcc. */
    method EmitDistance(v: Value, f: Field)
      requires pc + f.Shape().Size() <= code.Length && (f.FRel? || f.FLoop?)
      modifies `pc, `maxPc, `errors, code
      ensures Now() == Emitted(ModeNow(), old(Now()), f, v)
    {
      hide Gen, Store;
      var a := v.v;
      Report((a == 0 && curPass >= 2) || a % 2 != 0 || LostBits(ModeNow(), a, -32768, 65535) || a >= 32768);
      GenW(a);
    }

    /** An index word with its displacement, or an opcode with a byte in it. */
    method EmitOffset(v: Value, f: Field)
      requires pc + f.Shape().Size() <= code.Length && (f.FIndex? || f.FRelShort? || f.FQuick?)
      modifies `pc, `maxPc, `errors, `rel, code
      ensures Now() == Emitted(ModeNow(), old(Now()), f, v)
    {
      hide Gen, Store;
      var a := v.v;
      match f {
        case FIndex(_, base) =>
          if !v.undefined { Report(LostBits(ModeNow(), a, -128, 255)); }
          GenLow(a, base);
        case FRelShort(_, base) =>
          Report((a == 0 && curPass >= 2) || a % 2 != 0 || LostBits(ModeNow(), a, -128, 255) || a >= 128);
          GenLow(a, base);
        case FQuick(_, base) =>
          Report(LostBits(ModeNow(), a, -128, 255));
          GenLow(a, base);
      }
    }

    /** A word with the low byte of `a` in it. */
    method GenLow(a: int, base: nat)
      requires pc + 2 <= code.Length
      modifies `pc, `maxPc, `errors, code
      ensures Now() == Gen(ModeNow(), Reported(old(Now()), LostWord(ModeNow(), a % 256 + base)), LowShape(base), a)
    {
      hide Store;
      GenW(a % 256 + base);
    }

    method EmitFields(here: nat, fs: seq<Field>)
      requires pc + Sizes(fs) <= code.Length
      modifies `pc, `maxPc, `errors, `rel, code
      ensures Now() == GenFields(ModeNow(), old(Now()), here, fs)
    {
      hide GenField;
      var i := 0;
      while i < |fs|
        invariant 0 <= i <= |fs| && pc + Sizes(fs[i..]) <= code.Length
        invariant GenFields(ModeNow(), Now(), here, fs[i..]) == GenFields(ModeNow(), old(Now()), here, fs)
      {
        assert fs[i..][1..] == fs[i + 1..];
        EmitField(here, fs[i]);
        i := i + 1;
      }
    }

    method PlaceLabel(name: Name)
      modifies `syms, `errors
      ensures Now() == DefineLabel(ModeNow(), old(Now()), name)
    {
      hide Int32;
      if name !in syms {
        syms := syms[name := Symbol(true, Int32(pc + org), Int32(pc + org))];
      } else if curPass == 1 {
        errors := true;
      } else if relocatable {
        syms := syms[name := syms[name].(value := pc, value2 := Int32(pc + SHIFTED))];
      } else {
        syms := syms[name := syms[name].(value := Int32(pc + org))];
      }
    }

    method SetVariable(name: Name, e: Expr)
      modifies `syms, `errors
      ensures Now() == Assign(ModeNow(), old(Now()), name, e, junk)
    {
      hide Int32, Eval;
      var v := Eval(ModeNow(), syms, pc, pc, e);
      var known := name in syms;
      Report(v.error || (known && (v.undefined || (syms[name].isLabel && curPass == 1))));
      if !known {
        if !v.undefined { PutSymbol(name, Symbol(false, v.v, junk)); }
      } else if relocatable && curPass == 3 {
        PutSymbol(name, syms[name].(isLabel := false, value2 := v.v));
      } else {
        PutSymbol(name, syms[name].(isLabel := false, value := v.v, value2 := v.v));
      }
    }

    method PutSymbol(name: Name, w: Symbol)
      modifies `syms
      ensures Now() == old(Now()).(syms := old(syms)[name := w])
    {
      syms := syms[name := w];
    }

    method AssembleLine(line: Line)
      requires pc + LineSize(line) <= code.Length
      modifies this`pc, this`maxPc, this`errors, this`rel, this`syms, code
      ensures Now() == RunLine(ModeNow(), old(Now()), line, junk)
    {
      hide Assign, DefineLabel, GenFields, PutW;
      var curPC := pc;
      match line {
        case Equate(name, e) => SetVariable(name, e);
        case Code(mark, body) =>
          if mark.Some? { PlaceLabel(mark.value); }
          match body {
            case Nothing =>
            case Data(fs) => EmitFields(curPC, fs);
            case Instr(opcode, fs) =>
              pc := pc + 2;
              EmitFields(curPC, fs);
              PutWord(opcode, curPC);
          }
      }
    }

    method Pass(lines: seq<Line>)
      requires Extent(lines) <= code.Length
      modifies this`pc, this`maxPc, this`errors, this`rel, this`syms, code
      ensures Now() == RunPass(ModeNow(), old(Now()), lines, junk)
    {
      hide RunLine;
      pc, maxPc := 0, 0;
      ghost var start := Now();
      var i := 0;
      while i < |lines|
        invariant 0 <= i <= |lines| && pc + Extent(lines[i..]) <= code.Length
        invariant RunLines(ModeNow(), Now(), lines[i..], junk) == RunLines(ModeNow(), start, lines, junk)
      {
        assert lines[i..][1..] == lines[i + 1..];
        AssembleLine(lines[i]);
        i := i + 1;
      }
    }

    /** The pass loop of assemble, and what it leaves to be written out. */
    method Assemble(lines: seq<Line>) returns (out: Output)
      requires Extent(lines) <= code.Length && Now() == Initial(code[..]) && (relocatable ==> org == 0)
      modifies this, code
      ensures out == if relocatable then AssembleRelocatable(lines, old(code[..]), junk)
                     else AssembleAt(lines, old(code[..]), old(org), junk)
    {
      hide RunPass, Initial;
      curPass := 1;
      Pass(lines);
      if errors { return Failure; }
      curPass := 2;
      Pass(lines);
      if relocatable {
        if errors { return Failure; }
        curPass, org := 3, SHIFTED;
        Pass(lines);
      }
      out := if errors || maxPc > code.Length then Failure else Image(code[..maxPc], rel);
    }
  }
}
