/** MOVE in a whole program: what as68 puts into its image, with labels and equates in the operands,
    assembled at an origin or relocated to it, is what desa68 lists there (as68/as68.c:351-421,
    as68/opcode.c:1255-1336, desa68/desa68.c:991-1009). */
module MovePrograms {
  import opened Options
  import opened BitStacks
  import opened Assembly
  import opened Relocation
  import opened RelocationPasses
  import opened RelocationTheorem
  import opened MoveCoding
  import D = Disassembly

  // ---- Operands with expressions.

  /** The extension words of an operand whose number is `e`. */
  function FieldsWith(t: nat, o: Operand, e: Expr): seq<Field>
    requires Writable(o)
  {
    match o
    case Disp(_, _) => [FDisp(e)]
    case Index(_, _, x, long) => [FIndex(e, IndexBase(x, long))]
    case AbsWord(_) => [FShort(e)]
    case AbsLong(_) => [FLong(e)]
    case PcDisp(_) => [FDisp(Sub(e, Pc))]
    case PcIndex(_, x, long) => [FIndex(Sub(e, Pc), IndexBase(x, long))]
    case Imm(_) => [if t == D.SZ_LONG then FLong(e) else if t == D.SZ_BYTE then FImmByte(e) else FWord(e)]
    case _ => []
  }

  /** The operand with the number `v`. */
  function WithNumber(o: Operand, v: int): Operand {
    match o
    case Disp(_, n) => D.Disp(v, n)
    case Index(_, n, x, long) => D.Index(v, n, x, long)
    case AbsWord(_) => D.AbsWord(v)
    case AbsLong(_) => D.AbsLong(v)
    case PcDisp(_) => D.PcDisp(v)
    case PcIndex(_, x, long) => D.PcIndex(v, x, long)
    case Imm(_) => D.Imm(v)
    case _ => o
  }

  /** Two operands of an instruction of size `t`, with an expression in each that has a number. */
  datatype Operands = Operands(t: nat, src: Operand, srcExpr: Expr, dst: Operand, dstExpr: Expr) {
    predicate Valid() {
      Writable(src) && Writable(dst) && t <= D.SZ_LONG
    }

    function Exts(): seq<Field>
      requires Valid()
    {
      FieldsWith(t, src, srcExpr) + FieldsWith(t, dst, dstExpr)
    }

    /** A MOVE between them. */
    function MoveBody(): Body
      requires Valid()
    {
      Instr(MoveOpcode(t, src, dst), Exts())
    }
  }

  lemma NumberFields(t: nat, o: Operand, v: int)
    requires Writable(o)
    ensures Writable(WithNumber(o, v)) && FieldsWith(t, o, Num(v)) == OpFields(t, WithNumber(o, v))
    ensures OpMode(WithNumber(o, v)) == OpMode(o)
  {
  }

  lemma FieldsSize(t: nat, o: Operand, e: Expr, v: int)
    requires Writable(o)
    ensures Sizes(FieldsWith(t, o, e)) == Sizes(FieldsWith(t, o, Num(v)))
  {
    if FieldsWith(t, o, e) != [] {
      assert FieldsWith(t, o, e)[1..] == [] && FieldsWith(t, o, Num(v))[1..] == [];
    }
  }

  lemma SameDistance(mode: Mode, syms: map<Name, Symbol>, here: int, pc: int, e: Expr, v: int)
    requires Eval(mode, syms, here, pc, e) == Value(v, false, false) && Int32(v) == v
    ensures Eval(mode, syms, here, pc, Num(v)) == Value(v, false, false)
    ensures Eval(mode, syms, here, pc, Sub(e, Pc)) == Eval(mode, syms, here, pc, Sub(Num(v), Pc))
  {
    hide Int32;
  }

  lemma SameStored(org: int, syms: map<Name, Symbol>, here: int, pc: int, t: nat, o: Operand, e: Expr, v: int)
    requires Writable(o) && FieldsWith(t, o, e) != []
    requires Eval(Absolute(org), syms, here, pc, e) == Value(v, false, false) && Int32(v) == v
    ensures StoredValue(Absolute(org), syms, here, pc, FieldsWith(t, o, e)[0])
         == StoredValue(Absolute(org), syms, here, pc, FieldsWith(t, o, Num(v))[0])
  {
    var mode := Absolute(org);
    SameDistance(mode, syms, here, pc, e, v);
    hide Int32, Eval;
  }

  lemma SameKind(mode: Mode, t: nat, o: Operand, e: Expr, v: int, x: Value)
    requires Writable(o) && FieldsWith(t, o, e) != []
    ensures var f, g := FieldsWith(t, o, e)[0], FieldsWith(t, o, Num(v))[0];
            f.Shape() == g.Shape() && f.FDisp? == g.FDisp? && FieldError(mode, f, x) == FieldError(mode, g, x)
  {
    hide LostBits;
  }

  /** An expression and its value lay down the same. */
  lemma SameField(org: int, st: State, here: nat, t: nat, o: Operand, e: Expr, v: int)
    requires Writable(o) && st.pc + Sizes(FieldsWith(t, o, e)) <= |st.code|
    requires FieldsWith(t, o, e) != [] ==>
               Eval(Absolute(org), st.syms, here, st.pc, e) == Value(v, false, false) && Int32(v) == v
    ensures Sizes(FieldsWith(t, o, e)) == Sizes(FieldsWith(t, o, Num(v)))
    ensures GenFields(Absolute(org), st, here, FieldsWith(t, o, e))
            == GenFields(Absolute(org), st, here, FieldsWith(t, o, Num(v)))
    ensures GenFields(Absolute(org), st, here, FieldsWith(t, o, e)).syms == st.syms
  {
    FieldsSize(t, o, e, v);
    OneField(t, o, e);
    OneField(t, o, Num(v));
    var fs, gs := FieldsWith(t, o, e), FieldsWith(t, o, Num(v));
    hide Int32, Store, LostBits, Eval, FieldsWith, FieldError, StoredValue, Gen, Records;
    if fs != [] {
      SameStored(org, st.syms, here, st.pc, t, o, e, v);
      SameKind(Absolute(org), t, o, e, v, StoredValue(Absolute(org), st.syms, here, st.pc, fs[0]));
      SymsStay(Absolute(org), st, here, fs[0]);
    }
  }

  lemma OneField(t: nat, o: Operand, e: Expr)
    requires Writable(o)
    ensures FieldsWith(t, o, e) == [] <==> FieldsWith(t, o, Num(0)) == []
    ensures FieldsWith(t, o, e) != [] ==> FieldsWith(t, o, e)[1..] == []
  {
  }

  lemma SymsStay(mode: Mode, st: State, here: nat, f: Field)
    requires st.pc + f.Shape().Size() <= |st.code|
    ensures GenField(mode, st, here, f).syms == st.syms
  {
    hide StoredValue, FieldError, Store, Records;
  }

  // ---- A line.

  /** The numbers of the operands are these where the line stands. */
  ghost predicate Numbers(m: Operands, mode: Mode, syms: map<Name, Symbol>, at: nat, x: int, y: int)
    requires m.Valid()
  {
    var ext, ext' := FieldsWith(m.t, m.src, m.srcExpr), FieldsWith(m.t, m.dst, m.dstExpr);
    && (ext != [] ==> Eval(mode, syms, at, at + 2, m.srcExpr) == Value(x, false, false) && Int32(x) == x)
    && (ext' != [] ==> Eval(mode, syms, at, at + 2 + Sizes(ext), m.dstExpr) == Value(y, false, false) && Int32(y) == y)
  }

  lemma SameExts(org: int, st: State, here: nat, m: Operands, x: int, y: int)
    requires m.Valid() && here + 2 == st.pc && Numbers(m, Absolute(org), st.syms, here, x, y)
    requires st.pc + Sizes(m.Exts()) <= |st.code|
    ensures Sizes(m.Exts()) == Sizes(OpFields(m.t, WithNumber(m.src, x)) + OpFields(m.t, WithNumber(m.dst, y)))
    ensures GenFields(Absolute(org), st, here, m.Exts())
         == GenFields(Absolute(org), st, here,
                      OpFields(m.t, WithNumber(m.src, x)) + OpFields(m.t, WithNumber(m.dst, y)))
  {
    hide Eval, FieldsWith, GenFields, WithNumber, OpFields, Sizes;
    var mode := Absolute(org);
    var a, b := FieldsWith(m.t, m.src, m.srcExpr), FieldsWith(m.t, m.dst, m.dstExpr);
    NumberFields(m.t, m.src, x);
    NumberFields(m.t, m.dst, y);
    var a', b' := FieldsWith(m.t, m.src, Num(x)), FieldsWith(m.t, m.dst, Num(y));
    SizesAppend(a, b);
    SizesAppend(a', b');
    SameField(org, st, here, m.t, m.src, m.srcExpr, x);
    var mid := GenFields(mode, st, here, a);
    SameField(org, mid, here, m.t, m.dst, m.dstExpr, y);
    GenFieldsAppend(mode, st, here, a, b);
    GenFieldsAppend(mode, st, here, a', b');
  }

  /** The line with its expressions does what the line with the numbers does. */
  lemma SameLine(org: int, st: State, w: nat, m: Operands, x: int, y: int, junk: int)
    requires m.Valid() && Numbers(m, Absolute(org), st.syms, st.pc, x, y)
    requires st.pc + LineSize(Code(None, Instr(w, m.Exts()))) <= |st.code|
    ensures Writable(WithNumber(m.src, x)) && Writable(WithNumber(m.dst, y))
    ensures var line := InstrLine(w, m.t, WithNumber(m.src, x), WithNumber(m.dst, y));
            var line' := Code(None, Instr(w, m.Exts()));
            && LineSize(line) == LineSize(line')
            && RunLine(Absolute(org), st, line, junk) == RunLine(Absolute(org), st, line', junk)
  {
    hide GenFields, WithNumber, OpFields, Sizes, OpMode, Operands.Exts, Numbers;
    NumberFields(m.t, m.src, x);
    NumberFields(m.t, m.dst, y);
    SameExts(org, st.(pc := st.pc + 2), st.pc, m, x, y);
  }

  // ---- A program.

  /** What the names stand for at line `k`. */
  function EnvAt(env: map<Name, Lin>, lines: seq<Line>, pc: nat, k: nat): map<Name, Lin>
    requires Pieces(env, lines, pc).Some? && k < |lines|
    decreases k, lines
  {
    if k == 0 then env else EnvAt(EnvAfter(env, lines[0], pc).value, lines[1..], pc + LineSize(lines[0]), k - 1)
  }

  lemma LaterLines(mode: Mode, st: State, r: State, pieces: seq<Piece>, i: nat)
    requires LaysDown(mode, st, r, pieces) && i < st.pc
    ensures r.code[i] == st.code[i] && (!r.errors ==> !st.errors)
  {
    hide Rewrite, Places;
  }

  /** When a pass of an absolute assembly comes to a line, names have their values at its origin, and
      what it stores for the line stays. */
  lemma {:induction false} AtLine(org: int, st: State, env: map<Name, Lin>, lines: seq<Line>, junk: int,
        done: map<Name, Lin>, seen: set<Name>, k: nat)
    returns (at: State)
    requires var mode := Absolute(org); Agrees(mode, st.syms, env) && st.maxPc == st.pc
    requires st.pc + Extent(lines) <= |st.code| < 0x8000_0000
    requires Pieces(env, lines, st.pc).Some? && Knows(env, Labels(lines, st.pc)) && Knows(env, done)
    requires DefinedOnce(lines, seen) && k < |lines| && lines[k].Code?
    ensures at.pc == st.pc + Extent(lines[..k]) && |at.code| == |st.code| && at.pc + LineSize(lines[k]) <= |at.code|
    ensures Agrees(Absolute(org), at.syms, EnvAt(env, lines, st.pc, k))
    ensures LinePieces(EnvAt(env, lines, st.pc, k), lines[k], at.pc).Some?
    ensures var r := RunLine(Absolute(org), at, Code(None, lines[k].body), junk);
            var end := RunLines(Absolute(org), st, lines, junk);
            (!end.errors ==> !r.errors) && forall i :: at.pc <= i < r.pc ==> end.code[i] == r.code[i]
    decreases k
  {
    hide LinePieces, RunLine, LaysDown, Agrees, Knows, DefinedOnce, Pieces, LineSize, Moved, EquatesKnown;
    var mode := Absolute(org);
    NextLines(env, lines, st.pc, done, seen);
    var now, env' := RunLinePieces(mode, st, env, lines[0], junk, done);
    var next := RunLine(mode, st, lines[0], junk);
    var done', seen' := Marked(done, lines[0], st.pc), SeenAfter(seen, lines[0]);
    if k == 0 {
      assert lines[..0] == [];
      at := AtMark(mode, st, env, lines[0], junk, done);
      var rest := RunLinesPieces(mode, next, env', lines[1..], junk, done', seen');
      LaterStays(mode, next, RunLines(mode, st, lines, junk), rest);
    } else {
      at := AtLine(org, next, env', lines[1..], junk, done', seen', k - 1);
      assert lines[..k][1..] == lines[1..][..k - 1];
    }
  }

  /** The state when the label of a line has been placed. */
  lemma AtMark(mode: Mode, st: State, env: map<Name, Lin>, line: Line, junk: int, done: map<Name, Lin>)
    returns (at: State)
    requires StoringPass(mode) && !mode.relocatable && Agrees(mode, st.syms, env) && line.Code?
    requires st.pc + LineSize(line) <= |st.code| && st.pc < 0x8000_0000
    requires Knows(env, Marked(done, line, st.pc)) && Knows(env, done)
    ensures at == st.(syms := at.syms) && Agrees(mode, at.syms, env)
    ensures at.pc + LineSize(Code(None, line.body)) <= |at.code|
    ensures RunLine(mode, st, line, junk) == RunLine(mode, at, Code(None, line.body), junk)
  {
    hide RunLine, Agrees, Knows, DefineLabel;
    at := st;
    if line.mark.Some? {
      MarkDefined(mode, st, env, line, done);
      at := DefineLabel(mode, st, line.mark.value);
    }
    LabelFirst(mode, st, line, junk);
  }

  /** What has been stored stays when more is laid down behind it, and so do errors. */
  lemma LaterStays(mode: Mode, st: State, r: State, pieces: seq<Piece>)
    requires LaysDown(mode, st, r, pieces)
    ensures !r.errors ==> !st.errors
    ensures forall i :: 0 <= i < st.pc ==> r.code[i] == st.code[i]
  {
    hide LaysDown;
    ErrorsStay(mode, st, r, pieces);
    LaysInside(mode, st, r, pieces);
    forall i | 0 <= i < st.pc
      ensures r.code[i] == st.code[i]
    {
      LaterLines(mode, st, r, pieces, i);
    }
  }

  lemma LaysInside(mode: Mode, st: State, r: State, pieces: seq<Piece>)
    requires LaysDown(mode, st, r, pieces)
    ensures st.pc <= |st.code| == |r.code|
  {
    hide Rewrite, Places;
  }

  lemma ErrorsStay(mode: Mode, st: State, r: State, pieces: seq<Piece>)
    requires LaysDown(mode, st, r, pieces)
    ensures !r.errors ==> !st.errors
  {
    hide Rewrite, Places;
  }

  lemma MarkDefined(mode: Mode, st: State, env: map<Name, Lin>, line: Line, done: map<Name, Lin>)
    requires StoringPass(mode) && !mode.relocatable && Agrees(mode, st.syms, env) && line.Code? && line.mark.Some?
    requires st.pc < 0x8000_0000 && Knows(env, Marked(done, line, st.pc)) && Knows(env, done)
    ensures Agrees(mode, DefineLabel(mode, st, line.mark.value).syms, env)
    ensures DefineLabel(mode, st, line.mark.value) == st.(syms := DefineLabel(mode, st, line.mark.value).syms)
  {
    DefineLabelAgrees(mode, st, env, line.mark.value, done);
  }

  /** The label of a line is defined before its code is laid down. */
  lemma LabelFirst(mode: Mode, st: State, line: Line, junk: int)
    requires line.Code? && st.pc + LineSize(line) <= |st.code|
    requires line.mark.Some? ==>
               DefineLabel(mode, st, line.mark.value) == st.(syms := DefineLabel(mode, st, line.mark.value).syms)
    ensures var st1 := if line.mark.Some? then DefineLabel(mode, st, line.mark.value) else st;
            RunLine(mode, st, line, junk) == RunLine(mode, st1, Code(None, line.body), junk)
  {
    hide GenFields, DefineLabel, PutW;
  }

  // ---- The numbers of a linear program.

  /** The value of an expression at an origin, if it is linear. */
  function NumberAt(env: map<Name, Lin>, here: int, pc: int, e: Expr, org: int): int {
    var lin := Linear(env, here, pc, e);
    if lin.Some? then lin.value.At(org) else 0
  }

  function SrcNumber(m: Operands, env: map<Name, Lin>, at: nat, org: int): int
    requires m.Valid()
  {
    NumberAt(env, at, at + 2, m.srcExpr, org)
  }

  function DstNumber(m: Operands, env: map<Name, Lin>, at: nat, org: int): int
    requires m.Valid()
  {
    NumberAt(env, at, at + 2 + Sizes(FieldsWith(m.t, m.src, m.srcExpr)), m.dstExpr, org)
  }

  lemma PiecesApart(env: map<Name, Lin>, here: nat, pc: nat, a: seq<Field>, b: seq<Field>)
    requires FieldPieces(env, here, pc, a + b).Some? && |a| <= 1
    ensures a != [] ==> Linear(env, here, pc, a[0].Stored()).Some?
    ensures FieldPieces(env, here, pc + Sizes(a), b).Some?
  {
    hide Linear;
    if a == [] {
      assert a + b == b;
    } else {
      assert (a + b)[1..] == b && a[1..] == [];
    }
  }

  lemma LinearNumber(env: map<Name, Lin>, here: nat, pc: nat, t: nat, o: Operand, e: Expr)
    requires Writable(o) && FieldsWith(t, o, e) != []
    requires Linear(env, here, pc, FieldsWith(t, o, e)[0].Stored()).Some?
    ensures Linear(env, here, pc, e).Some?
  {
  }

  lemma AtInt(lin: Lin, org: int)
    ensures Int32(lin.At(org)) == lin.At(org)
  {
    hide Int32;
    Int32Sum(lin.v + lin.c * org, 0);
  }

  lemma OneNumber(mode: Mode, syms: map<Name, Symbol>, env: map<Name, Lin>, here: nat, pc: nat, t: nat, o: Operand,
        e: Expr)
    requires Writable(o) && Agrees(mode, syms, env) && FieldsWith(t, o, e) != []
    requires Linear(env, here, pc, FieldsWith(t, o, e)[0].Stored()).Some?
    ensures Eval(mode, syms, here, pc, e) == Value(NumberAt(env, here, pc, e, mode.org), false, false)
    ensures Int32(NumberAt(env, here, pc, e, mode.org)) == NumberAt(env, here, pc, e, mode.org)
  {
    LinearNumber(env, here, pc, t, o, e);
    hide Linear, Eval, FieldsWith, Int32, Agrees;
    EvalLinear(mode, syms, env, here, pc, e);
    AtInt(Linear(env, here, pc, e).value, mode.org);
  }

  lemma NumbersAre(mode: Mode, syms: map<Name, Symbol>, env: map<Name, Lin>, m: Operands, at: nat)
    requires m.Valid() && Agrees(mode, syms, env) && FieldPieces(env, at, at + 2, m.Exts()).Some?
    ensures Numbers(m, mode, syms, at, SrcNumber(m, env, at, mode.org), DstNumber(m, env, at, mode.org))
  {
    hide Linear, Eval, FieldsWith, Sizes, Int32, FieldPieces, Agrees, NumberAt;
    var a, b := FieldsWith(m.t, m.src, m.srcExpr), FieldsWith(m.t, m.dst, m.dstExpr);
    var n := Sizes(a);
    AtMostOne(m.t, m.src, m.srcExpr);
    AtMostOne(m.t, m.dst, m.dstExpr);
    PiecesApart(env, at, at + 2, a, b);
    assert b + [] == b;
    PiecesApart(env, at, at + 2 + n, b, []);
    if a != [] {
      OneNumber(mode, syms, env, at, at + 2, m.t, m.src, m.srcExpr);
    }
    if b != [] {
      OneNumber(mode, syms, env, at, at + 2 + n, m.t, m.dst, m.dstExpr);
    }
  }

  lemma AtMostOne(t: nat, o: Operand, e: Expr)
    requires Writable(o)
    ensures |FieldsWith(t, o, e)| <= 1
  {
  }

  // ---- What is listed.

  /** Line `k` of the program is this MOVE, after an optional label. */
  predicate MoveAt(lines: seq<Line>, k: nat, m: Operands) {
    k < |lines| && m.Valid() && MoveAccepted(m.dst) && lines[k].Code? && lines[k].body == m.MoveBody()
  }

  function SrcAt(lines: seq<Line>, k: nat, m: Operands, org: int): Operand
    requires LinearProgram(lines) && MoveAt(lines, k, m)
  {
    WithNumber(m.src, SrcNumber(m, EnvAt(Labels(lines, 0), lines, 0, k), Extent(lines[..k]), org))
  }

  function DstAt(lines: seq<Line>, k: nat, m: Operands, org: int): Operand
    requires LinearProgram(lines) && MoveAt(lines, k, m)
  {
    WithNumber(m.dst, DstNumber(m, EnvAt(Labels(lines, 0), lines, 0, k), Extent(lines[..k]), org))
  }

  /** The image stands in memory at its origin. */
  ghost predicate Loaded(mem: D.Memory, org: int, image: seq<Byte>) {
    forall i :: 0 <= i < |image| ==> mem(org + i) == image[i]
  }

  /** A line of a program that assembles is where the lines before it end, and the memory that the
      image is loaded to holds its code. */
  lemma LineInImage(lines: seq<Line>, k: nat, org: int, buffer: seq<Byte>, junk: int, mem: D.Memory)
    returns (at: State)
    requires LinearProgram(lines) && Extent(lines) <= |buffer| < 0x8000_0000 && k < |lines| && lines[k].Code?
    requires AssembleAt(lines, buffer, org, junk).Image? && Loaded(mem, org, AssembleAt(lines, buffer, org, junk).code)
    ensures var env := EnvAt(Labels(lines, 0), lines, 0, k);
            at.pc == Extent(lines[..k]) && at.pc + LineSize(lines[k]) <= |at.code|
            && Agrees(Absolute(org), at.syms, env) && LinePieces(env, lines[k], at.pc).Some?
    ensures var r := RunLine(Absolute(org), at, Code(None, lines[k].body), junk);
            !r.errors && forall i :: at.pc <= i < r.pc ==> mem(org + i) == r.code[i]
  {
    hide RunLine, LinePieces, Agrees, RunLines, Labels, EnvAt, Pieces;
    var mode := Absolute(org);
    AfterFirst(Mode(false, 1, org), lines, buffer, junk);
    var st1 := RunPass(Mode(false, 1, org), Initial(buffer), lines, junk);
    var st := st1.(pc := 0, maxPc := 0);
    at := AtLine(org, st, Labels(lines, 0), lines, junk, map[], {}, k);
    PassRewrites(mode, st1, lines, junk);
    ExtentSplit(lines, k);
    var end, r := RunLines(mode, st, lines, junk), RunLine(mode, at, Code(None, lines[k].body), junk);
    var image := AssembleAt(lines, buffer, org, junk).code;
    assert image == end.code[..Extent(lines)];
    forall i | at.pc <= i < r.pc
      ensures mem(org + i) == r.code[i]
    {
      assert mem(org + i) == image[i] == end.code[i];
    }
  }

  lemma {:induction false} ExtentSplit(lines: seq<Line>, k: nat)
    requires k < |lines|
    ensures Extent(lines[..k]) + LineSize(lines[k]) <= Extent(lines)
    decreases k
  {
    hide LineSize;
    if k > 0 {
      assert lines[..k][1..] == lines[1..][..k - 1];
      ExtentSplit(lines[1..], k - 1);
    }
  }

  /** A MOVE anywhere in a linear program, with any expressions: in the image assembled at an origin,
      desa68 lists it with the values that the expressions have there. */
  lemma MoveInProgram(lines: seq<Line>, k: nat, m: Operands, org: int, buffer: seq<Byte>, junk: int, mem: D.Memory,
        mask: nat)
    requires LinearProgram(lines) && Extent(lines) <= |buffer| < 0x8000_0000 && MoveAt(lines, k, m)
    requires AssembleAt(lines, buffer, org, junk).Image? && Loaded(mem, org, AssembleAt(lines, buffer, org, junk).code)
    requires var start := org + Extent(lines[..k]); start % 2 == 0 && 0 <= start < 0x7fff_ffe0
    ensures Writable(SrcAt(lines, k, m, org)) && Writable(DstAt(lines, k, m, org))
    ensures Listed(m.t, SrcAt(lines, k, m, org), DstAt(lines, k, m, org), mem, mask, org + Extent(lines[..k]))
  {
    hide RunLine, AssembleAt, Listed, WithNumber, CInts, Numbers, Pieces, DefinedOnce, EnvAt, Labels, Loaded, Linear,
      NumberAt, OpMode, InstrLine, Agrees, Sizes, Operands.Exts;
    var at := LineInImage(lines, k, org, buffer, junk, mem);
    var env := EnvAt(Labels(lines, 0), lines, 0, k);
    NumbersAre(Absolute(org), at.syms, env, m, at.pc);
    var x, y := SrcNumber(m, env, at.pc, org), DstNumber(m, env, at.pc, org);
    SameLine(org, at, MoveOpcode(m.t, m.src, m.dst), m, x, y, junk);
    NumberFields(m.t, m.src, x);
    NumberFields(m.t, m.dst, y);
    StillAccepted(m.dst, y);
    NumbersFit(m.src, env, at.pc, at.pc + 2, m.srcExpr, org);
    NumbersFit(m.dst, env, at.pc, at.pc + 2 + Sizes(FieldsWith(m.t, m.src, m.srcExpr)), m.dstExpr, org);
    MoveRoundTrip(m.t, WithNumber(m.src, x), WithNumber(m.dst, y), org, at, junk, mem, mask);
  }

  lemma NumbersFit(o: Operand, env: map<Name, Lin>, here: int, pc: int, e: Expr, org: int)
    requires Writable(o)
    ensures CInts(WithNumber(o, NumberAt(env, here, pc, e, org)))
  {
    hide Linear, Int32;
  }

  lemma StillAccepted(o: Operand, v: int)
    requires Writable(o) && MoveAccepted(o)
    ensures Writable(WithNumber(o, v)) && MoveAccepted(WithNumber(o, v))
  {
  }

  /** The same MOVE in the relocatable image, after the origin has been added at the recorded places:
      three passes, the relocation and the disassembler agree on what the program says there. */
  lemma MoveRelocated(lines: seq<Line>, k: nat, m: Operands, base: int, buffer: seq<Byte>, junk: int,
        buffer': seq<Byte>, junk': int, mem: D.Memory, mask: nat)
    requires LinearProgram(lines) && Extent(lines) <= |buffer| < 0x8000_0000 && Extent(lines) <= |buffer'| < 0x8000_0000
    requires MoveAt(lines, k, m) && forall p <- PiecesOf(lines) :: Movable(p)
    requires AssembleRelocatable(lines, buffer, junk).Image? && AssembleAt(lines, buffer', base, junk').Image?
    requires forall image ::
               RelocatesTo(AssembleRelocatable(lines, buffer, junk), base, image) ==> Loaded(mem, base, image)
    requires var start := base + Extent(lines[..k]); start % 2 == 0 && 0 <= start < 0x7fff_ffe0
    ensures Writable(SrcAt(lines, k, m, base)) && Writable(DstAt(lines, k, m, base))
    ensures Listed(m.t, SrcAt(lines, k, m, base), DstAt(lines, k, m, base), mem, mask, base + Extent(lines[..k]))
  {
    hide LinearProgram, AssembleAt, AssembleRelocatable, Listed, SrcAt, DstAt, Loaded, PiecesOf, Movable, Patched,
      MoveAt, InImage;
    RelocationPreserves(lines, buffer, junk, base, buffer', junk');
    MoveInProgram(lines, k, m, base, buffer', junk', mem, mask);
  }
}
