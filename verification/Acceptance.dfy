/** Which programs as68 assembles without an error: the values that each pass takes for each kind of
    operand, and the linear programs whose values are all taken (as68/opcode.c, as68/as68.c:388-425). */
module Acceptance {
  import opened BitStacks
  import opened Options
  import opened Powers
  import opened Assembly
  import opened Relocation
  import opened RelocationPasses
  import opened RelocationTheorem

  // ---- What is taken.

  /** A distance that the branches take. */
  predicate Jump(a: int, limit: int) {
    a != 0 && a % 2 == 0 && -limit <= a < limit
  }

  /** At a fixed origin. */
  predicate Fits(f: Field, a: int) {
    match f
    case FByte(_) | FImmByte(_) => -128 <= a <= 255
    case FWord(_) => -32768 <= a <= 65535
    case FShort(_) | FDisp(_) => -32768 <= a <= 32767
    case FIndex(_, base) => -128 <= a <= 255 && base + a % 256 <= 65535
    case FQuick(_, base) => -128 <= a <= 255 && base + a % 256 <= 65535
    case FRel(_) | FLoop(_) => Jump(a, 32768)
    case FRelShort(_, base) => Jump(a, 128) && base + a % 256 <= 65535
    case FTri(_) => -0x80_0000 <= a <= 0xff_ffff
    case FLong(_) => true
  }

  /** In the second pass of three: what is only stored is not looked at. */
  predicate FitsUnstored(f: Field, a: int) {
    match f
    case FByte(_) | FWord(_) | FTri(_) | FLong(_) => true
    case FImmByte(_) | FIndex(_, _) | FQuick(_, _) => -128 <= a <= 255
    case FShort(_) => -32768 <= a <= 32767
    case FDisp(_) => a <= 32767
    case FRel(_) | FLoop(_) => Jump(a, 32768)
    case FRelShort(_, _) => Jump(a, 128)
  }

  /** In the third pass of three: lost bits are not reported, apart from those of three bytes. */
  predicate FitsMoved(f: Field, a: int) {
    match f
    case FByte(_) | FWord(_) | FLong(_) | FImmByte(_) | FIndex(_, _) | FQuick(_, _) => true
    case FTri(_) => -0x80_0000 <= a <= 0xff_ffff
    case FShort(_) | FDisp(_) => a <= 32767
    case FRel(_) | FLoop(_) => a != 0 && a % 2 == 0 && a <= 32767
    case FRelShort(_, _) => a != 0 && a % 2 == 0 && a <= 127
  }

  predicate Taken(mode: Mode, f: Field, a: int) {
    if !mode.relocatable then Fits(f, a) else if mode.pass == 2 then FitsUnstored(f, a) else FitsMoved(f, a)
  }

  lemma FieldTaken(mode: Mode, f: Field, a: int)
    requires StoringPass(mode)
    ensures FieldError(mode, f, Value(a, false, false)) <==> !Taken(mode, f, a)
  {}

  /** In the first pass: `undefined` when a name in it is not known yet. */
  predicate FitsFirst(relocatable: bool, f: Field, a: int, undefined: bool) {
    match f
    case FByte(_) => relocatable || -128 <= a <= 255
    case FWord(_) => relocatable || -32768 <= a <= 65535
    case FTri(_) => relocatable || -0x80_0000 <= a <= 0xff_ffff
    case FLong(_) => true
    case FImmByte(_) => -128 <= a <= 255
    case FShort(_) => -32768 <= a <= 32767
    case FDisp(_) => relocatable || undefined || -32768 <= a <= 65535
    case FIndex(_, base) => (undefined || -128 <= a <= 255) && (relocatable || base + a % 256 <= 65535)
    case FQuick(_, base) => -128 <= a <= 255 && (relocatable || base + a % 256 <= 65535)
    case FRel(_) | FLoop(_) => a == 0 || Jump(a, 32768)
    case FRelShort(_, base) => (a == 0 || Jump(a, 128)) && (relocatable || base + a % 256 <= 65535)
  }

  lemma FieldFirst(mode: Mode, f: Field, v: Value)
    requires mode.pass == 1 && !v.error
    ensures FieldError(mode, f, v) <==> !FitsFirst(mode.relocatable, f, v.v, v.undefined)
  {}

  /** A relocatable program may lose the high bits of bytes and words without an error. */
  lemma LostSilently(f: Field, a: int)
    requires f.FByte? || f.FWord?
    ensures FitsUnstored(f, a) && FitsMoved(f, a)
    ensures Fits(f, a) <==> (f.FByte? && -128 <= a <= 255) || (f.FWord? && -32768 <= a <= 65535)
  {}

  /** Bytes read as a number, the highest first. */
  function BigEndian(bytes: seq<Byte>): nat {
    if bytes == [] then 0 else BigEndian(bytes[..|bytes| - 1]) * 256 + bytes[|bytes| - 1]
  }

  /** What is stored is the value, as far as there are bytes for it; a low byte is added to its word. */
  lemma BytesAre(shape: Shape, a: int)
    ensures shape.ByteShape? ==> BigEndian(shape.Bytes(a)) == a % 0x100
    ensures shape.WordShape? ==> BigEndian(shape.Bytes(a)) == a % 0x1_0000
    ensures shape.TriShape? ==> BigEndian(shape.Bytes(a)) == a % 0x100_0000
    ensures shape.LongShape? ==> BigEndian(shape.Bytes(a)) == a % 0x1_0000_0000
    ensures shape.LowShape? ==> BigEndian(shape.Bytes(a)) == (shape.base + a % 0x100) % 0x1_0000
  {
    match shape
    case ByteShape => OneByte(a % 256);
    case WordShape =>
      TwoBytes(a / 256 % 256, a % 256);
      WordBytes(a);
    case LowShape(base) =>
      var x := a % 256 + base;
      TwoBytes(x / 256 % 256, x % 256);
      WordBytes(x);
    case TriShape =>
      var h := a / 0x100;
      assert a / 0x1_0000 == h / 0x100;
      ThreeBytes(h / 0x100 % 256, h % 256, a % 256);
      WordBytes(h);
      TriValue(a, h);
    case LongShape =>
      FourBytes(a / 0x100_0000 % 256, a / 0x1_0000 % 256, a / 0x100 % 256, a % 256);
      LongBytes(a);
  }

  lemma TriValue(a: int, h: int)
    requires h == a / 0x100
    ensures h % 0x1_0000 * 0x100 + a % 0x100 == a % 0x100_0000
  {
    DivUnique(a, 0x100_0000, h / 0x1_0000, h % 0x1_0000 * 0x100 + a % 0x100);
  }

  lemma OneByte(a: Byte)
    ensures BigEndian([a]) == a
  {
    assert [a][..0] == [];
  }

  lemma TwoBytes(a: Byte, b: Byte)
    ensures BigEndian([a, b]) == a * 256 + b
  {
    assert [a, b][..1] == [a];
    OneByte(a);
  }

  lemma ThreeBytes(a: Byte, b: Byte, c: Byte)
    ensures BigEndian([a, b, c]) == (a * 256 + b) * 256 + c
  {
    assert [a, b, c][..2] == [a, b];
    TwoBytes(a, b);
  }

  lemma FourBytes(a: Byte, b: Byte, c: Byte, d: Byte)
    ensures BigEndian([a, b, c, d]) == ((a * 256 + b) * 256 + c) * 256 + d
  {
    assert [a, b, c, d][..3] == [a, b, c];
    ThreeBytes(a, b, c);
  }

  // ---- Programs.

  /** The values of a linear program's fields, each taken in its place. */
  predicate FieldsFit(mode: Mode, env: map<Name, Lin>, here: nat, pc: nat, fs: seq<Field>)
    requires FieldPieces(env, here, pc, fs).Some?
    decreases |fs|
  {
    fs != [] ==>
      && Taken(mode, fs[0], Linear(env, here, pc, fs[0].Stored()).value.At(mode.org))
      && FieldsFit(mode, env, here, pc + fs[0].Shape().Size(), fs[1..])
  }

  predicate LineFits(mode: Mode, env: map<Name, Lin>, line: Line, pc: nat)
    requires LinePieces(env, line, pc).Some?
  {
    if line.Equate? || line.body.Nothing? then true
    else if line.body.Data? then FieldsFit(mode, env, pc, pc, line.body.fields)
    else (mode.relocatable || line.body.opcode <= 65535) && FieldsFit(mode, env, pc, pc + 2, line.body.exts)
  }

  predicate LinesFit(mode: Mode, env: map<Name, Lin>, lines: seq<Line>, pc: nat)
    requires Pieces(env, lines, pc).Some?
    decreases |lines|
  {
    lines != [] ==>
      && LineFits(mode, env, lines[0], pc)
      && LinesFit(mode, EnvAfter(env, lines[0], pc).value, lines[1..], pc + LineSize(lines[0]))
  }

  // ---- Errors of a pass that stores code.

  /** Errors are those of the pieces, `ok` if they have none, and of a full table. */
  ghost predicate Clean(mode: Mode, st: State, r: State, pieces: seq<Piece>, ok: bool) {
    && LaysDown(mode, st, r, pieces) && |r.rel| <= MAX_REL
    && (!r.errors <==>
          !st.errors && ok && |st.rel| + |Places(mode, st.code[st.pc..r.pc], pieces, st.pc)| <= MAX_REL)
  }

  lemma CleanTogether(mode: Mode, st: State, mid: State, r: State, a: seq<Piece>, b: seq<Piece>, okA: bool, okB: bool)
    requires Clean(mode, st, mid, a, okA) && Clean(mode, mid, r, b, okB)
    ensures Clean(mode, st, r, a + b, okA && okB)
  {
    hide Rewrite, Places, Store, TotalSize;
    LaysTogether(mode, st, mid, r, a, b);
    var n, m := TotalSize(a), TotalSize(b);
    SizeAppend(a, b);
    var was := st.code[st.pc..st.pc + n + m];
    PlacesAppend(mode, was, a, b, st.pc);
    Slices(st.code, st.pc, n, m);
    StoreTwice(st.code, st.pc, Rewrite(mode, st.code[st.pc..mid.pc], a), was[n..]);
  }

  lemma CleanNothing(mode: Mode, st: State, r: State)
    requires r == st.(syms := r.syms) && st.pc <= |st.code| && |st.rel| <= MAX_REL
    ensures Clean(mode, st, r, [], true)
  {
    LaysNone(mode, st, r);
  }

  lemma CleanOther(mode: Mode, st: State, st1: State, r: State, pieces: seq<Piece>, ok: bool)
    requires st1 == st.(syms := st1.syms) && Clean(mode, st1, r, pieces, ok)
    ensures Clean(mode, st, r, pieces, ok)
  {
    hide Places, LaysDown;
    OtherSymbols(mode, st, st1, r, pieces);
  }

  lemma CleanField(mode: Mode, st: State, env: map<Name, Lin>, here: nat, f: Field, p: Piece)
    requires StoringPass(mode) && Agrees(mode, st.syms, env) && st.pc + f.Shape().Size() <= |st.code|
    requires |st.rel| <= MAX_REL
    requires Linear(env, here, st.pc, f.Stored()) == Some(p.lin) && p.shape == f.Shape()
    ensures Clean(mode, st, GenField(mode, st, here, f), [p], Taken(mode, f, p.lin.At(mode.org)))
  {
    GenFieldPiece(mode, st, env, here, f, p);
    EvalLinear(mode, st.syms, env, here, st.pc, f.Stored());
    FieldTaken(mode, f, p.lin.At(mode.org));
    hide Eval, Linear, FieldError, Agrees, Taken, Int32, GetL, LaysDown, Gen, Places;
    var st1 := st.(errors := !(!st.errors && Taken(mode, f, p.lin.At(mode.org))));
    GenErrors(mode, st1, p);
  }

  lemma GenErrors(mode: Mode, st: State, p: Piece)
    requires st.pc + p.shape.Size() <= |st.code| && |st.rel| <= MAX_REL
    ensures TotalSize([p]) == p.shape.Size()
    ensures var r := Gen(mode, st, p.shape, p.lin.At(mode.org));
            var was := st.code[st.pc..r.pc];
            && (!r.errors <==> !st.errors && |st.rel| + |Places(mode, was, [p], st.pc)| <= MAX_REL)
            && |r.rel| <= MAX_REL
  {
    var was := st.code[st.pc..st.pc + p.shape.Size()];
    OnePiece(mode, was, p, st.pc);
    hide Rewrite, Places, Int32, GetL, Lin.At;
    if p.shape.LongShape? {
      GetLSlice(st.code, st.pc);
    }
  }

  lemma {:induction false} CleanFields(mode: Mode, st: State, env: map<Name, Lin>, here: nat, fs: seq<Field>)
    requires StoringPass(mode) && Agrees(mode, st.syms, env) && FieldPieces(env, here, st.pc, fs).Some?
    requires st.pc + Sizes(fs) <= |st.code| && |st.rel| <= MAX_REL
    ensures Clean(mode, st, GenFields(mode, st, here, fs), FieldPieces(env, here, st.pc, fs).value,
                  FieldsFit(mode, env, here, st.pc, fs))
    decreases |fs|
  {
    hide Linear, Agrees, Taken, Clean, Gen, Eval, FieldError, Lin.At;
    if fs == [] {
      CleanNothing(mode, st, st);
    } else {
      var f := fs[0];
      var p := Piece(f.Shape(), Linear(env, here, st.pc, f.Stored()).value);
      CleanField(mode, st, env, here, f, p);
      GenFieldPiece(mode, st, env, here, f, p);
      hide LaysDown;
      var mid := GenField(mode, st, here, f);
      CleanRel(mode, st, mid, [p], Taken(mode, f, p.lin.At(mode.org)));
      CleanFields(mode, mid, env, here, fs[1..]);
      CleanTogether(mode, st, mid, GenFields(mode, st, here, fs), [p], FieldPieces(env, here, mid.pc, fs[1..]).value,
        Taken(mode, f, p.lin.At(mode.org)), FieldsFit(mode, env, here, mid.pc, fs[1..]));
    }
  }

  lemma CleanRel(mode: Mode, st: State, r: State, pieces: seq<Piece>, ok: bool)
    requires Clean(mode, st, r, pieces, ok)
    ensures |r.rel| <= MAX_REL && LaysDown(mode, st, r, pieces)
  {
    hide LaysDown, Places;
  }

  /** The opcode, stored last. */
  lemma CleanOpcode(mode: Mode, st: State, mid: State, exts: seq<Piece>, opcode: nat, ok: bool)
    requires StoringPass(mode) && st.pc + 2 <= |st.code|
    requires Clean(mode, st.(pc := st.pc + 2), mid, exts, ok)
    ensures Clean(mode, st, PutW(mode, mid, st.pc, opcode), [Piece(WordShape, Lin(opcode, 0))] + exts,
                  (mode.relocatable || opcode <= 65535) && ok)
  {
    PutWPiece(mode, st, mid, exts, opcode);
    hide Rewrite, Places, Store, Int32;
    var p := Piece(WordShape, Lin(opcode, 0));
    SizeCons(p, exts);
    var was := st.code[st.pc..mid.pc];
    PlacesCons(mode, was, p, exts, st.pc);
    OnePiece(mode, was[..2], p, st.pc);
    Slices(st.code, st.pc, 2, TotalSize(exts));
  }

  lemma CleanLine(mode: Mode, st: State, env: map<Name, Lin>, line: Line, junk: int, done: map<Name, Lin>)
    requires StoringPass(mode) && Agrees(mode, st.syms, env) && st.maxPc == st.pc
    requires st.pc + LineSize(line) <= |st.code| < 0x8000_0000 && |st.rel| <= MAX_REL
    requires LinePieces(env, line, st.pc).Some? && EnvAfter(env, line, st.pc).Some?
    requires Knows(env, Marked(done, line, st.pc)) && Knows(env, done)
    requires mode.Third() && line.Equate? ==> line.name in st.syms
    requires mode.pass == 2 && mode.relocatable ==> Moved(st.syms, done)
    ensures Clean(mode, st, RunLine(mode, st, line, junk), LinePieces(env, line, st.pc).value,
                  LineFits(mode, env, line, st.pc))
  {
    hide Linear, Agrees, LaysDown, DefineLabel, Knows, Moved, GenFields, PutW, FieldPieces, TotalSize, Clean, FieldsFit;
    hide Eval;
    if line.Equate? {
      AssignSilent(mode, st, env, line.name, line.e, junk);
      hide Assign;
      CleanNothing(mode, st, Assign(mode, st, line.name, line.e, junk));
    } else {
      KnowsAfter(env, line, st.pc, done);
      var st1 := st;
      if line.mark.Some? {
        DefineLabelAgrees(mode, st, env, line.mark.value, done);
        st1 := DefineLabel(mode, st, line.mark.value);
      }
      match line.body {
        case Nothing => CleanNothing(mode, st, st1);
        case Data(fs) =>
          CleanFields(mode, st1, env, st.pc, fs);
          CleanOther(mode, st, st1, GenFields(mode, st1, st.pc, fs), FieldPieces(env, st.pc, st.pc, fs).value,
            FieldsFit(mode, env, st.pc, st.pc, fs));
        case Instr(opcode, fs) =>
          var st2 := st1.(pc := st.pc + 2);
          CleanFields(mode, st2, env, st.pc, fs);
          var mid, exts := GenFields(mode, st2, st.pc, fs), FieldPieces(env, st.pc, st.pc + 2, fs).value;
          CleanOpcode(mode, st1, mid, exts, opcode, FieldsFit(mode, env, st.pc, st.pc + 2, fs));
          CleanOther(mode, st, st1, PutW(mode, mid, st.pc, opcode), [Piece(WordShape, Lin(opcode, 0))] + exts,
            (mode.relocatable || opcode <= 65535) && FieldsFit(mode, env, st.pc, st.pc + 2, fs));
      }
    }
  }

  /** An equate of a linear program is not an error after the first pass. */
  lemma AssignSilent(mode: Mode, st: State, env: map<Name, Lin>, name: Name, e: Expr, junk: int)
    requires StoringPass(mode) && Agrees(mode, st.syms, env) && Linear(env, st.pc, st.pc, e).Some?
    ensures var r := Assign(mode, st, name, e, junk); r == st.(syms := r.syms)
  {
    EvalLinear(mode, st.syms, env, st.pc, st.pc, e);
    hide Eval, Linear;
  }

  lemma {:induction false} CleanLines(mode: Mode, st: State, env: map<Name, Lin>, lines: seq<Line>, junk: int,
        done: map<Name, Lin>, seen: set<Name>)
    requires StoringPass(mode) && Agrees(mode, st.syms, env) && st.maxPc == st.pc
    requires st.pc + Extent(lines) <= |st.code| < 0x8000_0000 && |st.rel| <= MAX_REL
    requires Pieces(env, lines, st.pc).Some? && Knows(env, Labels(lines, st.pc)) && Knows(env, done)
    requires DefinedOnce(lines, seen) && (mode.Third() ==> EquatesKnown(st.syms, lines))
    requires mode.pass == 2 && mode.relocatable ==> Moved(st.syms, done)
    ensures Clean(mode, st, RunLines(mode, st, lines, junk), Pieces(env, lines, st.pc).value,
                  LinesFit(mode, env, lines, st.pc))
    decreases |lines|
  {
    hide LinePieces, EnvAfter, RunLine, LaysDown, Agrees, Knows, Moved, EquatesKnown, DefinedOnce, LineSize, Clean;
    hide LineFits, Labels;
    if lines == [] {
      CleanNothing(mode, st, st);
    } else {
      NextLines(env, lines, st.pc, done, seen);
      NextEquates(st.syms, lines);
      var now, env' := RunLinePieces(mode, st, env, lines[0], junk, done);
      CleanLine(mode, st, env, lines[0], junk, done);
      var mid := RunLine(mode, st, lines[0], junk);
      CleanRel(mode, st, mid, now, LineFits(mode, env, lines[0], st.pc));
      EquatesStay(st.syms, mid.syms, lines);
      CleanLines(mode, mid, env', lines[1..], junk, Marked(done, lines[0], st.pc), SeenAfter(seen, lines[0]));
      CleanTogether(mode, st, mid, RunLines(mode, st, lines, junk), now, Pieces(env', lines[1..], mid.pc).value,
        LineFits(mode, env, lines[0], st.pc), LinesFit(mode, env', lines[1..], mid.pc));
    }
  }

  // ---- Errors of the first pass.

  function Symbols(vals: map<Name, int>): map<Name, Symbol> {
    map name | name in vals :: Symbol(true, vals[name], 0)
  }

  /** What the first pass finds when the names in `vals` are known. Others count as 0. */
  function FirstValue(org: int, vals: map<Name, int>, here: int, pc: int, e: Expr): Value {
    Eval(Mode(false, 1, org), Symbols(vals), here, pc, e)
  }

  /** A branch to a name that is not known is taken for one by 2. */
  predicate FirstField(relocatable: bool, org: int, vals: map<Name, int>, here: nat, pc: nat, f: Field) {
    var v := FirstValue(org, vals, here, pc, f.Stored());
    if v.undefined && (f.FRel? || f.FRelShort?) then FitsFirst(relocatable, f, 2, true)
    else FitsFirst(relocatable, f, v.v, v.undefined)
  }

  predicate FirstFields(relocatable: bool, org: int, vals: map<Name, int>, here: nat, pc: nat, fs: seq<Field>)
    decreases |fs|
  {
    fs != [] ==>
      && FirstField(relocatable, org, vals, here, pc, fs[0])
      && FirstFields(relocatable, org, vals, here, pc + fs[0].Shape().Size(), fs[1..])
  }

  /** The names that are known after a line: an equate whose value is not known yet defines none. */
  function KnownAfter(org: int, vals: map<Name, int>, line: Line, pc: nat): map<Name, int> {
    if line.Equate? then
      var v := FirstValue(org, vals, pc, pc, line.e);
      if v.undefined then vals else vals[line.name := v.v]
    else if line.mark.Some? then vals[line.mark.value := Int32(pc + org)]
    else vals
  }

  predicate FirstLineFits(relocatable: bool, org: int, vals: map<Name, int>, line: Line, pc: nat) {
    if line.Equate? || line.body.Nothing? then true
    else
      var vals' := KnownAfter(org, vals, line, pc);
      if line.body.Data? then FirstFields(relocatable, org, vals', pc, pc, line.body.fields)
      else (relocatable || line.body.opcode <= 65535)
           && FirstFields(relocatable, org, vals', pc, pc + 2, line.body.exts)
  }

  predicate FirstFits(relocatable: bool, org: int, vals: map<Name, int>, lines: seq<Line>, pc: nat)
    decreases |lines|
  {
    lines != [] ==>
      && FirstLineFits(relocatable, org, vals, lines[0], pc)
      && FirstFits(relocatable, org, KnownAfter(org, vals, lines[0], pc), lines[1..], pc + LineSize(lines[0]))
  }

  ghost predicate Known(syms: map<Name, Symbol>, vals: map<Name, int>) {
    syms.Keys == vals.Keys && forall name <- vals :: syms[name].value == vals[name]
  }

  lemma {:induction false} EvalKnown(mode: Mode, syms: map<Name, Symbol>, vals: map<Name, int>, here: int, pc: int,
        e: Expr)
    requires mode.pass == 1 && Known(syms, vals)
    ensures Eval(mode, syms, here, pc, e) == FirstValue(mode.org, vals, here, pc, e)
    ensures !Eval(mode, syms, here, pc, e).error
  {
    hide Int32, BinValue;
    if e.Neg? || e.Com? || e.Not? {
      EvalKnown(mode, syms, vals, here, pc, e.e);
    } else if e.Add? || e.Sub? || e.Bin? {
      EvalKnown(mode, syms, vals, here, pc, e.a);
      EvalKnown(mode, syms, vals, here, pc, e.b);
    }
  }

  lemma FirstFieldErrors(mode: Mode, st: State, vals: map<Name, int>, here: nat, f: Field)
    requires mode.pass == 1 && Known(st.syms, vals) && st.pc + f.Shape().Size() <= |st.code|
    ensures var r := GenField(mode, st, here, f);
            && (!r.errors <==> !st.errors && FirstField(mode.relocatable, mode.org, vals, here, st.pc, f))
            && r.syms == st.syms
  {
    EvalKnown(mode, st.syms, vals, here, st.pc, f.Stored());
    FieldFirst(mode, f, StoredValue(mode, st.syms, here, st.pc, f));
    hide Eval, FirstValue, FieldError, FitsFirst, Store;
  }

  lemma {:induction false} FirstFieldsErrors(mode: Mode, st: State, vals: map<Name, int>, here: nat, fs: seq<Field>)
    requires mode.pass == 1 && Known(st.syms, vals) && st.pc + Sizes(fs) <= |st.code|
    ensures var r := GenFields(mode, st, here, fs);
            && (!r.errors <==> !st.errors && FirstFields(mode.relocatable, mode.org, vals, here, st.pc, fs))
            && r.syms == st.syms
    decreases |fs|
  {
    hide Known, FirstField, Gen, Eval, FieldError;
    if fs != [] {
      FirstFieldErrors(mode, st, vals, here, fs[0]);
      FirstFieldsErrors(mode, GenField(mode, st, here, fs[0]), vals, here, fs[1..]);
    }
  }

  lemma FirstLineErrors(mode: Mode, st: State, vals: map<Name, int>, line: Line, junk: int, seen: set<Name>)
    requires mode.pass == 1 && Known(st.syms, vals) && st.syms.Keys <= seen && DefinedOnce([line], seen)
    requires st.pc + LineSize(line) <= |st.code|
    ensures var r := RunLine(mode, st, line, junk);
            && (!r.errors <==> !st.errors && FirstLineFits(mode.relocatable, mode.org, vals, line, st.pc))
            && Known(r.syms, KnownAfter(mode.org, vals, line, st.pc)) && r.syms.Keys <= SeenAfter(seen, line)
  {
    hide Eval, FirstValue, Int32, GenFields, FirstFields;
    if line.Equate? {
      EvalKnown(mode, st.syms, vals, st.pc, st.pc, line.e);
    } else {
      var st1 := if line.mark.Some? then DefineLabel(mode, st, line.mark.value) else st;
      var vals' := KnownAfter(mode.org, vals, line, st.pc);
      if line.body.Data? {
        FirstFieldsErrors(mode, st1, vals', st.pc, line.body.fields);
      } else if line.body.Instr? {
        FirstFieldsErrors(mode, st1.(pc := st.pc + 2), vals', st.pc, line.body.exts);
      }
    }
  }

  lemma {:induction false} FirstErrors(mode: Mode, st: State, vals: map<Name, int>, lines: seq<Line>, junk: int,
        seen: set<Name>)
    requires mode.pass == 1 && Known(st.syms, vals) && st.syms.Keys <= seen && DefinedOnce(lines, seen)
    requires st.pc + Extent(lines) <= |st.code|
    ensures !RunLines(mode, st, lines, junk).errors
            <==> !st.errors && FirstFits(mode.relocatable, mode.org, vals, lines, st.pc)
    decreases |lines|
  {
    hide RunLine, Known, KnownAfter, FirstLineFits, LineSize;
    if lines != [] {
      FirstLineErrors(mode, st, vals, lines[0], junk, seen);
      FirstErrors(mode, RunLine(mode, st, lines[0], junk), KnownAfter(mode.org, vals, lines[0], st.pc), lines[1..],
        junk, SeenAfter(seen, lines[0]));
    }
  }

  // ---- Programs that assemble.

  lemma FirstPassErrors(mode: Mode, lines: seq<Line>, buffer: seq<Byte>, junk: int)
    requires mode.pass == 1 && LinearProgram(lines) && Extent(lines) <= |buffer|
    ensures RunPass(mode, Initial(buffer), lines, junk).errors
            <==> !FirstFits(mode.relocatable, mode.org, map[], lines, 0)
  {
    hide FirstFits, RunLines;
    FirstErrors(mode, Initial(buffer), map[], lines, junk, {});
  }

  lemma PassErrors(mode: Mode, st: State, lines: seq<Line>, junk: int)
    requires StoringPass(mode) && LinearProgram(lines) && Extent(lines) <= |st.code| < 0x8000_0000
    requires Agrees(mode, st.syms, Labels(lines, 0)) && (mode.Third() ==> EquatesKnown(st.syms, lines))
    requires st.rel == [] && !st.errors
    ensures var r, ps, n := RunPass(mode, st, lines, junk), PiecesOf(lines), Extent(lines);
            && TotalSize(ps) == n
            && (r.errors <==> !(LinesFit(mode, Labels(lines, 0), lines, 0)
                                && |Places(mode, st.code[..n], ps, 0)| <= MAX_REL))
  {
    hide Places, Agrees, Labels, Pieces, RunLines, LinesFit, Extent, LaysDown;
    PassRewrites(mode, st, lines, junk);
    CleanLines(mode, st.(pc := 0, maxPc := 0), Labels(lines, 0), lines, junk, map[], {});
    assert st.code[0..Extent(lines)] == st.code[..Extent(lines)];
  }

  /** At an origin: exactly when all values fit. */
  lemma AssemblesAt(lines: seq<Line>, buffer: seq<Byte>, org: int, junk: int)
    requires LinearProgram(lines) && Extent(lines) <= |buffer| < 0x8000_0000
    ensures AssembleAt(lines, buffer, org, junk).Image?
            <==> FirstFits(false, org, map[], lines, 0) && LinesFit(Mode(false, 2, org), Labels(lines, 0), lines, 0)
  {
    hide Agrees, RunPass, Places, FirstFits, LinesFit;
    var first, second := Mode(false, 1, org), Mode(false, 2, org);
    FirstPassErrors(first, lines, buffer, junk);
    var st1 := RunPass(first, Initial(buffer), lines, junk);
    if !st1.errors {
      AfterFirst(first, lines, buffer, junk);
      PassErrors(second, st1, lines, junk);
      PassRewrites(second, st1, lines, junk);
      NoPlaces(second, st1.code[..Extent(lines)], PiecesOf(lines), 0);
    }
  }

  lemma {:induction false} NoPlaces(mode: Mode, was: seq<Byte>, ps: seq<Piece>, at: nat)
    requires |was| == TotalSize(ps) && !mode.Third()
    ensures Places(mode, was, ps, at) == []
    decreases |ps|
  {
    if ps != [] {
      NoPlaces(mode, was[ps[0].shape.Size()..], ps[1..], at + ps[0].shape.Size());
    }
  }

  /** In three passes: exactly when the values fit at 0 and where the labels are moved to, and not too
      many long words are to be relocated. */
  lemma AssemblesRelocatable(lines: seq<Line>, buffer: seq<Byte>, junk: int)
    requires LinearProgram(lines) && Extent(lines) <= |buffer| < 0x8000_0000
    ensures AssembleRelocatable(lines, buffer, junk).Image?
            <==>
            && FirstFits(true, 0, map[], lines, 0)
            && LinesFit(SECOND, Labels(lines, 0), lines, 0) && LinesFit(THIRD, Labels(lines, 0), lines, 0)
            && |RecordedPlaces(PiecesOf(lines), 0)| <= MAX_REL
  {
    hide Agrees, RunPass, Places, FirstFits, LinesFit, Rewrite, Labels, PiecesOf, LinearProgram;
    var first := Mode(true, 1, 0);
    FirstPassErrors(first, lines, buffer, junk);
    var st1 := RunPass(first, Initial(buffer), lines, junk);
    if !st1.errors {
      AfterFirst(first, lines, buffer, junk);
      PassErrors(SECOND, st1, lines, junk);
      PassRewrites(SECOND, st1, lines, junk);
      var was, st2 := st1.code[..Extent(lines)], RunPass(SECOND, st1, lines, junk);
      NoPlaces(SECOND, was, PiecesOf(lines), 0);
      if !st2.errors {
        MovedAgrees(lines, st2);
        PassErrors(THIRD, st2, lines, junk);
        PassRewrites(THIRD, st2, lines, junk);
        PatchPieces([], was, PiecesOf(lines), 0);
      }
    }
  }

  // ---- Labels that are defined again.

  predicate Defines(line: Line, name: Name) {
    if line.Equate? then line.name == name else line.mark == Some(name)
  }

  /** Once a label is known it stays one, or there is an error. */
  predicate HasLabel(st: State, name: Name) {
    st.errors || (name in st.syms && st.syms[name].isLabel)
  }

  lemma {:induction false} ErrorsStay(mode: Mode, st: State, here: nat, fs: seq<Field>)
    requires mode.pass == 1 && st.pc + Sizes(fs) <= |st.code|
    ensures var r := GenFields(mode, st, here, fs); r.syms == st.syms && (st.errors ==> r.errors)
    decreases |fs|
  {
    hide Eval, FieldError, Store, GetL, Int32;
    if fs != [] {
      ErrorsStay(mode, GenField(mode, st, here, fs[0]), here, fs[1..]);
    }
  }

  lemma AnotherLine(mode: Mode, st: State, line: Line, junk: int, name: Name)
    requires mode.pass == 1 && st.pc + LineSize(line) <= |st.code|
    ensures var r := RunLine(mode, st, line, junk);
            && (st.errors ==> r.errors)
            && (HasLabel(st, name) ==> HasLabel(r, name) && (Defines(line, name) ==> r.errors))
            && (line.Code? && line.mark == Some(name) ==> HasLabel(r, name))
  {
    hide Eval, GenFields, Int32, Store;
    if line.Code? {
      var st1 := if line.mark.Some? then DefineLabel(mode, st, line.mark.value) else st;
      if line.body.Data? {
        ErrorsStay(mode, st1, st.pc, line.body.fields);
      } else if line.body.Instr? {
        ErrorsStay(mode, st1.(pc := st.pc + 2), st.pc, line.body.exts);
      }
    }
  }

  lemma {:induction false} DefinedAgain(mode: Mode, st: State, lines: seq<Line>, junk: int, name: Name, j: nat)
    requires mode.pass == 1 && st.pc + Extent(lines) <= |st.code| && j <= |lines|
    requires st.errors || (HasLabel(st, name) && j < |lines| && Defines(lines[j], name))
    ensures RunLines(mode, st, lines, junk).errors
    decreases |lines|
  {
    hide RunLine, LineSize, Defines, HasLabel;
    if lines != [] {
      AnotherLine(mode, st, lines[0], junk, name);
      var mid := RunLine(mode, st, lines[0], junk);
      DefinedAgain(mode, mid, lines[1..], junk, name, if j > 0 then j - 1 else 0);
    } else {
      assert st.errors;
    }
  }

  lemma {:induction false} LabelAgain(mode: Mode, st: State, lines: seq<Line>, junk: int, name: Name, i: nat, j: nat)
    requires mode.pass == 1 && st.pc + Extent(lines) <= |st.code| && i < j < |lines|
    requires lines[i].Code? && lines[i].mark == Some(name) && Defines(lines[j], name)
    ensures RunLines(mode, st, lines, junk).errors
    decreases |lines|
  {
    hide RunLine, LineSize, Defines, HasLabel;
    AnotherLine(mode, st, lines[0], junk, name);
    var mid := RunLine(mode, st, lines[0], junk);
    if i == 0 {
      DefinedAgain(mode, mid, lines[1..], junk, name, j - 1);
    } else {
      LabelAgain(mode, mid, lines[1..], junk, name, i - 1, j - 1);
    }
  }

  /** A program that defines a label again, as a label or as a variable, does not assemble. */
  lemma LabelTwice(lines: seq<Line>, buffer: seq<Byte>, org: int, junk: int, name: Name, i: nat, j: nat)
    requires Extent(lines) <= |buffer| && i < j < |lines|
    requires lines[i].Code? && lines[i].mark == Some(name) && Defines(lines[j], name)
    ensures AssembleAt(lines, buffer, org, junk).Failure? && AssembleRelocatable(lines, buffer, junk).Failure?
  {
    hide RunLines;
    LabelAgain(Mode(false, 1, org), Initial(buffer), lines, junk, name, i, j);
    LabelAgain(Mode(true, 1, 0), Initial(buffer), lines, junk, name, i, j);
  }

  lemma MovedAgrees(lines: seq<Line>, st: State)
    requires Moved(st.syms, Labels(lines, 0))
    ensures Agrees(THIRD, st.syms, Labels(lines, 0))
  {}
}
