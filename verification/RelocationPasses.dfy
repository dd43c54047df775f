/** The passes of as68 over a linear program: what each of them lays down, and what the symbols are
    after it (as68/as68.c:351-421, 873-1010). */
module RelocationPasses {
  import opened Options
  import opened Assembly
  import opened Relocation

  /** The passes that store code. */
  ghost predicate StoringPass(mode: Mode) {
    mode == Mode(true, 2, 0) || mode == Mode(true, 3, SHIFTED) || (!mode.relocatable && mode.pass == 2)
  }

  /** `ls` are labels with their places, and `env` knows them. */
  ghost predicate Knows(env: map<Name, Lin>, ls: map<Name, Lin>) {
    forall name <- ls :: name in env && env[name] == ls[name]
  }

  /** The labels in `ls` have the values that the third pass needs. */
  ghost predicate Moved(syms: map<Name, Symbol>, ls: map<Name, Lin>) {
    forall name <- ls :: name in syms && syms[name].value2 == ls[name].At(SHIFTED)
  }

  ghost predicate EquatesKnown(syms: map<Name, Symbol>, lines: seq<Line>) {
    forall line <- lines :: line.Equate? ==> line.name in syms
  }

  // ---- Symbols.

  lemma DefineLabelAgrees(mode: Mode, st: State, env: map<Name, Lin>, name: Name, done: map<Name, Lin>)
    requires StoringPass(mode) && Agrees(mode, st.syms, env) && name in env && env[name] == Lin(st.pc, 1)
    requires st.pc < 0x8000_0000 && Knows(env, done) && (mode.pass == 2 && mode.relocatable ==> Moved(st.syms, done))
    ensures var r := DefineLabel(mode, st, name);
            && r == st.(syms := r.syms) && r.syms.Keys == st.syms.Keys && Agrees(mode, r.syms, env)
            && (mode.pass == 2 && mode.relocatable ==> Moved(r.syms, done[name := Lin(st.pc, 1)]))
  {
    hide Int32;
    SmallStays(st.pc);
    assert 1 * mode.org == mode.org && 1 * SHIFTED == SHIFTED;
    assert Lin(st.pc, 1).At(mode.org) == Int32(st.pc + mode.org) && Lin(st.pc, 1).At(SHIFTED) == Int32(st.pc + SHIFTED);
    hide Lin.At;
  }

  lemma AssignAgrees(mode: Mode, st: State, env: map<Name, Lin>, name: Name, e: Expr, junk: int, done: map<Name, Lin>)
    requires StoringPass(mode) && Agrees(mode, st.syms, env) && name !in env
    requires Linear(env, st.pc, st.pc, e).Some? && (mode.Third() ==> name in st.syms)
    requires Knows(env, done) && (mode.pass == 2 && mode.relocatable ==> Moved(st.syms, done))
    ensures var r := Assign(mode, st, name, e, junk);
            && r == st.(syms := r.syms, errors := r.errors) && (!r.errors ==> !st.errors)
            && r.syms.Keys == st.syms.Keys + {name}
            && Agrees(mode, r.syms, env[name := Linear(env, st.pc, st.pc, e).value])
            && (mode.pass == 2 && mode.relocatable ==> Moved(r.syms, done))
  {
    EvalLinear(mode, st.syms, env, st.pc, st.pc, e);
    hide Eval, Linear, Int32;
  }

  // ---- One line.

  function Marked(done: map<Name, Lin>, line: Line, pc: nat): map<Name, Lin> {
    if line.Code? && line.mark.Some? then done[line.mark.value := Lin(pc, 1)] else done
  }

  lemma RunLinePieces(mode: Mode, st: State, env: map<Name, Lin>, line: Line, junk: int, done: map<Name, Lin>)
    returns (pieces: seq<Piece>, env': map<Name, Lin>)
    requires StoringPass(mode) && Agrees(mode, st.syms, env) && st.maxPc == st.pc
    requires st.pc + LineSize(line) <= |st.code| < 0x8000_0000
    requires LinePieces(env, line, st.pc).Some? && EnvAfter(env, line, st.pc).Some?
    requires Knows(env, Marked(done, line, st.pc)) && Knows(env, done)
    requires mode.Third() && line.Equate? ==> line.name in st.syms
    requires mode.pass == 2 && mode.relocatable ==> Moved(st.syms, done)
    ensures pieces == LinePieces(env, line, st.pc).value && env' == EnvAfter(env, line, st.pc).value
    ensures TotalSize(pieces) == LineSize(line)
    ensures var r := RunLine(mode, st, line, junk);
            && LaysDown(mode, st, r, pieces) && r.maxPc == r.pc && Agrees(mode, r.syms, env')
            && st.syms.Keys <= r.syms.Keys && (line.Equate? ==> line.name in r.syms)
            && (mode.pass == 2 && mode.relocatable ==> Moved(r.syms, Marked(done, line, st.pc)))
    ensures Knows(env', Marked(done, line, st.pc))
  {
    hide Linear, Assign, Agrees, LaysDown, DefineLabel, Knows, Moved, GenFields, PutW, FieldPieces, TotalSize;
    NothingSized();
    KnowsAfter(env, line, st.pc, done);
    pieces, env' := LinePieces(env, line, st.pc).value, EnvAfter(env, line, st.pc).value;
    if line.Equate? {
      AssignAgrees(mode, st, env, line.name, line.e, junk, done);
      LaysNone(mode, st, Assign(mode, st, line.name, line.e, junk));
    } else {
      var st1 := st;
      if line.mark.Some? {
        DefineLabelAgrees(mode, st, env, line.mark.value, done);
        st1 := DefineLabel(mode, st, line.mark.value);
      }
      CodePieces(mode, st, st1, env, line.body);
    }
  }

  lemma LaysNone(mode: Mode, st: State, r: State)
    requires r == st.(syms := r.syms, errors := r.errors) && (!r.errors ==> !st.errors) && st.pc <= |st.code|
    ensures LaysDown(mode, st, r, [])
  {
    LaysNothing(mode, st);
    hide Store;
  }

  lemma NothingSized()
    ensures TotalSize([]) == 0
  {}

  /** An equate defines a name of its own. */
  lemma KnowsAfter(env: map<Name, Lin>, line: Line, pc: nat, done: map<Name, Lin>)
    requires EnvAfter(env, line, pc).Some? && Knows(env, Marked(done, line, pc))
    ensures Knows(EnvAfter(env, line, pc).value, Marked(done, line, pc))
    ensures line.Code? && line.mark.Some? ==> line.mark.value in env && env[line.mark.value] == Lin(pc, 1)
  {
    hide Linear;
  }

  lemma CodePieces(mode: Mode, st: State, st1: State, env: map<Name, Lin>, body: Body)
    requires st1 == st.(syms := st1.syms) && Agrees(mode, st1.syms, env) && st.maxPc == st.pc
    requires var line := Code(None, body); st.pc + LineSize(line) <= |st.code| && LinePieces(env, line, st.pc).Some?
    ensures var line := Code(None, body);
            var r, pieces := RunLine(mode, st1, line, 0), LinePieces(env, line, st.pc).value;
            && LaysDown(mode, st, r, pieces) && r.maxPc == r.pc && r.syms == st1.syms
            && TotalSize(pieces) == LineSize(line)
  {
    hide Agrees, LaysDown, GenFields, FieldPieces;
    match body {
      case Nothing =>
        NothingSized();
        LaysNone(mode, st, st1);
      case Data(fs) =>
        var pieces := GenFieldsPieces(mode, st1, env, st.pc, fs);
        OtherSymbols(mode, st, st1, GenFields(mode, st1, st.pc, fs), pieces);
      case Instr(opcode, fs) => InstrPieces(mode, st, st1, env, opcode, fs);
    }
  }

  lemma InstrPieces(mode: Mode, st: State, st1: State, env: map<Name, Lin>, opcode: nat, fs: seq<Field>)
    requires st1 == st.(syms := st1.syms) && Agrees(mode, st1.syms, env) && st.maxPc == st.pc
    requires st.pc + 2 + Sizes(fs) <= |st.code| && FieldPieces(env, st.pc, st.pc + 2, fs).Some?
    ensures var mid := GenFields(mode, st1.(pc := st.pc + 2), st.pc, fs);
            var r, pieces := PutW(mode, mid, st.pc, opcode), FieldPieces(env, st.pc, st.pc + 2, fs).value;
            && LaysDown(mode, st, r, [Piece(WordShape, Lin(opcode, 0))] + pieces)
            && r.maxPc == r.pc && r.syms == st1.syms
            && TotalSize([Piece(WordShape, Lin(opcode, 0))] + pieces) == 2 + Sizes(fs)
  {
    hide Agrees, LaysDown, GenFields, FieldPieces, Store, LostBits;
    var pieces := GenFieldsPieces(mode, st1.(pc := st.pc + 2), env, st.pc, fs);
    var mid := GenFields(mode, st1.(pc := st.pc + 2), st.pc, fs);
    PutWPiece(mode, st1, mid, pieces, opcode);
    OtherSymbols(mode, st, st1, PutW(mode, mid, st.pc, opcode), [Piece(WordShape, Lin(opcode, 0))] + pieces);
    SizeCons(Piece(WordShape, Lin(opcode, 0)), pieces);
  }

  lemma OtherSymbols(mode: Mode, st: State, st1: State, r: State, pieces: seq<Piece>)
    requires st1 == st.(syms := st1.syms) && LaysDown(mode, st1, r, pieces)
    ensures LaysDown(mode, st, r, pieces)
  {
    hide Rewrite, Places, Store;
  }

  // ---- A whole pass.

  lemma {:induction false} RunLinesPieces(mode: Mode, st: State, env: map<Name, Lin>, lines: seq<Line>, junk: int,
        done: map<Name, Lin>, seen: set<Name>)
    returns (pieces: seq<Piece>)
    requires StoringPass(mode) && Agrees(mode, st.syms, env) && st.maxPc == st.pc
    requires st.pc + Extent(lines) <= |st.code| < 0x8000_0000
    requires Pieces(env, lines, st.pc).Some? && Knows(env, Labels(lines, st.pc)) && Knows(env, done)
    requires DefinedOnce(lines, seen) && (mode.Third() ==> EquatesKnown(st.syms, lines))
    requires mode.pass == 2 && mode.relocatable ==> Moved(st.syms, done)
    ensures pieces == Pieces(env, lines, st.pc).value && TotalSize(pieces) == Extent(lines)
    ensures var r := RunLines(mode, st, lines, junk);
            && LaysDown(mode, st, r, pieces) && r.maxPc == r.pc
            && st.syms.Keys <= r.syms.Keys && EquatesKnown(r.syms, lines)
            && (mode.pass == 2 && mode.relocatable ==> Moved(r.syms, done) && Moved(r.syms, Labels(lines, st.pc)))
    decreases |lines|
  {
    hide LinePieces, EnvAfter, RunLine, LaysDown, Agrees, Knows, Moved, EquatesKnown, DefinedOnce, Pieces, LineSize;
    if lines == [] {
      pieces := [];
      NoLines(st.syms, env, st.pc);
      LaysNothing(mode, st);
    } else {
      NextLines(env, lines, st.pc, done, seen);
      NextEquates(st.syms, lines);
      var now, env' := RunLinePieces(mode, st, env, lines[0], junk, done);
      var mid := RunLine(mode, st, lines[0], junk);
      EquatesStay(st.syms, mid.syms, lines);
      var rest := RunLinesPieces(mode, mid, env', lines[1..], junk, Marked(done, lines[0], st.pc),
          SeenAfter(seen, lines[0]));
      var r := RunLines(mode, st, lines, junk);
      LaysTogether(mode, st, mid, r, now, rest);
      SizeAppend(now, rest);
      EquatesGrow(mid.syms, r.syms, lines);
      MovedAll(r.syms, env, lines, st.pc, done);
      pieces := now + rest;
    }
  }

  lemma NoLines(syms: map<Name, Symbol>, env: map<Name, Lin>, pc: nat)
    ensures Pieces(env, [], pc) == Some([]) && Moved(syms, Labels([], pc)) && EquatesKnown(syms, [])
  {}

  /** What the first line needs, and what it leaves to the others. */
  lemma NextLines(env: map<Name, Lin>, lines: seq<Line>, pc: nat, done: map<Name, Lin>, seen: set<Name>)
    requires lines != [] && Knows(env, Labels(lines, pc)) && Knows(env, done)
    requires DefinedOnce(lines, seen) && Pieces(env, lines, pc).Some?
    ensures LinePieces(env, lines[0], pc).Some? && EnvAfter(env, lines[0], pc).Some?
    ensures Knows(env, Marked(done, lines[0], pc)) && DefinedOnce(lines[1..], SeenAfter(seen, lines[0]))
    ensures var env', rest := EnvAfter(env, lines[0], pc).value, lines[1..];
            var pc' := pc + LineSize(lines[0]);
            && Knows(env', Labels(rest, pc')) && Pieces(env', rest, pc').Some?
            && Pieces(env, lines, pc).value == LinePieces(env, lines[0], pc).value + Pieces(env', rest, pc').value
  {
    hide LinePieces, LineSize;
    EnvGrows(env, lines, pc, seen);
  }

  lemma NextEquates(syms: map<Name, Symbol>, lines: seq<Line>)
    requires lines != []
    ensures EquatesKnown(syms, lines) && lines[0].Equate? ==> lines[0].name in syms
  {}

  lemma EquatesStay(syms: map<Name, Symbol>, mid: map<Name, Symbol>, lines: seq<Line>)
    requires lines != [] && syms.Keys <= mid.Keys
    ensures EquatesKnown(syms, lines) ==> EquatesKnown(mid, lines[1..])
  {}

  lemma EquatesGrow(mid: map<Name, Symbol>, syms: map<Name, Symbol>, lines: seq<Line>)
    requires lines != [] && mid.Keys <= syms.Keys && (lines[0].Equate? ==> lines[0].name in mid)
    ensures EquatesKnown(syms, lines[1..]) ==> EquatesKnown(syms, lines)
  {}

  lemma MovedAll(syms: map<Name, Symbol>, env: map<Name, Lin>, lines: seq<Line>, pc: nat, done: map<Name, Lin>)
    requires lines != [] && Knows(env, Labels(lines, pc)) && Knows(env, done)
    ensures Moved(syms, Marked(done, lines[0], pc)) && Moved(syms, Labels(lines[1..], pc + LineSize(lines[0])))
            ==> Moved(syms, done) && Moved(syms, Labels(lines, pc))
  {
    hide LineSize, Lin.At;
  }

  lemma EnvGrows(env: map<Name, Lin>, lines: seq<Line>, pc: nat, seen: set<Name>)
    requires lines != [] && Knows(env, Labels(lines, pc)) && EnvAfter(env, lines[0], pc).Some?
             && DefinedOnce(lines, seen)
    ensures Knows(EnvAfter(env, lines[0], pc).value, Labels(lines[1..], pc + LineSize(lines[0])))
  {
    LabelsFresh(lines[1..], pc + LineSize(lines[0]), SeenAfter(seen, lines[0]));
  }

  lemma {:induction false} LabelsFresh(lines: seq<Line>, pc: nat, seen: set<Name>)
    requires DefinedOnce(lines, seen)
    ensures forall name <- Labels(lines, pc) :: name !in seen
    decreases |lines|
  {
    if lines != [] {
      LabelsFresh(lines[1..], pc + LineSize(lines[0]), SeenAfter(seen, lines[0]));
    }
  }

  // ---- The first pass: labels get their places, nothing is recorded.

  lemma {:induction false} FirstPass(mode: Mode, st: State, lines: seq<Line>, junk: int, seen: set<Name>)
    requires mode.pass == 1 && st.syms.Keys <= seen && DefinedOnce(lines, seen)
    requires st.pc + Extent(lines) <= |st.code| < 0x8000_0000
    ensures var r := RunLines(mode, st, lines, junk);
            && r.rel == st.rel
            && (forall name <- st.syms :: name in r.syms && r.syms[name] == st.syms[name])
            && (forall name <- Labels(lines, st.pc) ::
                  name in r.syms && r.syms[name].value == Labels(lines, st.pc)[name].At(mode.org))
    decreases |lines|
  {
    hide RunLine, Int32;
    if lines != [] {
      var mid := RunLine(mode, st, lines[0], junk);
      FirstLine(mode, st, lines[0], junk, seen);
      FirstPass(mode, mid, lines[1..], junk, SeenAfter(seen, lines[0]));
      LabelsFresh(lines[1..], mid.pc, SeenAfter(seen, lines[0]));
    }
  }

  lemma FirstLine(mode: Mode, st: State, line: Line, junk: int, seen: set<Name>)
    requires mode.pass == 1 && st.syms.Keys <= seen && st.pc + LineSize(line) <= |st.code|
    requires DefinedOnce([line], seen)
    ensures var r := RunLine(mode, st, line, junk);
            && r.rel == st.rel && r.syms.Keys <= SeenAfter(seen, line)
            && (forall name <- st.syms :: name in r.syms && r.syms[name] == st.syms[name])
            && (line.Code? && line.mark.Some? ==>
                  line.mark.value in r.syms && r.syms[line.mark.value].value == Lin(st.pc, 1).At(mode.org))
  {
    hide Eval, Int32, GenFields;
    if line.Code? {
      var st1 := if line.mark.Some? then DefineLabel(mode, st, line.mark.value) else st;
      if line.body.Data? {
        FirstFields(mode, st1, st.pc, line.body.fields);
      } else if line.body.Instr? {
        FirstFields(mode, st1.(pc := st.pc + 2), st.pc, line.body.exts);
      }
    }
  }

  lemma {:induction false} FirstFields(mode: Mode, st: State, here: nat, fs: seq<Field>)
    requires mode.pass == 1 && st.pc + Sizes(fs) <= |st.code|
    ensures var r := GenFields(mode, st, here, fs); r.rel == st.rel && r.syms == st.syms
    decreases |fs|
  {
    hide Eval, Int32, Store, FieldError;
    if fs != [] {
      FirstFields(mode, GenField(mode, st, here, fs[0]), here, fs[1..]);
    }
  }
}
