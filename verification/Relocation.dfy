/** Relocation as as68 finds it: assemble once at 0 and once with every label moved by 0x12345678,
    and record each long word that moved by just that. When adding an origin at the recorded
    places gives what assembling at that origin would have given. */
module Relocation {
  import opened Sequences
  import opened Options
  import opened BitStacks
  import opened Powers
  import opened Words
  import opened Assembly

  /** A value that is `v` when labels start at 0 and moves `c` times as far as they do. */
  datatype Lin = Lin(v: int, c: int) {
    function At(origin: int): int { Int32(v + c * origin) }
  }

  // ---- Linear expressions.

  /** The expression as a linear one, if it is: products, comparisons and bitwise operators must
      not depend on the origin. */
  function Linear(env: map<Name, Lin>, here: int, pc: int, e: Expr): Option<Lin> {
    match e
    case Num(n) => Some(Lin(n, 0))
    case Sym(name) => if name in env then Some(env[name]) else None
    case Here => Some(Lin(here, 1))
    case Pc => Some(Lin(pc, 1))
    case Neg(a) =>
      var x := Linear(env, here, pc, a);
      if x.Some? then Some(Lin(0 - x.value.v, 0 - x.value.c)) else None
    case Com(a) =>
      var x := Linear(env, here, pc, a);
      if x.Some? then Some(Lin(-1 - x.value.v, 0 - x.value.c)) else None
    case Not(a) =>
      var x := Linear(env, here, pc, a);
      if x.Some? && x.value.c == 0 then Some(Lin(AsInt(Int32(x.value.v) == 0), 0)) else None
    case Add(a, b) =>
      var x, y := Linear(env, here, pc, a), Linear(env, here, pc, b);
      if x.Some? && y.Some? then Some(Lin(x.value.v + y.value.v, x.value.c + y.value.c)) else None
    case Sub(a, b) =>
      var x, y := Linear(env, here, pc, a), Linear(env, here, pc, b);
      if x.Some? && y.Some? then Some(Lin(x.value.v - y.value.v, x.value.c - y.value.c)) else None
    case Bin(op, a, b) =>
      var x, y := Linear(env, here, pc, a), Linear(env, here, pc, b);
      if x.Some? && x.value.c == 0 && Decided(op, Int32(x.value.v)) then Some(Lin(AsInt(op.Either?), 0))
      else if x.Some? && y.Some? && x.value.c == 0 && y.value.c == 0 then
        Some(Lin(BinValue(op, Int32(x.value.v), Int32(y.value.v)), 0))
      else None
  }

  /** The symbols have the values that `env` gives them at the pass's origin. */
  ghost predicate Agrees(mode: Mode, syms: map<Name, Symbol>, env: map<Name, Lin>) {
    forall name <- env :: name in syms
      && (if mode.Third() then syms[name].value2 else syms[name].value) == env[name].At(mode.org)
  }

  lemma Int32Wraps(x: int, k: int)
    ensures Int32(x + k * 0x1_0000_0000) == Int32(x)
  {
    assert (x + 0x8000_0000 + k * 0x1_0000_0000) % 0x1_0000_0000 == (x + 0x8000_0000) % 0x1_0000_0000;
  }

  lemma Int32Off(x: int) returns (k: int)
    ensures Int32(x) == x + k * 0x1_0000_0000
  {
    k := 0 - (x + 0x8000_0000) / 0x1_0000_0000;
  }

  /** Wrapping early or late makes no difference to sums. */
  lemma Int32Sum(x: int, y: int)
    ensures Int32(Int32(x) + Int32(y)) == Int32(x + y)
    ensures Int32(Int32(x) - Int32(y)) == Int32(x - y)
    ensures Int32(0 - Int32(x)) == Int32(0 - x) && Int32(-1 - Int32(x)) == Int32(-1 - x)
    ensures Int32(Int32(x)) == Int32(x)
  {
    var k := Int32Off(x);
    var j := Int32Off(y);
    Int32Wraps(x + y, k + j);
    Int32Wraps(x - y, k - j);
    Int32Wraps(0 - x, 0 - k);
    Int32Wraps(-1 - x, 0 - k);
    Int32Wraps(x, k);
  }

  lemma LinSum(x: Lin, y: Lin, origin: int)
    ensures Int32(x.At(origin) + y.At(origin)) == Lin(x.v + y.v, x.c + y.c).At(origin)
    ensures Int32(x.At(origin) - y.At(origin)) == Lin(x.v - y.v, x.c - y.c).At(origin)
    ensures Int32(0 - x.At(origin)) == Lin(0 - x.v, 0 - x.c).At(origin)
    ensures Int32(-1 - x.At(origin)) == Lin(-1 - x.v, 0 - x.c).At(origin)
  {
    hide Int32;
    Int32Sum(x.v + x.c * origin, y.v + y.c * origin);
    Distribute(x.c, y.c, 0, origin);
    Distribute(x.c, 0 - y.c, 0, origin);
    Distribute(0, 0 - x.c, 0, origin);
    NegateProduct(x.c, origin);
    NegateProduct(y.c, origin);
  }

  lemma NegateProduct(c: int, p: int)
    ensures (0 - c) * p == 0 - c * p
  {}

  /** A linear expression has its linear value in every pass, whatever the origin. */
  lemma {:induction false} EvalLinear(mode: Mode, syms: map<Name, Symbol>, env: map<Name, Lin>, here: int, pc: int,
        e: Expr)
    requires Agrees(mode, syms, env) && Linear(env, here, pc, e).Some?
    ensures Eval(mode, syms, here, pc, e) == Value(Linear(env, here, pc, e).value.At(mode.org), false, false)
  {
    hide Int32, BinValue;
    if e.Neg? || e.Com? || e.Not? {
      EvalLinear(mode, syms, env, here, pc, e.e);
      EvalUnary(mode, syms, env, here, pc, e);
    } else if e.Add? || e.Sub? || e.Bin? {
      EvalLinear(mode, syms, env, here, pc, e.a);
      var x := Linear(env, here, pc, e.a).value;
      LinSum(x, Lin(0, 0), mode.org);
      SmallStays(AsInt(e.Bin? && e.op.Either?));
      if !(e.Bin? && x.c == 0 && Decided(e.op, Int32(x.v))) {
        EvalLinear(mode, syms, env, here, pc, e.b);
        EvalBinary(mode, syms, env, here, pc, e);
      }
    }
  }

  lemma EvalUnary(mode: Mode, syms: map<Name, Symbol>, env: map<Name, Lin>, here: int, pc: int, e: Expr)
    requires (e.Neg? || e.Com? || e.Not?) && Linear(env, here, pc, e).Some? && Linear(env, here, pc, e.e).Some?
    requires Eval(mode, syms, here, pc, e.e) == Value(Linear(env, here, pc, e.e).value.At(mode.org), false, false)
    ensures Eval(mode, syms, here, pc, e) == Value(Linear(env, here, pc, e).value.At(mode.org), false, false)
  {
    hide Int32;
    var x := Linear(env, here, pc, e.e).value;
    LinSum(x, Lin(0, 0), mode.org);
    SmallStays(AsInt(Int32(x.v) == 0));
  }

  lemma EvalBinary(mode: Mode, syms: map<Name, Symbol>, env: map<Name, Lin>, here: int, pc: int, e: Expr)
    requires (e.Add? || e.Sub? || e.Bin?) && Linear(env, here, pc, e).Some?
    requires Linear(env, here, pc, e.a).Some? && Linear(env, here, pc, e.b).Some?
    requires var x := Linear(env, here, pc, e.a).value;
             e.Bin? ==> !(x.c == 0 && Decided(e.op, Int32(x.v)))
    requires Eval(mode, syms, here, pc, e.a) == Value(Linear(env, here, pc, e.a).value.At(mode.org), false, false)
    requires Eval(mode, syms, here, pc, e.b) == Value(Linear(env, here, pc, e.b).value.At(mode.org), false, false)
    ensures Eval(mode, syms, here, pc, e) == Value(Linear(env, here, pc, e).value.At(mode.org), false, false)
  {
    hide Int32, BinValue;
    var x, y := Linear(env, here, pc, e.a).value, Linear(env, here, pc, e.b).value;
    LinSum(x, y, mode.org);
    if e.Bin? {
      BinStays(e.op, Int32(x.v), Int32(y.v));
    }
  }

  lemma SmallStays(x: int)
    requires -0x8000_0000 <= x < 0x8000_0000
    ensures Int32(x) == x
  {}

  lemma BinStays(op: BinOp, a: int, b: int)
    ensures Int32(BinValue(op, a, b)) == BinValue(op, a, b)
  {
    hide Bitwise;
  }

  // ---- What a program lays down.

  datatype Piece = Piece(shape: Shape, lin: Lin)

  function FieldPieces(env: map<Name, Lin>, here: nat, pc: nat, fs: seq<Field>): Option<seq<Piece>>
    decreases |fs|
  {
    if fs == [] then Some([]) else
    var lin := Linear(env, here, pc, fs[0].Stored());
    var rest := FieldPieces(env, here, pc + fs[0].Shape().Size(), fs[1..]);
    if lin.Some? && rest.Some? then Some([Piece(fs[0].Shape(), lin.value)] + rest.value) else None
  }

  function LinePieces(env: map<Name, Lin>, line: Line, pc: nat): Option<seq<Piece>> {
    if line.Equate? || line.body.Nothing? then Some([])
    else if line.body.Data? then FieldPieces(env, pc, pc, line.body.fields)
    else
      var rest := FieldPieces(env, pc, pc + 2, line.body.exts);
      if rest.Some? then Some([Piece(WordShape, Lin(line.body.opcode, 0))] + rest.value) else None
  }

  /** The pieces of a program whose expressions are all linear and whose equates are defined once
      and before they are used. */
  function Pieces(env: map<Name, Lin>, lines: seq<Line>, pc: nat): Option<seq<Piece>>
    decreases |lines|
  {
    if lines == [] then Some([]) else
    var pieces, env' := LinePieces(env, lines[0], pc), EnvAfter(env, lines[0], pc);
    if pieces.None? || env'.None? then None else
    var rest := Pieces(env'.value, lines[1..], pc + LineSize(lines[0]));
    if rest.Some? then Some(pieces.value + rest.value) else None
  }

  function EnvAfter(env: map<Name, Lin>, line: Line, pc: nat): Option<map<Name, Lin>> {
    if line.Code? then Some(env)
    else if line.name in env then None
    else
      var lin := Linear(env, pc, pc, line.e);
      if lin.Some? then Some(env[line.name := lin.value]) else None
  }

  /** Where each label stands. */
  function Labels(lines: seq<Line>, pc: nat): map<Name, Lin>
    decreases |lines|
  {
    if lines == [] then map[] else
    var rest := Labels(lines[1..], pc + LineSize(lines[0]));
    if lines[0].Code? && lines[0].mark.Some? then rest[lines[0].mark.value := Lin(pc, 1)] else rest
  }

  function SeenAfter(seen: set<Name>, line: Line): set<Name> {
    if line.Equate? then seen + {line.name}
    else if line.mark.Some? then seen + {line.mark.value}
    else seen
  }

  /** Every name is defined at most once, by a label or by an equate, and none in `seen`. */
  ghost predicate DefinedOnce(lines: seq<Line>, seen: set<Name>)
    decreases |lines|
  {
    lines != [] ==>
      && (lines[0].Equate? ==> lines[0].name !in seen)
      && (lines[0].Code? && lines[0].mark.Some? ==> lines[0].mark.value !in seen)
      && DefinedOnce(lines[1..], SeenAfter(seen, lines[0]))
  }

  function TotalSize(pieces: seq<Piece>): nat {
    if pieces == [] then 0 else pieces[0].shape.Size() + TotalSize(pieces[1..])
  }

  // ---- What a pass does to the code: each piece rewrites its own bytes.

  function Written(mode: Mode, was: seq<Byte>, p: Piece): (r: seq<Byte>)
    requires |was| == p.shape.Size()
    ensures |r| == |was|
  {
    var a := p.lin.At(mode.org);
    if p.shape.LongShape? then
      if Records(mode, was, 0, a) then was else p.shape.Bytes(a)
    else if mode.Writes() then p.shape.Bytes(a)
    else was
  }

  function Rewrite(mode: Mode, was: seq<Byte>, pieces: seq<Piece>): (r: seq<Byte>)
    requires |was| == TotalSize(pieces)
    ensures |r| == |was|
    decreases |pieces|
  {
    if pieces == [] then [] else
    var n := pieces[0].shape.Size();
    Written(mode, was[..n], pieces[0]) + Rewrite(mode, was[n..], pieces[1..])
  }

  function PlaceOf(mode: Mode, was: seq<Byte>, p: Piece, at: nat): seq<nat>
    requires |was| == p.shape.Size()
  {
    if p.shape.LongShape? && Records(mode, was, 0, p.lin.At(mode.org)) then [at] else []
  }

  /** The places that are recorded when the pieces start at `at`. */
  function Places(mode: Mode, was: seq<Byte>, pieces: seq<Piece>, at: nat): seq<nat>
    requires |was| == TotalSize(pieces)
    decreases |pieces|
  {
    if pieces == [] then [] else
    var p, n := pieces[0], pieces[0].shape.Size();
    PlaceOf(mode, was[..n], p, at) + Places(mode, was[n..], pieces[1..], at + n)
  }

  /** Pieces laid down from `st.pc` on. */
  ghost predicate LaysDown(mode: Mode, st: State, r: State, pieces: seq<Piece>) {
    && st.pc + TotalSize(pieces) <= |st.code|
    && r.pc == st.pc + TotalSize(pieces)
    && var was := st.code[st.pc..r.pc];
       && r.code == Store(st.code, st.pc, Rewrite(mode, was, pieces))
       && (!r.errors ==> !st.errors && r.rel == st.rel + Places(mode, was, pieces, st.pc))
  }

  lemma StoreTwice(code: seq<Byte>, at: nat, x: seq<Byte>, y: seq<Byte>)
    requires at + |x| + |y| <= |code|
    ensures Store(Store(code, at, x), at + |x|, y) == Store(code, at, x + y)
    ensures Store(code, at, x)[at + |x|..at + |x| + |y|] == code[at + |x|..at + |x| + |y|]
  {}

  lemma {:induction false} LaysNothing(mode: Mode, st: State)
    requires st.pc <= |st.code|
    ensures LaysDown(mode, st, st, [])
  {
    assert Store(st.code, st.pc, []) == st.code;
  }

  lemma Slices(s: seq<Byte>, a: nat, n: nat, m: nat)
    requires a + n + m <= |s|
    ensures s[a..a + n + m][..n] == s[a..a + n] && s[a..a + n + m][n..] == s[a + n..a + n + m]
  {}

  lemma SizeCons(p: Piece, rest: seq<Piece>)
    ensures TotalSize([p]) == p.shape.Size() && TotalSize([p] + rest) == p.shape.Size() + TotalSize(rest)
  {
    assert [p][1..] == [] && ([p] + rest)[1..] == rest;
  }

  lemma RewriteCons(mode: Mode, was: seq<Byte>, p: Piece, rest: seq<Piece>)
    requires |was| == p.shape.Size() + TotalSize(rest)
    ensures TotalSize([p]) == p.shape.Size() && TotalSize([p] + rest) == |was|
    ensures Rewrite(mode, was, [p] + rest)
         == Rewrite(mode, was[..p.shape.Size()], [p]) + Rewrite(mode, was[p.shape.Size()..], rest)
  {
    hide Written;
    assert [p][1..] == [] && ([p] + rest)[1..] == rest;
    var n := p.shape.Size();
    assert was[..n][..n] == was[..n] && was[..n][n..] == [];
  }

  lemma PlacesCons(mode: Mode, was: seq<Byte>, p: Piece, rest: seq<Piece>, at: nat)
    requires |was| == p.shape.Size() + TotalSize(rest)
    ensures TotalSize([p]) == p.shape.Size() && TotalSize([p] + rest) == |was|
    ensures Places(mode, was, [p] + rest, at)
         == Places(mode, was[..p.shape.Size()], [p], at)
            + Places(mode, was[p.shape.Size()..], rest, at + p.shape.Size())
  {
    hide PlaceOf;
    assert [p][1..] == [] && ([p] + rest)[1..] == rest;
    var n := p.shape.Size();
    assert was[..n][..n] == was[..n] && was[..n][n..] == [];
  }

  lemma OnePiece(mode: Mode, was: seq<Byte>, p: Piece, at: nat)
    requires |was| == p.shape.Size()
    ensures TotalSize([p]) == |was|
    ensures Rewrite(mode, was, [p]) == Written(mode, was, p) && Places(mode, was, [p], at) == PlaceOf(mode, was, p, at)
  {
    hide Written, PlaceOf;
    SizeCons(p, []);
    assert [p][1..] == [] && was[..|was|] == was && was[|was|..] == [];
  }

  lemma GenPiece(mode: Mode, st: State, p: Piece)
    requires st.pc + p.shape.Size() <= |st.code|
    ensures LaysDown(mode, st, Gen(mode, st, p.shape, p.lin.At(mode.org)), [p])
    ensures var r := Gen(mode, st, p.shape, p.lin.At(mode.org)); r.syms == st.syms && r.maxPc == Max(st.maxPc, r.pc)
  {
    hide Int32, GetL, Written, PlaceOf, Rewrite, Places, Store, TotalSize, Records, Shape.Bytes;
    var was := st.code[st.pc..st.pc + p.shape.Size()];
    OnePiece(mode, was, p, st.pc);
    GenBytes(mode, st, p);
  }

  /** What is stored, or left, is what Written says; and so is what is recorded. */
  lemma GenBytes(mode: Mode, st: State, p: Piece)
    requires st.pc + p.shape.Size() <= |st.code|
    ensures var r, was := Gen(mode, st, p.shape, p.lin.At(mode.org)), st.code[st.pc..st.pc + p.shape.Size()];
            && r.code == Store(st.code, st.pc, Written(mode, was, p))
            && (!r.errors ==> !st.errors && r.rel == st.rel + PlaceOf(mode, was, p, st.pc))
  {
    hide Int32, GetL;
    var was := st.code[st.pc..st.pc + p.shape.Size()];
    if p.shape.LongShape? {
      GetLSlice(st.code, st.pc);
    }
    StoreSame(st.code, st.pc, p.shape.Size());
    hide Store;
  }

  lemma GetLSlice(code: seq<Byte>, at: nat)
    requires at + 4 <= |code|
    ensures GetL(code[at..at + 4], 0) == GetL(code, at)
  {
    hide Int32;
  }

  lemma StoreSame(code: seq<Byte>, at: nat, n: nat)
    requires at + n <= |code|
    ensures Store(code, at, code[at..at + n]) == code
  {}

  lemma {:induction false} GenFieldsPieces(mode: Mode, st: State, env: map<Name, Lin>, here: nat, fs: seq<Field>)
    returns (pieces: seq<Piece>)
    requires Agrees(mode, st.syms, env) && FieldPieces(env, here, st.pc, fs).Some?
    requires st.pc + Sizes(fs) <= |st.code|
    ensures pieces == FieldPieces(env, here, st.pc, fs).value && TotalSize(pieces) == Sizes(fs)
    ensures var r := GenFields(mode, st, here, fs);
            && LaysDown(mode, st, r, pieces) && r.syms == st.syms
            && r.maxPc == if fs == [] then st.maxPc else Max(st.maxPc, r.pc)
    decreases |fs|
  {
    hide Gen, LaysDown, Eval, Linear, Agrees, FieldError;
    if fs == [] {
      pieces := [];
      LaysNothing(mode, st);
    } else {
      var f := fs[0];
      var p := Piece(f.Shape(), Linear(env, here, st.pc, f.Stored()).value);
      GenFieldPiece(mode, st, env, here, f, p);
      var mid := GenField(mode, st, here, f);
      var rest := GenFieldsPieces(mode, mid, env, here, fs[1..]);
      LaysTogether(mode, st, mid, GenFields(mode, st, here, fs), [p], rest);
      pieces := [p] + rest;
    }
  }

  lemma GenFieldPiece(mode: Mode, st: State, env: map<Name, Lin>, here: nat, f: Field, p: Piece)
    requires Agrees(mode, st.syms, env) && st.pc + f.Shape().Size() <= |st.code|
    requires Linear(env, here, st.pc, f.Stored()) == Some(p.lin) && p.shape == f.Shape()
    ensures var r := GenField(mode, st, here, f);
            LaysDown(mode, st, r, [p]) && r.syms == st.syms && r.maxPc == Max(st.maxPc, r.pc)
  {
    EvalLinear(mode, st.syms, env, here, st.pc, f.Stored());
    hide Gen, Eval, Linear, FieldError, Rewrite, Places, Agrees;
    var v := StoredValue(mode, st.syms, here, st.pc, f);
    var st1 := st.(errors := st.errors || FieldError(mode, f, v));
    GenPiece(mode, st1, p);
  }

  /** Runs of pieces follow each other. */
  lemma {:induction false} LaysTogether(mode: Mode, st: State, mid: State, r: State, a: seq<Piece>, b: seq<Piece>)
    requires LaysDown(mode, st, mid, a) && LaysDown(mode, mid, r, b)
    ensures LaysDown(mode, st, r, a + b)
  {
    hide Rewrite, Places, Store, TotalSize;
    var n, m := TotalSize(a), TotalSize(b);
    SizeAppend(a, b);
    var was := st.code[st.pc..st.pc + n + m];
    RewriteAppend(mode, was, a, b);
    PlacesAppend(mode, was, a, b, st.pc);
    StoreTwice(st.code, st.pc, Rewrite(mode, st.code[st.pc..mid.pc], a), Rewrite(mode, mid.code[mid.pc..r.pc], b));
    Slices(st.code, st.pc, n, m);
  }

  lemma {:induction false} SizeAppend(a: seq<Piece>, b: seq<Piece>)
    ensures TotalSize(a + b) == TotalSize(a) + TotalSize(b)
    decreases |a|
  {
    if a == [] {
      assert a + b == b;
    } else {
      assert (a + b)[1..] == a[1..] + b;
      SizeAppend(a[1..], b);
    }
  }

  lemma {:induction false} RewriteAppend(mode: Mode, was: seq<Byte>, a: seq<Piece>, b: seq<Piece>)
    requires |was| == TotalSize(a) + TotalSize(b)
    ensures TotalSize(a + b) == |was|
    ensures Rewrite(mode, was, a + b) == Rewrite(mode, was[..TotalSize(a)], a) + Rewrite(mode, was[TotalSize(a)..], b)
    decreases |a|
  {
    hide Rewrite, Places;
    SizeAppend(a, b);
    if a == [] {
      assert a + b == b && was[0..] == was;
      NoPieces(mode, was[..0], 0);
    } else {
      var p, rest, n, t := a[0], a[1..], a[0].shape.Size(), TotalSize(a);
      assert a == [p] + rest && a + b == [p] + (rest + b);
      SizeCons(p, rest);
      SizeAppend(rest, b);
      hide TotalSize;
      RewriteAppend(mode, was[n..], rest, b);
      RewriteCons(mode, was, p, rest + b);
      RewriteCons(mode, was[..t], p, rest);
      Reslices(was, n, t);
      Joined(Written(mode, was[..n], p), Rewrite(mode, was[n..][..t - n], rest), Rewrite(mode, was[t..], b));
    }
  }

  lemma {:induction false} PlacesAppend(mode: Mode, was: seq<Byte>, a: seq<Piece>, b: seq<Piece>, at: nat)
    requires |was| == TotalSize(a) + TotalSize(b)
    ensures TotalSize(a + b) == |was|
    ensures Places(mode, was, a + b, at)
         == Places(mode, was[..TotalSize(a)], a, at) + Places(mode, was[TotalSize(a)..], b, at + TotalSize(a))
    decreases |a|
  {
    hide Places, PlaceOf, Shape.Size;
    SizeAppend(a, b);
    if a == [] {
      assert a + b == b && was[0..] == was;
      NoPieces(mode, was[..0], at);
    } else {
      var p, rest, n, t := a[0], a[1..], a[0].shape.Size(), TotalSize(a);
      assert a == [p] + rest && a + b == [p] + (rest + b);
      SizeCons(p, rest);
      SizeAppend(rest, b);
      PlacesAppend(mode, was[n..], rest, b, at + n);
      hide TotalSize;
      PlacesCons(mode, was, p, rest + b, at);
      PlacesCons(mode, was[..t], p, rest, at);
      Reslices(was, n, t);
      Joined(Places(mode, was[..n], [p], at), Places(mode, was[n..][..t - n], rest, at + n),
        Places(mode, was[t..], b, at + t));
    }
  }

  lemma Reslices(s: seq<Byte>, n: nat, t: nat)
    requires n <= t <= |s|
    ensures s[n..][t - n..] == s[t..] && s[n..][..t - n] == s[..t][n..] && s[..n] == s[..t][..n]
  {}

  lemma NoPieces(mode: Mode, was: seq<Byte>, at: nat)
    requires was == []
    ensures Rewrite(mode, was, []) == [] && Places(mode, was, [], at) == []
  {}

  /** putW of the opcode after the extension words: as if it had come first. */
  lemma PutWPiece(mode: Mode, st: State, mid: State, exts: seq<Piece>, opcode: nat)
    requires st.pc + 2 <= |st.code| && LaysDown(mode, st.(pc := st.pc + 2), mid, exts)
    ensures LaysDown(mode, st, PutW(mode, mid, st.pc, opcode), [Piece(WordShape, Lin(opcode, 0))] + exts)
  {
    hide Rewrite, Places, Store, Int32;
    var p := Piece(WordShape, Lin(opcode, 0));
    var n, m := 2, TotalSize(exts);
    SizeCons(p, exts);
    var was := st.code[st.pc..st.pc + n + m];
    RewriteCons(mode, was, p, exts);
    PlacesCons(mode, was, p, exts, st.pc);
    OnePiece(mode, was[..2], p, st.pc);
    Slices(st.code, st.pc, 2, m);
    var x, y := Written(mode, was[..2], p), Rewrite(mode, was[2..], exts);
    StoreTwice(st.code, st.pc, x, y);
    StoreBefore(st.code, st.pc, WordShape.Bytes(opcode), y);
    StoreBefore(st.code, st.pc, was[..2], y);
    StoreSame(st.code, st.pc, 2);
    WordOf(opcode);
  }

  lemma WordOf(opcode: nat)
    ensures WordShape.Bytes(Int32(opcode)) == WordShape.Bytes(opcode)
  {
    var k := Int32Off(opcode);
    var x := Int32(opcode);
    assert x == opcode + k * 0x1_0000_0000;
    AddMultiple(opcode, k * 0x100_0000, 256);
    DivUnique(x, 256, opcode / 256 + k * 0x100_0000, opcode % 256);
    AddMultiple(opcode / 256, k * 0x1_0000, 256);
  }

  lemma StoreBefore(code: seq<Byte>, at: nat, x: seq<Byte>, y: seq<Byte>)
    requires at + |x| + |y| <= |code|
    ensures Store(Store(code, at + |x|, y), at, x) == Store(Store(code, at, x), at + |x|, y)
  {}
}
