/** Adding an origin at the recorded places of a relocatable image gives the image assembled at
    that origin: exactly when, and for which programs always. */
module RelocationTheorem {
  import opened BitStacks
  import opened Powers
  import opened Sequences
  import opened Assembly
  import opened Relocation
  import opened RelocationPasses

  ghost predicate LinearProgram(lines: seq<Line>) {
    DefinedOnce(lines, {}) && Pieces(Labels(lines, 0), lines, 0).Some?
  }

  function PiecesOf(lines: seq<Line>): seq<Piece>
    requires LinearProgram(lines)
  {
    Pieces(Labels(lines, 0), lines, 0).value
  }

  const SECOND := Mode(true, 2, 0)
  const THIRD := Mode(true, 3, SHIFTED)

  // ---- The images that assembling gives.

  lemma AfterFirst(mode: Mode, lines: seq<Line>, buffer: seq<Byte>, junk: int)
    requires mode.pass == 1 && LinearProgram(lines) && Extent(lines) <= |buffer| < 0x8000_0000
    ensures var st := RunPass(mode, Initial(buffer), lines, junk);
            st.rel == [] && Agrees(Mode(mode.relocatable, 2, mode.org), st.syms, Labels(lines, 0))
  {
    FirstPass(mode, Initial(buffer), lines, junk, {});
  }

  /** A pass that stores code, as a rewrite of the start of the buffer. */
  lemma PassRewrites(mode: Mode, st: State, lines: seq<Line>, junk: int)
    requires StoringPass(mode) && LinearProgram(lines) && Extent(lines) <= |st.code| < 0x8000_0000
    requires Agrees(mode, st.syms, Labels(lines, 0)) && (mode.Third() ==> EquatesKnown(st.syms, lines))
    ensures var r, ps, n := RunPass(mode, st, lines, junk), PiecesOf(lines), Extent(lines);
            && TotalSize(ps) == n && r.maxPc == n && r.code[..n] == Rewrite(mode, st.code[..n], ps)
            && (!r.errors ==> r.rel == st.rel + Places(mode, st.code[..n], ps, 0))
            && EquatesKnown(r.syms, lines)
            && (mode == SECOND ==> Moved(r.syms, Labels(lines, 0)))
  {
    hide Rewrite, Places, Agrees, Labels, Pieces, RunLines;
    var ps := RunLinesPieces(mode, st.(pc := 0, maxPc := 0), Labels(lines, 0), lines, junk, map[], {});
    assert st.code[0..Extent(lines)] == st.code[..Extent(lines)];
  }

  lemma AbsoluteImage(lines: seq<Line>, buffer: seq<Byte>, org: int, junk: int) returns (was: seq<Byte>)
    requires LinearProgram(lines) && Extent(lines) <= |buffer| < 0x8000_0000
    requires AssembleAt(lines, buffer, org, junk).Image?
    ensures |was| == TotalSize(PiecesOf(lines))
    ensures AssembleAt(lines, buffer, org, junk).code == Rewrite(Mode(false, 2, org), was, PiecesOf(lines))
  {
    hide Rewrite, Places, Agrees, RunPass, LinearProgram, PiecesOf;
    AfterFirst(Mode(false, 1, org), lines, buffer, junk);
    var st1 := RunPass(Mode(false, 1, org), Initial(buffer), lines, junk);
    PassRewrites(Mode(false, 2, org), st1, lines, junk);
    was := st1.code[..Extent(lines)];
  }

  lemma RelocatableImage(lines: seq<Line>, buffer: seq<Byte>, junk: int) returns (was: seq<Byte>)
    requires LinearProgram(lines) && Extent(lines) <= |buffer| < 0x8000_0000
    requires AssembleRelocatable(lines, buffer, junk).Image?
    ensures |was| == TotalSize(PiecesOf(lines))
    ensures var out, ps := AssembleRelocatable(lines, buffer, junk), PiecesOf(lines);
            && out.code == Rewrite(THIRD, Rewrite(SECOND, was, ps), ps)
            && out.rel == Places(THIRD, Rewrite(SECOND, was, ps), ps, 0)
  {
    hide Rewrite, Places, RunPass, LinearProgram, PiecesOf, Labels;
    AfterFirst(Mode(true, 1, 0), lines, buffer, junk);
    var st1 := RunPass(Mode(true, 1, 0), Initial(buffer), lines, junk);
    PassRewrites(SECOND, st1, lines, junk);
    var st2 := RunPass(SECOND, st1, lines, junk);
    was := st1.code[..Extent(lines)];
    NothingRecorded(was, PiecesOf(lines), 0);
    PassRewrites(THIRD, st2, lines, junk);
  }

  lemma {:induction false} NothingRecorded(was: seq<Byte>, ps: seq<Piece>, at: nat)
    requires |was| == TotalSize(ps)
    ensures Places(SECOND, was, ps, at) == []
    decreases |ps|
  {
    if ps != [] {
      NothingRecorded(was[ps[0].shape.Size()..], ps[1..], at + ps[0].shape.Size());
    }
  }

  // ---- Patching an image.

  ghost predicate InImage(image: seq<Byte>, rel: seq<nat>) {
    forall i :: 0 <= i < |rel| ==> rel[i] + 4 <= |image|
  }

  /** `base` added to the long word at each place. */
  function Patched(image: seq<Byte>, rel: seq<nat>, base: int): (r: seq<Byte>)
    requires InImage(image, rel)
    ensures |r| == |image|
    decreases |rel|
  {
    if rel == [] then image else
    Patched(Store(image, rel[0], LongShape.Bytes(GetL(image, rel[0]) + base)), rel[1..], base)
  }

  /** The third pass moves the long word by what labels move. */
  predicate Recorded(p: Piece) {
    p.shape.LongShape? && Int32(p.lin.At(SHIFTED) - p.lin.At(0)) == SHIFTED
  }

  function RelocatedBytes(p: Piece, base: int): (r: seq<Byte>)
    ensures |r| == p.shape.Size()
  {
    if Recorded(p) then p.shape.Bytes(p.lin.At(0) + base) else p.shape.Bytes(p.lin.At(SHIFTED))
  }

  /** The piece relocated to `base` is the piece assembled there. */
  predicate Matches(p: Piece, base: int) {
    RelocatedBytes(p, base) == p.shape.Bytes(p.lin.At(base))
  }

  function RelocatedAll(ps: seq<Piece>, base: int): (r: seq<Byte>)
    ensures |r| == TotalSize(ps)
  {
    if ps == [] then [] else RelocatedBytes(ps[0], base) + RelocatedAll(ps[1..], base)
  }

  /** The recorded places, from the pieces alone. */
  function RecordedPlaces(ps: seq<Piece>, at: nat): seq<nat>
    decreases |ps|
  {
    if ps == [] then [] else
    (if Recorded(ps[0]) then [at] else []) + RecordedPlaces(ps[1..], at + ps[0].shape.Size())
  }

  lemma GetLBytes(a: int)
    ensures GetL(LongShape.Bytes(a), 0) == Int32(a)
  {
    var q1 := a / 256;
    var q2 := q1 / 256;
    var q3 := q2 / 256;
    var q4 := q3 / 256;
    assert a / 0x1_0000 == q2 && a / 0x100_0000 == q3;
    Int32Wraps(a, 0 - q4);
    hide Int32;
    assert a == q4 * 0x1_0000_0000 + q3 % 256 * 0x100_0000 + q2 % 256 * 0x1_0000 + q1 % 256 * 256 + a % 256;
  }

  lemma AtStays(lin: Lin, x: int)
    ensures Int32(lin.At(x)) == lin.At(x)
  {
    Int32Sum(lin.v + lin.c * x, 0);
  }

  /** What the last two passes leave of a piece. */
  lemma PieceTwice(p: Piece, was: seq<Byte>, at: nat)
    requires |was| == p.shape.Size()
    ensures var second := Written(SECOND, was, p);
            && Written(THIRD, second, p)
               == p.shape.Bytes(if Recorded(p) then p.lin.At(0) else p.lin.At(SHIFTED))
            && PlaceOf(THIRD, second, p, at) == (if Recorded(p) then [at] else [])
  {
    GetLBytes(p.lin.At(0));
    AtStays(p.lin, 0);
    hide Int32, GetL;
  }

  lemma {:induction false} PatchPieces(pre: seq<Byte>, was: seq<Byte>, ps: seq<Piece>, base: int)
    requires |was| == TotalSize(ps)
    ensures var second := Rewrite(SECOND, was, ps);
            var places := Places(THIRD, second, ps, |pre|);
            && places == RecordedPlaces(ps, |pre|)
            && InImage(pre + Rewrite(THIRD, second, ps), places)
            && Patched(pre + Rewrite(THIRD, second, ps), places, base) == pre + RelocatedAll(ps, base)
    decreases |ps|
  {
    hide Recorded, RelocatedBytes, Rewrite, Places, Patched, InImage, RecordedPlaces, RelocatedAll, TotalSize;
    hide Shape.Bytes, Shape.Size;
    if ps == [] {
      NothingSized();
      NoPieces(SECOND, was, |pre|);
      NoPieces(THIRD, was, |pre|);
      NothingToPatch(pre, base);
      assert pre + [] == pre;
    } else {
      var p, n, rest := ps[0], ps[0].shape.Size(), ps[1..];
      assert ps == [p] + rest;
      FirstAndRest(p, rest, |pre|, base);
      var done, tail := RelocatedBytes(p, base), Rewrite(THIRD, Rewrite(SECOND, was[n..], rest), rest);
      var third := TwoPasses(p, rest, was, |pre|);
      PatchPieces(pre + done, was[n..], rest, base);
      PatchFirst(pre, third, tail, p, RecordedPlaces(rest, |pre| + n), base);
      Joined(pre, done, RelocatedAll(rest, base));
      Joined(pre, third, tail);
    }
  }

  lemma FirstAndRest(p: Piece, rest: seq<Piece>, at: nat, base: int)
    ensures TotalSize([p] + rest) == p.shape.Size() + TotalSize(rest)
    ensures RecordedPlaces([p] + rest, at)
            == (if Recorded(p) then [at] else []) + RecordedPlaces(rest, at + p.shape.Size())
    ensures RelocatedAll([p] + rest, base) == RelocatedBytes(p, base) + RelocatedAll(rest, base)
  {
    hide Recorded, RelocatedBytes;
    assert ([p] + rest)[1..] == rest;
  }

  lemma NothingToPatch(image: seq<Byte>, base: int)
    ensures InImage(image, []) && RecordedPlaces([], |image|) == [] && RelocatedAll([], base) == []
    ensures Patched(image, [], base) == image
  {}

  /** The last two passes over the first piece and the others. */
  lemma TwoPasses(p: Piece, rest: seq<Piece>, was: seq<Byte>, at: nat) returns (third: seq<Byte>)
    requires |was| == p.shape.Size() + TotalSize(rest)
    ensures TotalSize([p] + rest) == |was|
    ensures third == if Recorded(p) then p.shape.Bytes(p.lin.At(0)) else p.shape.Bytes(p.lin.At(SHIFTED))
    ensures var n, ps := p.shape.Size(), [p] + rest;
            var later := Rewrite(SECOND, was[n..], rest);
            && Rewrite(THIRD, Rewrite(SECOND, was, ps), ps) == third + Rewrite(THIRD, later, rest)
            && Places(THIRD, Rewrite(SECOND, was, ps), ps, at)
               == (if Recorded(p) then [at] else []) + Places(THIRD, later, rest, at + n)
  {
    hide Rewrite, Places, Recorded, Written, PlaceOf, Shape.Bytes;
    var n := p.shape.Size();
    SizeCons(p, rest);
    RewriteCons(SECOND, was, p, rest);
    OnePiece(SECOND, was[..n], p, at);
    var second, later := Written(SECOND, was[..n], p), Rewrite(SECOND, was[n..], rest);
    assert (second + later)[..n] == second && (second + later)[n..] == later;
    RewriteCons(THIRD, second + later, p, rest);
    PlacesCons(THIRD, second + later, p, rest, at);
    OnePiece(THIRD, second, p, at);
    PieceTwice(p, was[..n], at);
    third := Written(THIRD, second, p);
  }

  /** The first piece of an image is patched, if it is recorded, before the others. */
  lemma PatchFirst(pre: seq<Byte>, third: seq<Byte>, tail: seq<Byte>, p: Piece, places: seq<nat>, base: int)
    requires third == if Recorded(p) then p.shape.Bytes(p.lin.At(0)) else p.shape.Bytes(p.lin.At(SHIFTED))
    requires var done := RelocatedBytes(p, base); InImage(pre + done + tail, places)
    ensures var all := (if Recorded(p) then [|pre|] else []) + places;
            && InImage(pre + third + tail, all)
            && Patched(pre + third + tail, all, base) == Patched(pre + RelocatedBytes(p, base) + tail, places, base)
  {
    hide Int32, GetL, Shape.Bytes;
    var image, done := pre + third + tail, RelocatedBytes(p, base);
    if Recorded(p) {
      var all := [|pre|] + places;
      assert all[1..] == places;
      GetLBytes(p.lin.At(0));
      AtStays(p.lin, 0);
      assert image[|pre|..|pre| + 4] == third;
      GetLSlice(image, |pre|);
      assert Store(image, |pre|, done) == pre + done + tail;
    } else {
      assert [] + places == places;
    }
  }

  /** Absolute code does not depend on what the buffer held. */
  lemma {:induction false} AbsolutePieces(was: seq<Byte>, ps: seq<Piece>, org: int)
    requires |was| == TotalSize(ps)
    ensures Rewrite(Mode(false, 2, org), was, ps) == RelocatedAll(ps, org) <==> forall p <- ps :: Matches(p, org)
    decreases |ps|
  {
    hide RelocatedBytes, Int32, Shape.Bytes;
    if ps != [] {
      var p, n, rest := ps[0], ps[0].shape.Size(), ps[1..];
      AbsolutePieces(was[n..], rest, org);
      var a, b := p.shape.Bytes(p.lin.At(org)), Rewrite(Mode(false, 2, org), was[n..], rest);
      assert Written(Mode(false, 2, org), was[..n], p) == a;
      SameHalves(a, b, RelocatedBytes(p, org), RelocatedAll(rest, org));
      assert ps == [p] + rest;
      AllMatch(p, rest, org);
    }
  }

  lemma AllMatch(p: Piece, rest: seq<Piece>, base: int)
    ensures (forall q <- [p] + rest :: Matches(q, base)) <==> Matches(p, base) && forall q <- rest :: Matches(q, base)
  {
    hide Matches;
    assert p in [p] + rest;
    assert forall q <- rest :: q in [p] + rest;
  }

  lemma SameHalves(a: seq<Byte>, b: seq<Byte>, c: seq<Byte>, d: seq<Byte>)
    requires |a| == |c|
    ensures a + b == c + d <==> a == c && b == d
  {
    assert (a + b)[..|a|] == a && (a + b)[|a|..] == b && (c + d)[..|a|] == c && (c + d)[|a|..] == d;
  }

  // ---- When it works.

  /** The image with `base` added at the recorded places is the one assembled at `base` exactly
      when every piece matches; and the table holds the long words that the passes moved alike. */
  lemma RelocationExact(lines: seq<Line>, buffer: seq<Byte>, junk: int, base: int, buffer': seq<Byte>, junk': int)
    requires LinearProgram(lines) && Extent(lines) <= |buffer| < 0x8000_0000 && Extent(lines) <= |buffer'| < 0x8000_0000
    requires AssembleRelocatable(lines, buffer, junk).Image? && AssembleAt(lines, buffer', base, junk').Image?
    ensures var out := AssembleRelocatable(lines, buffer, junk);
            && out.rel == RecordedPlaces(PiecesOf(lines), 0) && InImage(out.code, out.rel)
            && (Patched(out.code, out.rel, base) == AssembleAt(lines, buffer', base, junk').code
                <==> forall p <- PiecesOf(lines) :: Matches(p, base))
  {
    hide LinearProgram, PiecesOf, AssembleAt, AssembleRelocatable, Rewrite, Places, Matches, RelocatedAll, Patched;
    var was := RelocatableImage(lines, buffer, junk);
    var was' := AbsoluteImage(lines, buffer', base, junk');
    var ps := PiecesOf(lines);
    PatchPieces([], was, ps, base);
    AbsolutePieces(was', ps, base);
    var image := Rewrite(THIRD, Rewrite(SECOND, was, ps), ps);
    assert [] + image == image && [] + RelocatedAll(ps, base) == RelocatedAll(ps, base);
  }

  // ---- Which pieces are right at every origin.

  /** A long word is recorded exactly when its labels count once, modulo 2^29: the amount that
      labels move by is eight times an odd number. */
  lemma RecordedExactly(p: Piece)
    ensures Recorded(p) <==> p.shape.LongShape? && (p.lin.c - 1) % 0x2000_0000 == 0
  {
    var v, c := p.lin.v, p.lin.c;
    Int32Sum(v + c * SHIFTED, v);
    assert v + c * SHIFTED - v == c * SHIFTED && p.lin.At(0) == Int32(v);
    Int32Same(c * SHIFTED, SHIFTED);
    SmallStays(SHIFTED);
    OddPart(c - 1);
    hide Int32;
  }

  lemma Int32Same(x: int, y: int)
    ensures Int32(x) == Int32(y) <==> (x - y) % 0x1_0000_0000 == 0
  {
    var k := Int32Off(x);
    var j := Int32Off(y);
    hide Int32;
    if Int32(x) == Int32(y) {
      assert x - y == (j - k) * 0x1_0000_0000;
    }
    if (x - y) % 0x1_0000_0000 == 0 {
      var q := (x - y) / 0x1_0000_0000;
      assert x == y + q * 0x1_0000_0000;
      Int32Wraps(y, q);
    }
  }

  const INVERSE := 473709615
  const INVERSE_QUOTIENT := 33686017

  /** 0x12345678 is 8 * 0x2468ACF, and 0x2468ACF has an inverse modulo 2^29. */
  lemma OddPart(d: int)
    ensures d * SHIFTED % 0x1_0000_0000 == 0 <==> d % 0x2000_0000 == 0
  {
    if d % 0x2000_0000 == 0 {
      var q := d / 0x2000_0000;
      assert d * SHIFTED == q * 0x2468ACF * 0x1_0000_0000;
    }
    if d * SHIFTED % 0x1_0000_0000 == 0 {
      var q := d * SHIFTED / 0x1_0000_0000;
      assert d * 0x2468ACF == q * 0x2000_0000;
      assert d * 0x2468ACF * INVERSE == q * INVERSE * 0x2000_0000;
      assert 0x2468ACF * INVERSE == INVERSE_QUOTIENT * 0x2000_0000 + 1;
      assert d == (q * INVERSE - d * INVERSE_QUOTIENT) * 0x2000_0000;
    }
  }

  /** What the bytes of a shape leave of a value. */
  function Modulus(shape: Shape): nat {
    match shape
    case ByteShape => 0x100
    case WordShape => 0x1_0000
    case LowShape(_) => 0x100
    case TriShape => 0x100_0000
    case LongShape => 0x1_0000_0000
  }

  /** The coefficient is 0 or, in a long word, 1, as far as the shape can tell. */
  predicate Movable(p: Piece) {
    p.lin.c % Modulus(p.shape) == 0 || (p.shape.LongShape? && p.lin.c % 0x1_0000_0000 == 1)
  }

  lemma BytesSame(shape: Shape, a: int, b: int)
    ensures shape.Bytes(a) == shape.Bytes(b) <==> (a - b) % Modulus(shape) == 0
  {
    SameModulo(a, b, Modulus(shape));
    match shape {
      case ByteShape =>
      case LowShape(base) =>
        LowTail(a % 256, b % 256, base);
      case WordShape =>
        TailWord(a, b);
      case TriShape =>
        TailWord(a, b);
        TailMore(a, b, 0x1_0000);
      case LongShape =>
        TailWord(a, b);
        TailMore(a, b, 0x1_0000);
        TailMore(a, b, 0x100_0000);
    }
  }

  lemma LowTail(x: int, y: int, base: nat)
    requires 0 <= x < 256 && 0 <= y < 256
    ensures (x + base) / 256 % 256 == (y + base) / 256 % 256 && (x + base) % 256 == (y + base) % 256 <==> x == y
  {
    TailMore(x + base, y + base, 256);
  }

  lemma TailWord(a: int, b: int)
    ensures a / 256 % 256 == b / 256 % 256 && a % 256 == b % 256 <==> a % 0x1_0000 == b % 0x1_0000
  {
    TailMore(a, b, 256);
  }

  /** One byte more of two numbers. */
  lemma TailMore(a: int, b: int, top: int)
    requires top in {256, 0x1_0000, 0x100_0000}
    ensures a / top % 256 == b / top % 256 && a % top == b % top <==> a % (256 * top) == b % (256 * top)
  {
    LowAndNext(a, top);
    LowAndNext(b, top);
  }

  lemma LowAndNext(a: int, top: int)
    requires top in {256, 0x1_0000, 0x100_0000}
    ensures a % (256 * top) == a / top % 256 * top + a % top
  {
    var q, r := a / top, a % top;
    var h, s := q / 256, q % 256;
    if top == 256 {
      DivUnique(a, 0x1_0000, h, s * 256 + r);
    } else if top == 0x1_0000 {
      DivUnique(a, 0x100_0000, h, s * 0x1_0000 + r);
    } else {
      DivUnique(a, 0x1_0000_0000, h, s * 0x100_0000 + r);
    }
  }

  lemma SameModulo(a: int, b: int, m: int)
    requires m > 0
    ensures a % m == b % m <==> (a - b) % m == 0
  {
    var q, r, q', r' := a / m, a % m, b / m, b % m;
    assert a == q * m + r && b == q' * m + r';
    assert (q - q') * m == q * m - q' * m;
    if r >= r' {
      DivUnique(a - b, m, q - q', r - r');
    } else {
      assert (q - q' - 1) * m == (q - q') * m - m;
      DivUnique(a - b, m, q - q' - 1, r - r' + m);
    }
  }

  /** Values that differ by `d` before they wrap have the same bytes when `d` is a multiple. */
  lemma LinSame(shape: Shape, x: int, y: int)
    ensures shape.Bytes(Int32(x)) == shape.Bytes(Int32(y)) <==> (x - y) % Modulus(shape) == 0
    ensures shape.Bytes(Int32(x) + y) == shape.Bytes(Int32(x + y))
  {
    var k := Int32Off(x);
    var j := Int32Off(y);
    var i := Int32Off(x + y);
    hide Int32, Shape.Bytes;
    BytesSame(shape, Int32(x), Int32(y));
    BytesSame(shape, Int32(x) + y, Int32(x + y));
    WholeTurns(x - y, k - j, shape);
    WholeTurns(0, k - i, shape);
  }

  lemma WholeTurns(x: int, k: int, shape: Shape)
    ensures (x + k * 0x1_0000_0000) % Modulus(shape) == x % Modulus(shape)
  {
    AddMultiple(x, k * 0x100_0000, 0x100);
    AddMultiple(x, k * 0x1_0000, 0x1_0000);
    AddMultiple(x, k * 0x100, 0x100_0000);
    AddMultiple(x, k, 0x1_0000_0000);
  }

  /** A piece whose coefficient is good is right at every origin; and one that is right at 0 and at
      1 has a good coefficient. */
  lemma MatchesAlways(p: Piece, base: int)
    requires Movable(p)
    ensures Matches(p, base)
  {
    RecordedExactly(p);
    hide Int32, Shape.Bytes, Recorded;
    if Recorded(p) {
      RecordedMatches(p, base);
    } else {
      FixedMatches(p, base);
    }
  }

  lemma RecordedMatches(p: Piece, base: int)
    requires Recorded(p) && p.lin.c % 0x1_0000_0000 == 1
    ensures Matches(p, base)
  {
    hide Int32, Shape.Bytes;
    CoefficientOne(p.lin.c, base);
    LinSame(p.shape, p.lin.v, base);
    LinSame(p.shape, p.lin.v + base, p.lin.v + p.lin.c * base);
  }

  lemma CoefficientOne(c: int, base: int)
    requires c % 0x1_0000_0000 == 1
    ensures (base - c * base) % 0x1_0000_0000 == 0
  {
    var q := c / 0x1_0000_0000;
    assert c == q * 0x1_0000_0000 + 1;
    Distribute(q * 0x1_0000_0000, 1, 0, base);
    assert base - c * base == (0 - q * base) * 0x1_0000_0000;
  }

  lemma FixedMatches(p: Piece, base: int)
    requires !Recorded(p) && p.lin.c % Modulus(p.shape) == 0
    ensures Matches(p, base)
  {
    hide Int32, Shape.Bytes, Recorded;
    var v, c := p.lin.v, p.lin.c;
    LinSame(p.shape, v + c * SHIFTED, v + c * base);
    Multiple(c, SHIFTED - base, Modulus(p.shape));
    assert v + c * SHIFTED - (v + c * base) == c * (SHIFTED - base);
  }

  lemma Multiple(c: int, x: int, m: int)
    requires m > 0 && c % m == 0
    ensures c * x % m == 0 && (0 - c * x) % m == 0
  {
    var q := c / m;
    assert c * x == (q * x) * m;
    DivUnique(c * x, m, q * x, 0);
    DivUnique(0 - c * x, m, 0 - q * x, 0);
  }

  lemma MatchesNeeds(p: Piece)
    requires Matches(p, 0) && Matches(p, 1)
    ensures Movable(p)
  {
    var v, c := p.lin.v, p.lin.c;
    hide Int32, Shape.Bytes;
    if Recorded(p) {
      LinSame(p.shape, v, 1);
      LinSame(p.shape, v + 1, v + c);
      assert (1 - c) % 0x1_0000_0000 == 0;
    } else {
      LinSame(p.shape, v + c * SHIFTED, v);
      LinSame(p.shape, v + c * SHIFTED, v + c);
      assert c * SHIFTED % Modulus(p.shape) == 0 && (c * SHIFTED - c) % Modulus(p.shape) == 0;
      SameModulo(c * SHIFTED, c, Modulus(p.shape));
    }
  }

  /** Adding `base` at the recorded places gives `image`. */
  ghost predicate RelocatesTo(out: Output, base: int, image: seq<Byte>)
    requires out.Image?
  {
    InImage(out.code, out.rel) && Patched(out.code, out.rel, base) == image
  }

  /** A program whose long words count their labels once or not at all, and whose other fields do
      not count them, is relocated correctly to every origin. */
  lemma RelocationPreserves(lines: seq<Line>, buffer: seq<Byte>, junk: int, base: int, buffer': seq<Byte>, junk': int)
    requires LinearProgram(lines) && Extent(lines) <= |buffer| < 0x8000_0000 && Extent(lines) <= |buffer'| < 0x8000_0000
    requires AssembleRelocatable(lines, buffer, junk).Image? && AssembleAt(lines, buffer', base, junk').Image?
    requires forall p <- PiecesOf(lines) :: Movable(p)
    ensures RelocatesTo(AssembleRelocatable(lines, buffer, junk), base, AssembleAt(lines, buffer', base, junk').code)
  {
    hide LinearProgram, PiecesOf, AssembleAt, AssembleRelocatable, Matches, Movable, Patched;
    RelocationExact(lines, buffer, junk, base, buffer', junk');
    forall p <- PiecesOf(lines) ensures Matches(p, base) {
      MatchesAlways(p, base);
    }
  }

  /** Any other program goes wrong at 0 or at 1, if it assembles there. */
  lemma RelocationNeeds(lines: seq<Line>, buffer: seq<Byte>, junk: int, buffer': seq<Byte>, junk': int)
    requires LinearProgram(lines) && Extent(lines) <= |buffer| < 0x8000_0000 && Extent(lines) <= |buffer'| < 0x8000_0000
    requires AssembleRelocatable(lines, buffer, junk).Image?
    requires AssembleAt(lines, buffer', 0, junk').Image? && AssembleAt(lines, buffer', 1, junk').Image?
    requires RelocatesTo(AssembleRelocatable(lines, buffer, junk), 0, AssembleAt(lines, buffer', 0, junk').code)
    requires RelocatesTo(AssembleRelocatable(lines, buffer, junk), 1, AssembleAt(lines, buffer', 1, junk').code)
    ensures forall p <- PiecesOf(lines) :: Movable(p)
  {
    hide LinearProgram, PiecesOf, AssembleAt, AssembleRelocatable, Matches, Movable, Patched;
    RelocationExact(lines, buffer, junk, 0, buffer', junk');
    RelocationExact(lines, buffer, junk, 1, buffer', junk');
    forall p <- PiecesOf(lines) ensures Movable(p) {
      MatchesNeeds(p);
    }
  }
}
