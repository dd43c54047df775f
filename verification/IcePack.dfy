/** What the ICE! packer chooses to copy (ice_crunch, unice68/unice68_pack.c:197-496): the longest
    codable match in a window, against a run of one repeated byte; and what follows from it. */
module IcePack {
  import opened BitStacks
  import opened IceFormat

  const OPTIMIZE := 0x1580

  /** How many of the first `n` bytes at `a` and at `b` agree. */
  function CommonLen(src: seq<Byte>, a: nat, b: nat, n: nat): (k: nat)
    requires a + n <= |src| && b + n <= |src|
    ensures k <= n
    decreases n
  {
    if n == 0 || src[a] != src[b] then 0 else 1 + CommonLen(src, a + 1, b + 1, n - 1)
  }

  lemma {:induction false} CommonLenMaximal(src: seq<Byte>, a: nat, b: nat, n: nat)
    requires a + n <= |src| && b + n <= |src|
    ensures var k := CommonLen(src, a, b, n);
            SameBytes(src, a, b, k) && (k < n ==> src[a + k] != src[b + k])
    decreases n
  {
    if n > 0 && src[a] == src[b] {
      CommonLenMaximal(src, a + 1, b + 1, n - 1);
    }
  }

  /** The length is the only one with these two properties. */
  lemma {:induction false} CommonLenIs(src: seq<Byte>, a: nat, b: nat, n: nat, k: nat)
    requires a + n <= |src| && b + n <= |src| && k <= n
    requires SameBytes(src, a, b, k) && (k < n ==> src[a + k] != src[b + k])
    ensures CommonLen(src, a, b, n) == k
    decreases n
  {
    if n > 0 {
      assert k > 0 ==> src[a] == src[a + b - a];
      if src[a] == src[b] {
        assert k > 0;
        CommonLenIs(src, a + 1, b + 1, n - 1, k - 1);
      }
    }
  }

  lemma {:induction false} CommonLenCap(src: seq<Byte>, a: nat, b: nat, n: nat, k: nat)
    requires a + n <= |src| && b + n <= |src|
    ensures CommonLen(src, a, b, Min(k, n)) == Min(k, CommonLen(src, a, b, n))
    decreases n
  {
    if n > 0 && k > 0 && src[a] == src[b] {
      CommonLenCap(src, a + 1, b + 1, n - 1, k - 1);
    }
  }

  function Min(a: int, b: int): int {
    if a <= b then a else b
  }

  /** The packer works on at least three remaining bytes. */
  predicate InSource(src: seq<Byte>, a0: nat) {
    a0 + 3 <= |src|
  }

  /** How far the bytes at `a0` repeat the byte before each of them (maxgleich). */
  function RunLen(src: seq<Byte>, a0: nat): nat
    requires InSource(src, a0)
  {
    CommonLen(src, a0, a0 + 1, Min(a0 + MAX_LEN, |src|) - a0 - 2)
  }

  /** The end of the window that is searched for matches. */
  function SearchEnd(src: seq<Byte>, a0: nat): nat {
    Min(a0 + OPTIMIZE, |src|)
  }

  /** The match of `a0` at `c`: not overlapping itself, below the end of the window, codable. */
  function MatchLen(src: seq<Byte>, a0: nat, c: nat): nat
    requires InSource(src, a0) && a0 + 2 <= c < SearchEnd(src, a0)
  {
    CommonLen(src, a0, c, Min(MAX_LEN, Min(c - a0, SearchEnd(src, a0) - c - 1)))
  }

  datatype Match = Match(len: nat, off: nat)

  const NO_MATCH := Match(1, 0)

  function MatchAt(src: seq<Byte>, a0: nat, c: nat): Match
    requires InSource(src, a0) && a0 + 2 <= c < SearchEnd(src, a0)
  {
    Match(MatchLen(src, a0, c), c - a0 - MatchLen(src, a0, c) + 1)
  }

  /** A match replaces the best so far when it is longer and its offset can be coded; short ones
      are taken whatever their offset. */
  predicate Improves(best: Match, m: Match) {
    m.len > best.len && (m.len <= 2 || m.off <= MAX_OFF)
  }

  /** The best match among the candidates below `c`. */
  function BestUpTo(src: seq<Byte>, a0: nat, c: nat): Match
    requires InSource(src, a0) && a0 + 2 <= c <= SearchEnd(src, a0)
    decreases c
  {
    if c == a0 + 2 then NO_MATCH else
    var best, m := BestUpTo(src, a0, c - 1), MatchAt(src, a0, c - 1);
    if Improves(best, m) then m else best
  }

  /** What is stored at `a0`: a copy, or a literal (length 1). */
  function Choose(src: seq<Byte>, a0: nat): Match
    requires InSource(src, a0)
  {
    var run, best := RunLen(src, a0), BestUpTo(src, a0, SearchEnd(src, a0));
    var m := if run > 1 && run >= best.len then Match(run, 0) else best;
    if m.len == 2 && m.off > MAX_OFF2 then NO_MATCH else m
  }

  /** The segments from `a0` on when `d5` literals are pending. */
  function SegmentsFrom(src: seq<Byte>, a0: nat, d5: nat): seq<Segment>
    requires a0 <= |src|
    decreases |src| - a0
  {
    if !InSource(src, a0) then [] else
    var m := Choose(src, a0);
    ChooseSound(src, a0, d5);
    if m.len == 1 then SegmentsFrom(src, a0 + 1, d5 + 1)
    else [Segment(d5, m.len, m.off)] + SegmentsFrom(src, a0 + m.len, 0)
  }

  function Segments(src: seq<Byte>): seq<Segment> {
    SegmentsFrom(src, 0, 0)
  }

  // ---- The choice is sound, and the best there is.

  lemma BestNext(src: seq<Byte>, a0: nat, c: nat)
    requires InSource(src, a0) && a0 + 2 <= c < SearchEnd(src, a0)
    ensures var best, m := BestUpTo(src, a0, c), MatchAt(src, a0, c);
            BestUpTo(src, a0, c + 1) == if Improves(best, m) then m else best
  {
    hide CommonLen;
  }

  lemma {:induction false} BestSound(src: seq<Byte>, a0: nat, c: nat)
    requires InSource(src, a0) && a0 + 2 <= c <= SearchEnd(src, a0)
    ensures var m := BestUpTo(src, a0, c);
            && 1 <= m.len <= MAX_LEN
            && (m.len > 1 ==>
                 && (m.len > 2 ==> m.off <= MAX_OFF)
                 && m.off >= 1
                 && a0 + m.len + (m.len + m.off - 1) < |src|
                 && SameBytes(src, a0, a0 + (m.len + m.off - 1), m.len))
    decreases c
  {
    hide CommonLen, SameBytes;
    if c > a0 + 2 {
      BestSound(src, a0, c - 1);
      var b := c - 1;
      CommonLenMaximal(src, a0, b, Min(MAX_LEN, Min(b - a0, SearchEnd(src, a0) - b - 1)));
    }
  }

  /** Every copy chosen is codable, repeats bytes wholly above it, and leaves at least one byte
      of the source after it. */
  lemma ChooseSound(src: seq<Byte>, a0: nat, d5: nat)
    requires InSource(src, a0)
    ensures var m := Choose(src, a0);
            && m.len >= 1
            && (m.len > 1 ==>
                 && Segment(d5, m.len, m.off).Codable()
                 && CopySound(src, a0, Segment(d5, m.len, m.off))
                 && a0 + m.len < |src|)
  {
    BestSound(src, a0, SearchEnd(src, a0));
    CommonLenMaximal(src, a0, a0 + 1, Min(a0 + MAX_LEN, |src|) - a0 - 2);
  }

  /** No match in the window that could replace it is longer than the one chosen; and among those
      of its length it is the nearest. */
  lemma {:induction false} BestLongest(src: seq<Byte>, a0: nat, c: nat, b: nat)
    requires InSource(src, a0) && a0 + 2 <= b < c <= SearchEnd(src, a0)
    ensures var m, best := MatchAt(src, a0, b), BestUpTo(src, a0, c);
            && !Improves(best, m)
            && (m.len == best.len > 1 && (m.len == 2 || m.off <= MAX_OFF) ==> best.off <= m.off)
    decreases c
  {
    if b < c - 1 {
      BestLongest(src, a0, c - 1, b);
    }
    BestEarlier(src, a0, c, b);
  }

  /** The best match comes from one of the candidates. */
  lemma {:induction false} BestEarlier(src: seq<Byte>, a0: nat, c: nat, b: nat)
    requires InSource(src, a0) && a0 + 2 <= b < c <= SearchEnd(src, a0)
    ensures BestUpTo(src, a0, b).len <= BestUpTo(src, a0, c).len
    ensures BestUpTo(src, a0, c).len > 1 ==> BestUpTo(src, a0, c).off <= c - a0 - BestUpTo(src, a0, c).len
    decreases c
  {
    if b < c - 1 {
      BestEarlier(src, a0, c - 1, b);
    } else if b > a0 + 2 {
      BestEarlier(src, a0, b, b - 1);
    }
  }

  /** Where one of the first two bytes differs, or the second lies past the source, there is no
      match of two and the best stays. */
  lemma MatchShort(src: seq<Byte>, a0: nat, c: nat)
    requires InSource(src, a0) && a0 + 2 <= c < SearchEnd(src, a0)
    requires src[c] != src[a0] || (c + 1 < |src| ==> src[c + 1] != src[a0 + 1])
    ensures BestUpTo(src, a0, c + 1) == BestUpTo(src, a0, c)
  {
    BestSound(src, a0, c);
    MatchShortLen(src, a0, c);
  }

  lemma FirstTwo(src: seq<Byte>, a: nat, b: nat, n: nat)
    requires a + n <= |src| && b + n <= |src| && SameBytes(src, a, b, n)
    ensures n > 0 ==> src[a] == src[b]
    ensures n > 1 ==> src[a + 1] == src[b + 1]
  {
    assert n > 0 ==> src[a] == src[a + b - a];
    assert n > 1 ==> src[a + 1] == src[a + 1 + b - a];
  }

  lemma MatchShortLen(src: seq<Byte>, a0: nat, c: nat)
    requires InSource(src, a0) && a0 + 2 <= c < SearchEnd(src, a0)
    requires src[c] != src[a0] || (c + 1 < |src| ==> src[c + 1] != src[a0 + 1])
    ensures MatchLen(src, a0, c) <= 1
  {
    var n := Min(MAX_LEN, Min(c - a0, SearchEnd(src, a0) - c - 1));
    CommonLenMaximal(src, a0, c, n);
    FirstTwo(src, a0, c, MatchLen(src, a0, c));
  }

  /** Once the longest possible match is found the rest of the window does not matter. */
  lemma {:induction false} BestSettled(src: seq<Byte>, a0: nat, c: nat, c': nat)
    requires InSource(src, a0) && a0 + 2 <= c <= c' <= SearchEnd(src, a0)
    requires BestUpTo(src, a0, c).len == MAX_LEN
    ensures BestUpTo(src, a0, c') == BestUpTo(src, a0, c)
    decreases c'
  {
    if c < c' {
      BestSettled(src, a0, c, c' - 1);
    }
  }

  // ---- What is chosen, said of the bytes alone.

  /** The `n` bytes at `a0` come again at `c`: inside the window, beyond themselves, before the last
      byte, and near enough for an offset code. */
  ghost predicate Repeats(src: seq<Byte>, a0: nat, c: nat, n: nat) {
    && 2 <= n <= 0x409 && a0 + n <= c && c + n < |src| && c + n < a0 + 0x1580
    && c - a0 - n + 1 <= (if n == 2 then 0x23f else 0x111f)
    && SameBytes(src, a0, c, n)
  }

  /** The `n` bytes at `a0` and the one behind them are all the same. */
  ghost predicate RepeatsByte(src: seq<Byte>, a0: nat, n: nat) {
    && 2 <= n <= 0x407 && a0 + n + 1 < |src|
    && forall i :: a0 <= i <= a0 + n ==> src[i] == src[a0]
  }

  /** `m` is a longest of all copies that could be stored at `a0`: among those of its length a run of
      one byte comes first, and then the nearest; a literal, of length 1, is stored if there is none. */
  ghost predicate IsChoice(src: seq<Byte>, a0: nat, m: Match) {
    && m.len >= 1 && (m.len == 1 ==> m.off == 0)
    && (m.len > 1 ==>
          if m.off == 0 then RepeatsByte(src, a0, m.len) else Repeats(src, a0, a0 + m.len + m.off - 1, m.len))
    && (forall c: nat, n: nat :: Repeats(src, a0, c, n) ==>
          m.len >= n && (m.len == n && m.off > 0 ==> m.off <= c - a0 - n + 1))
    && (forall n: nat :: RepeatsByte(src, a0, n) ==> m.len >= n && (m.len == n ==> m.off == 0))
  }

  lemma ChoiceUnique(src: seq<Byte>, a0: nat, m: Match, m': Match)
    requires IsChoice(src, a0, m) && IsChoice(src, a0, m')
    ensures m == m'
  {
    hide Repeats, RepeatsByte;
  }

  lemma RunIs(src: seq<Byte>, a0: nat, n: nat)
    requires InSource(src, a0)
    ensures RepeatsByte(src, a0, n) <==> 2 <= n <= RunLen(src, a0)
  {
    hide CommonLen;
    var top := Min(a0 + MAX_LEN, |src|) - a0 - 2;
    var k := CommonLen(src, a0, a0 + 1, top);
    CommonLenMaximal(src, a0, a0 + 1, top);
    SameAsFirst(src, a0, k);
    if RepeatsByte(src, a0, n) && k < n {
      assert src[a0 + k] == src[a0] == src[a0 + k + 1];
    }
  }

  lemma {:induction false} SameAsFirst(src: seq<Byte>, a0: nat, k: nat)
    requires a0 + k + 1 <= |src| && SameBytes(src, a0, a0 + 1, k)
    ensures forall i :: a0 <= i <= a0 + k ==> src[i] == src[a0]
    decreases k
  {
    if k > 0 {
      SameAsFirst(src, a0, k - 1);
      assert src[a0 + k - 1] == src[a0 + k - 1 + (a0 + 1) - a0];
    }
  }

  /** A string that comes again at `c` is no longer than the match there, whose offset is no larger. */
  lemma RepeatsFits(src: seq<Byte>, a0: nat, c: nat, n: nat)
    requires InSource(src, a0) && Repeats(src, a0, c, n)
    ensures a0 + 2 <= c < SearchEnd(src, a0)
    ensures var m := MatchAt(src, a0, c);
            && 2 <= n <= m.len <= MAX_LEN && m.off + m.len == c - a0 + 1
            && (m.len > 2 ==> m.off <= MAX_OFF) && (m.len == 2 ==> m.off <= MAX_OFF2)
  {
    hide CommonLen;
    var top := Min(MAX_LEN, Min(c - a0, SearchEnd(src, a0) - c - 1));
    var k := CommonLen(src, a0, c, top);
    assert k < n ==> src[a0 + k] == src[a0 + k + c - a0];
    CommonLenMaximal(src, a0, c, top);
  }

  /** The best match is one of the strings that come again, unless it is one of two bytes that is too
      far away. */
  lemma {:induction false} BestRepeats(src: seq<Byte>, a0: nat, c: nat)
    requires InSource(src, a0) && a0 + 2 <= c <= SearchEnd(src, a0)
    ensures var m := BestUpTo(src, a0, c);
            && (m.len > 1 ==> a0 + m.len + (m.len + m.off - 1) < SearchEnd(src, a0) && m.off > 0)
            && (m.len <= 1 ==> m == NO_MATCH)
    decreases c
  {
    hide CommonLen;
    if c > a0 + 2 {
      BestRepeats(src, a0, c - 1);
    }
  }

  /** The choice is the longest copy possible. */
  lemma ChooseIs(src: seq<Byte>, a0: nat)
    requires InSource(src, a0)
    ensures IsChoice(src, a0, Choose(src, a0))
  {
    hide CommonLen, RunLen, BestUpTo, Repeats, RepeatsByte, SameBytes;
    var m, end := Choose(src, a0), SearchEnd(src, a0);
    ChooseCopies(src, a0);
    forall c: nat, n: nat | Repeats(src, a0, c, n)
      ensures m.len >= n && (m.len == n && m.off > 0 ==> m.off <= c - a0 - n + 1)
    {
      ChooseBeats(src, a0, c, n);
    }
    forall n: nat | RepeatsByte(src, a0, n)
      ensures m.len >= n && (m.len == n ==> m.off == 0)
    {
      RunIs(src, a0, n);
      BestRepeats(src, a0, end);
    }
  }

  lemma ChooseCopies(src: seq<Byte>, a0: nat)
    requires InSource(src, a0)
    ensures var m := Choose(src, a0);
            && m.len >= 1 && (m.len == 1 ==> m.off == 0)
            && (m.len > 1 ==>
                  if m.off == 0 then RepeatsByte(src, a0, m.len) else Repeats(src, a0, a0 + m.len + m.off - 1, m.len))
  {
    hide CommonLen, RunLen, BestUpTo, RepeatsByte, SameBytes;
    BestRepeats(src, a0, SearchEnd(src, a0));
    BestSound(src, a0, SearchEnd(src, a0));
    RunIs(src, a0, RunLen(src, a0));
  }

  lemma ChooseBeats(src: seq<Byte>, a0: nat, c: nat, n: nat)
    requires InSource(src, a0) && Repeats(src, a0, c, n)
    ensures var m := Choose(src, a0); m.len >= n && (m.len == n && m.off > 0 ==> m.off <= c - a0 - n + 1)
  {
    hide CommonLen, RunLen, BestUpTo, Repeats, MatchAt;
    RepeatsFits(src, a0, c, n);
    BestLongest(src, a0, SearchEnd(src, a0), c);
  }

  // ---- The same for all that is stored.

  /** From `a` on the source is cut into `segs` and a rest in such a way that literals are stored only
      where no copy could be, and every copy is the choice at its place. */
  ghost predicate Greedy(src: seq<Byte>, a: nat, segs: seq<Segment>)
    decreases |segs|
  {
    if segs == [] then forall p: nat :: a <= p && p + 3 <= |src| ==> IsChoice(src, p, NO_MATCH)
    else
      var q, s := a + segs[0].lits, segs[0];
      && q + 3 <= |src| && s.len > 1
      && (forall p: nat :: a <= p < q ==> IsChoice(src, p, NO_MATCH))
      && IsChoice(src, q, Match(s.len, s.off))
      && Greedy(src, q + s.len, segs[1..])
  }

  lemma {:induction false} SegmentsFromGreedy(src: seq<Byte>, a0: nat, d5: nat)
    requires d5 <= a0 <= |src| && forall p: nat :: a0 - d5 <= p < a0 ==> IsChoice(src, p, NO_MATCH)
    ensures Greedy(src, a0 - d5, SegmentsFrom(src, a0, d5))
    decreases |src| - a0
  {
    hide Choose, IsChoice;
    if InSource(src, a0) {
      ChooseIs(src, a0);
      ChooseSound(src, a0, d5);
      var m := Choose(src, a0);
      if m.len == 1 {
        ChoiceOfOne(src, a0, m);
        SegmentsFromGreedy(src, a0 + 1, d5 + 1);
      } else {
        SegmentsFromGreedy(src, a0 + m.len, 0);
        var segs := SegmentsFrom(src, a0, d5);
        assert segs[1..] == SegmentsFrom(src, a0 + m.len, 0);
      }
    }
  }

  lemma ChoiceOfOne(src: seq<Byte>, a0: nat, m: Match)
    requires IsChoice(src, a0, m) && m.len == 1
    ensures m == NO_MATCH
  {
    hide Repeats, RepeatsByte;
  }

  lemma {:induction false} GreedyUnique(src: seq<Byte>, a: nat, segs: seq<Segment>, segs': seq<Segment>)
    requires Greedy(src, a, segs) && Greedy(src, a, segs')
    ensures segs == segs'
    decreases |segs|
  {
    hide IsChoice;
    if segs != [] {
      GreedyFirst(src, a, segs, segs');
      assert segs == [segs[0]] + segs[1..] && segs' == [segs'[0]] + segs'[1..];
      GreedyUnique(src, a + segs[0].lits + segs[0].len, segs[1..], segs'[1..]);
    } else if segs' != [] {
      GreedyFirst(src, a, segs', segs);
    }
  }

  lemma GreedyFirst(src: seq<Byte>, a: nat, segs: seq<Segment>, segs': seq<Segment>)
    requires segs != [] && Greedy(src, a, segs) && Greedy(src, a, segs')
    ensures segs' != [] && segs'[0] == segs[0]
  {
    hide IsChoice;
    var q, s := a + segs[0].lits, segs[0];
    if segs' == [] || q < a + segs'[0].lits {
      ChoiceUnique(src, q, Match(s.len, s.off), NO_MATCH);
    } else {
      var q', s' := a + segs'[0].lits, segs'[0];
      if q' < q {
        ChoiceUnique(src, q', Match(s'.len, s'.off), NO_MATCH);
      } else {
        ChoiceUnique(src, q, Match(s.len, s.off), Match(s'.len, s'.off));
      }
    }
  }

  /** The segments of a source are the only ones that store a literal only where no copy is possible,
      and otherwise the longest copy possible, a run before a string and a near string before a far
      one. */
  lemma SegmentsGreedy(src: seq<Byte>, segs: seq<Segment>)
    ensures Greedy(src, 0, segs) <==> segs == Segments(src)
  {
    hide Greedy;
    SegmentsFromGreedy(src, 0, 0);
    if Greedy(src, 0, segs) {
      GreedyUnique(src, 0, segs, Segments(src));
    }
  }

  // ---- The segments rebuild the source.

  lemma SpanSnoc(segs: seq<Segment>, s: Segment)
    ensures Span(segs + [s]) == Span(segs) + s.lits + s.len
  {
    assert (segs + [s])[..|segs|] == segs;
  }

  lemma SoundSnoc(src: seq<Byte>, segs: seq<Segment>, s: Segment)
    requires Sound(src, segs) && s.Codable() && CopySound(src, Span(segs) + s.lits, s)
    requires Span(segs) + s.lits + s.len <= |src|
    ensures Sound(src, segs + [s])
  {
    SpanSnoc(segs, s);
    assert (segs + [s])[..|segs|] == segs;
  }

  /** The segments of the rest extend sound segments to sound segments. */
  lemma {:induction false} SegmentsFromSound(src: seq<Byte>, done: seq<Segment>, a0: nat, d5: nat)
    requires Sound(src, done) && Span(done) + d5 == a0 <= |src|
    ensures Sound(src, done + SegmentsFrom(src, a0, d5))
    decreases |src| - a0
  {
    hide Choose, CopySound, Sound, Span, BestUpTo, RunLen;
    if !InSource(src, a0) {
      assert done + [] == done;
    } else {
      ChooseSound(src, a0, d5);
      var s := Segment(d5, Choose(src, a0).len, Choose(src, a0).off);
      if s.len == 1 {
        SegmentsFromSound(src, done, a0 + 1, d5 + 1);
      } else {
        SoundCopy(src, done, a0, s);
        SegmentsFromSound(src, done + [s], a0 + s.len, 0);
        SegmentsCons(src, done, a0, d5, s);
      }
    }
  }

  lemma SoundCopy(src: seq<Byte>, done: seq<Segment>, a0: nat, s: Segment)
    requires Sound(src, done) && Span(done) + s.lits == a0 && s.Codable() && CopySound(src, a0, s)
    ensures Sound(src, done + [s]) && Span(done + [s]) == a0 + s.len
  {
    SoundSnoc(src, done, s);
    SpanSnoc(done, s);
  }

  lemma SegmentsCons(src: seq<Byte>, done: seq<Segment>, a0: nat, d5: nat, s: Segment)
    requires InSource(src, a0) && Choose(src, a0) == Match(s.len, s.off) && s.len != 1 && s.lits == d5
    requires a0 + s.len <= |src|
    ensures done + SegmentsFrom(src, a0, d5) == done + [s] + SegmentsFrom(src, a0 + s.len, 0)
  {
    assert SegmentsFrom(src, a0, d5) == [s] + SegmentsFrom(src, a0 + s.len, 0);
  }

  /** Literal runs and copies partition the source, and every copy is sound. */
  lemma SegmentsSound(src: seq<Byte>)
    ensures Sound(src, Segments(src))
  {
    SegmentsFromSound(src, [], 0, 0);
    assert [] + Segments(src) == Segments(src);
  }

  /** What unice68_packer makes of a source: an error when some literal run is too long for its
      count, else the packed file. */
  datatype PackResult = PackError | PackedFile(data: seq<Byte>)

  ghost function Pack(src: seq<Byte>): PackResult {
    SegmentsSound(src);
    if Countable(src, Segments(src)) then PackedFile(Packed(src, Segments(src))) else PackError
  }

  // ---- The size of the stream.

  /** A literal count costs at most two bits more than its literals. */
  lemma LitCodeCost(n: nat)
    ensures 1 <= LitCode(n).width <= n + 2
  {
    ClassBounds(T1A, n, 6);
  }

  /** The two codes of a copy cost at least five bits less than the bytes it stands for. */
  lemma CopyCodesCost(s: Segment)
    requires s.Codable()
    ensures 2 <= s.OffCode().width + LenCode(s.len).width <= 8 * s.len - 5
    ensures s.OffCode().width >= 1 && LenCode(s.len).width >= 1
  {
    ClassBounds(TA, s.len, 4);
    ClassBounds(TABLE3, s.off, 2);
  }

  /** The stream, in bits, is at most nine for each source byte and one for the picture flag. */
  lemma {:induction false} WrittenSize(src: seq<Byte>, segs: seq<Segment>)
    requires Span(segs) <= |src| && forall s <- segs :: s.Codable()
    ensures Written(src, segs).Size() <= 9 * Span(segs) + 1
    decreases |segs|
  {
    hide PushCodes, Segment.Codable;
    if segs != [] {
      var init, s := segs[..|segs| - 1], segs[|segs| - 1];
      assert s in segs && s.Codable();
      WrittenSize(src, init);
      SegmentSize(PushBytes(Written(src, init), src[Span(init)..Span(init) + s.lits]), s);
    }
  }

  lemma {:induction false} SoundCodable(src: seq<Byte>, segs: seq<Segment>)
    requires Sound(src, segs)
    ensures forall s <- segs :: s.Codable()
    decreases |segs|
  {
    if segs != [] {
      SoundCodable(src, segs[..|segs| - 1]);
    }
  }

  lemma SegmentSize(st: BitStack, s: Segment)
    requires st.Valid() && s.Codable()
    ensures PushCodes(st, s).Size() <= st.Size() + s.lits + 8 * s.len - 3
  {
    LitCodeCost(s.lits);
    CopyCodesCost(s);
    PushCodeSize(st, LitCode(s.lits));
    PushCodeSize(PushCode(st, LitCode(s.lits)), s.OffCode());
    PushCodeSize(PushCode(PushCode(st, LitCode(s.lits)), s.OffCode()), LenCode(s.len));
  }

  lemma PushCodeSize(st: BitStack, c: Code)
    requires st.Valid()
    ensures PushCode(st, c).Size() == st.Size() + c.width
  {
    PushBitsSize(st, c.value, c.width);
  }

  lemma PayloadSize(src: seq<Byte>, segs: seq<Segment>)
    requires Sound(src, segs)
    ensures Payload(src, segs).Size() <= 9 * |src| + 3
  {
    hide Written, PushCode, LitCode, CopySound;
    SoundCodable(src, segs);
    WrittenSize(src, segs);
    var n := |src| - Span(segs);
    LitCodeCost(n);
    PushCodeSize(PushBytes(Written(src, segs), src[Span(segs)..]), LitCode(n));
  }

  /** The packed file is at most an eighth and 14 bytes longer than the source. */
  lemma PackedSize(src: seq<Byte>, segs: seq<Segment>)
    requires Sound(src, segs)
    ensures 13 <= |Packed(src, segs)| <= |src| + |src| / 8 + 14
  {
    PayloadSize(src, segs);
    var st := Payload(src, segs);
    ClosedByte(st);
    assert |Packed(src, segs)| == 13 + |st.bytes|;
  }

  /** The packed size is bounded, and far below the buffer that the program allocates for it. */
  lemma PackFits(src: seq<Byte>)
    requires Pack(src).PackedFile?
    ensures 13 <= |Pack(src).data| <= |src| + |src| / 8 + 14 <= |src| + |src| / 2 + 1000
  {
    SegmentsSound(src);
    PackedSize(src, Segments(src));
  }
}
