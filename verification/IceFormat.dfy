/** The ICE! stream format as the packer writes it: the variable-length codes of its three
    kinds of number, the segments it cuts a source into, and the packed file
    (unice68/unice68_pack.c). */
module IceFormat {
  import opened Powers
  import opened BitStacks

  // The classes of literal counts: first value, payload bits and total bits of each class.
  const T1A: seq<nat> := [0, 1, 2, 5, 8, 15, 270]
  const TIB0: seq<nat> := [0x01, 0x01, 0x02, 0x02, 0x03, 0x08, 0x0f]
  const TIB1: seq<nat> := [0x01, 0x02, 0x04, 0x06, 0x09, 0x11, 0x20]

  // The classes of copy lengths: first value and payload bits.
  const TA: seq<nat> := [0x2, 0x3, 0x4, 0x6, 0xa]
  const TB: seq<nat> := [0x1, 0x1, 0x2, 0x3, 0xa]

  // The classes of long-copy offsets: three first values, then three packed widths.
  const TABLE3: seq<nat> := [0x0000, 0x0020, 0x0120, 0x0606, 0x0908, 0x0C0D]

  const MAX_LITS := 0x810d
  const MAX_LEN := 0x409
  const MAX_OFF := 0x111f
  const MAX_OFF2 := 0x23f

  /** A field of `width` bits holding `value` modulo 2^width. */
  datatype Code = Code(value: int, width: nat)

  /** `(-1 << k) | x`: ones above the low `k` bits of `x`. */
  function OnesAbove(k: nat, x: int): int
    decreases k
  {
    if k == 0 then -1 else x % 2 + 2 * OnesAbove(k - 1, x / 2)
  }

  /** `x | (1 << n)` for a non-negative `x`. */
  function SetBit(x: nat, n: nat): nat {
    if x / Pow2(n) % 2 == 1 then x else x + Pow2(n)
  }

  /** The last class at or below `i` whose first value does not exceed `n`, or class 0. */
  function ClassOf(firsts: seq<nat>, n: int, i: nat): (c: nat)
    requires i < |firsts|
    ensures c <= i
    decreases i, n
  {
    if n >= firsts[i] || i == 0 then i else ClassOf(firsts, n, i - 1)
  }

  lemma {:induction false} ClassBounds(firsts: seq<nat>, n: int, i: nat)
    requires i < |firsts| && firsts[0] <= n
    ensures var c := ClassOf(firsts, n, i); firsts[c] <= n && (c < i ==> n < firsts[c + 1])
  {
    if n < firsts[i] && i > 0 {
      ClassBounds(firsts, n, i - 1);
    }
  }

  function LitCode(n: nat): Code {
    var i := ClassOf(T1A, n, 6);
    Code(OnesAbove(TIB0[i], n - T1A[i]), TIB1[i])
  }

  function Offset2Code(off: nat): Code {
    if off <= 0x3f then Code(off, 7) else Code(SetBit(off - 0x40, 9), 10)
  }

  function OffsetMoreCode(off: nat): Code {
    var i := ClassOf(TABLE3, off, 2);
    Code(OnesAbove(TABLE3[3 + i] / 256, off - TABLE3[i]), TABLE3[3 + i] % 16 + 1)
  }

  function LenCode(len: nat): Code {
    var i := ClassOf(TA, len, 4);
    Code(OnesAbove(TB[i], len - TA[i]), TB[i] + i)
  }

  /** A run of literal bytes followed by the copy of `len` bytes from further up. */
  datatype Segment = Segment(lits: nat, len: nat, off: nat) {

    /** How far above its target the copied data starts. */
    function Distance(): int {
      if off == 0 then 1 else len + off - 1
    }

    predicate Codable() {
      2 <= len <= MAX_LEN && off <= if len == 2 then MAX_OFF2 else MAX_OFF
    }

    function OffCode(): Code {
      if len == 2 then Offset2Code(off) else OffsetMoreCode(off)
    }
  }

  /** The number of source bytes that the segments stand for. */
  function Span(segs: seq<Segment>): nat {
    if segs == [] then 0 else Span(segs[..|segs| - 1]) + segs[|segs| - 1].lits + segs[|segs| - 1].len
  }

  function PushCode(st: BitStack, c: Code): (r: BitStack)
    requires st.Valid()
    ensures r.Valid()
  {
    PushBits(st, c.value, c.width)
  }

  /** The count, offset and length codes that close a segment. */
  function PushCodes(st: BitStack, s: Segment): (r: BitStack)
    requires st.Valid()
    ensures r.Valid()
  {
    PushCode(PushCode(PushCode(st, LitCode(s.lits)), s.OffCode()), LenCode(s.len))
  }

  /** The stream that holds just the clear picture flag. */
  const FLAGGED := BitStack([], 0, 6)

  /** The stream after the clear picture flag and all of `segs`. */
  function Written(src: seq<Byte>, segs: seq<Segment>): (r: BitStack)
    requires Span(segs) <= |src|
    ensures r.Valid()
    decreases |segs|
  {
    if segs == [] then FLAGGED else
    var init, s := segs[..|segs| - 1], segs[|segs| - 1];
    PushCodes(PushBytes(Written(src, init), src[Span(init)..Span(init) + s.lits]), s)
  }

  /** The stream before the sentinel is set: what is left of the source follows as literals. */
  function Payload(src: seq<Byte>, segs: seq<Segment>): (r: BitStack)
    requires Span(segs) <= |src|
    ensures r.Valid()
  {
    PushCode(PushBytes(Written(src, segs), src[Span(segs)..]), LitCode(|src| - Span(segs)))
  }

  /** The four bytes that longword_store writes. */
  function Big32(x: nat): (r: seq<Byte>)
    ensures |r| == 4
  {
    [x / 0x100_0000 % 256, x / 0x1_0000 % 256, x / 256 % 256, x % 256]
  }

  const MAGIC: seq<Byte> := [0x49, 0x63, 0x65, 0x21] // 'Ice!'

  /** The whole packed file: magic, packed size, source size, stream, closing byte. */
  function Packed(src: seq<Byte>, segs: seq<Segment>): seq<Byte>
    requires Span(segs) <= |src|
  {
    var st := Payload(src, segs);
    ClosedByte(st);
    MAGIC + Big32(13 + |st.bytes|) + Big32(|src|) + st.bytes + [st.Closed()]
  }

  lemma ClosedByte(st: BitStack)
    requires st.Valid()
    ensures 0 < st.Closed() < 256
  {
    Pow2Add(st.d6, 7 - st.d6);
    Pow2Small();
    Pow2Double(st.d6 + 1);
    hide Pow2;
    SentinelFits(st.d7, Pow2(st.d6), Pow2(7 - st.d6));
  }

  /** There is room for one bit below a multiple of `2 * p`. */
  lemma SentinelFits(d: nat, p: nat, c: nat)
    requires p > 0 && p * c == 128 && d < 256 && d % (2 * p) == 0
    ensures d + p < 256
  {
    var k := d / (2 * p);
    assert d == (2 * p) * k == 2 * (p * k);
    MulApart(k, c, p);
    MulApart(c, k, p);
  }

  /** The segments rebuild the source: each copy can be coded and repeats bytes that lie
      wholly above it and below the end of the source. */
  ghost predicate Sound(src: seq<Byte>, segs: seq<Segment>) {
    && Span(segs) <= |src|
    && (segs != [] ==>
          var init, s := segs[..|segs| - 1], segs[|segs| - 1];
          && Sound(src, init)
          && s.Codable()
          && CopySound(src, Span(init) + s.lits, s))
  }

  /** Every literal run is short enough for its count to be coded. */
  predicate Countable(src: seq<Byte>, segs: seq<Segment>) {
    (forall s <- segs :: s.lits <= MAX_LITS) && |src| - Span(segs) <= MAX_LITS
  }

  /** The `n` bytes at `a` and at `b` agree. */
  ghost predicate SameBytes(src: seq<Byte>, a: nat, b: nat, n: nat)
    requires a + n <= |src| && b + n <= |src|
  {
    forall i :: a <= i < a + n ==> src[i] == src[i + b - a]
  }

  ghost predicate CopySound(src: seq<Byte>, a0: nat, s: Segment) {
    && a0 + s.len + s.Distance() <= |src|
    && 0 < s.Distance()
    && SameBytes(src, a0, a0 + s.Distance(), s.len)
  }
}
