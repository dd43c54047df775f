/** Depacking what was packed: each reader undoes the writer of the same field, so the depacker
    walks the packer's states backwards and rebuilds the source from its end to its start. */
module IceRoundTrip {
  import opened Powers
  import opened BitStacks
  import opened IceFormat
  import opened IceDepack
  import opened IceCodes

  /** The packed data holds the bytes of `st` just after the 12-byte header. */
  ghost predicate Holds(env: Env, st: BitStack) {
    && 12 + |st.bytes| <= env.srcend
    && forall i :: 0 <= i < |st.bytes| ==> env.mem(12 + i) == st.bytes[i]
  }

  /** The machine about to read the newest thing on `st`: its `d7` is the packer's, closed by
      the sentinel. */
  function At(m: Machine, st: BitStack): Machine
    requires st.Valid()
  {
    ClosedByte(st);
    m.(a5 := 12 + |st.bytes|, d7 := st.Closed())
  }

  lemma HoldsPrefix(env: Env, st: BitStack, st': BitStack)
    requires Holds(env, st') && st.bytes <= st'.bytes
    ensures Holds(env, st)
  {}

  lemma PopBit(env: Env, m: Machine, st: BitStack, b: Bit)
    requires st.Valid() && Holds(env, PushBit(st, b))
    ensures PushBit(st, b).Valid()
    ensures Get1Bit(env, At(m, PushBit(st, b))) == BitRead(b, At(m, st))
  {
    PushBitValid(st, b);
    var top := At(m, PushBit(st, b));
    if st.d6 == 0 {
      PopFetched(st.d7, b);
      assert env.mem(top.a5 - 1) == PushBit(st, b).bytes[|st.bytes|] == (st.d7 + 256 * b) / 2;
    } else {
      PopHeld(st, b);
    }
  }

  lemma PopHeld(st: BitStack, b: Bit)
    requires st.Valid() && st.d6 > 0
    ensures 2 * PushBit(st, b).Closed() == st.Closed() + 256 * b
    ensures 0 < st.Closed() < 256
  {
    ClosedByte(st);
    LowBitFree(st);
    PopFetched(st.d7, b);
    assert Pow2(st.d6) == 2 * Pow2(st.d6 - 1);
  }

  lemma EvenMultiple(x: int, p: int)
    requires p > 0 && x % (2 * p) == 0
    ensures x % 2 == 0
  {
    var k := x / (2 * p);
    assert x == (2 * p) * k == 2 * (p * k);
  }

  lemma LowBitFree(st: BitStack)
    requires st.Valid()
    ensures st.d7 % 2 == 0
  {
    EvenMultiple(st.d7, Pow2(st.d6));
  }

  lemma PopFetched(d7: int, b: Bit)
    requires 0 <= d7 < 256 && d7 % 2 == 0
    ensures (d7 + 256 * b) / 2 * 2 == d7 + 256 * b
  {}

  /** The machines that a field on the stack plays through. */
  lemma {:induction false} Playback(env: Env, m: Machine, st: BitStack, v: int, n: nat) returns (ms: seq<Machine>)
    requires st.Valid() && Holds(env, PushBits(st, v, n))
    ensures |ms| == n + 1 && Plays(env, ms, v) && Holds(env, st)
    ensures ms[0] == At(m, st) && ms[n] == At(m, PushBits(st, v, n))
    decreases n
  {
    hide Holds, At, PushBit, BitOf, Get1Bit;
    if n == 0 {
      ms := [At(m, st)];
    } else {
      PushBitsGrow(st, v, n, n - 1);
      HoldsPrefix(env, PushBits(st, v, n - 1), PushBits(st, v, n));
      PopBit(env, m, PushBits(st, v, n - 1), BitOf(v, n - 1));
      var rest := Playback(env, m, st, v, n - 1);
      ms := rest + [At(m, PushBits(st, v, n))];
    }
  }

  // ---- Literals.

  lemma {:induction false} CopyLitsWrites(env: Env, m: Machine, lits: seq<Byte>)
    requires |lits| <= m.a6 <= |m.dst|
    requires forall k :: 0 <= k < |lits| ==> env.mem(m.a5 - |lits| + k) == lits[k]
    ensures CopyLits(env, m, |lits|)
         == m.(a5 := m.a5 - |lits|, a6 := m.a6 - |lits|, dst := m.dst[..m.a6 - |lits|] + lits + m.dst[m.a6..])
    decreases |lits|
  {
    var n := |lits|;
    if n == 0 {
      assert m.dst == m.dst[..m.a6] + lits + m.dst[m.a6..];
    } else {
      var b, init := lits[n - 1], lits[..n - 1];
      var m' := m.(dst := m.dst[m.a6 - 1 := b], a6 := m.a6 - 1, a5 := m.a5 - 1);
      assert env.mem(m.a5 - n + (n - 1)) == b;
      CopyLitsWrites(env, m', init);
      assert m'.dst[..m'.a6 - (n - 1)] + init + m'.dst[m'.a6..] == m.dst[..m.a6 - n] + lits + m.dst[m.a6..];
    }
  }

  /** One turn of normal_bytes: the machine before its literals and after them. */
  datatype Turn = Turn(start: Machine, mid: Machine)

  /** A run of literals with its count on top is taken off and stored below `a6`. */
  lemma ReadLiterals(env: Env, m: Machine, st: BitStack, lits: seq<Byte>) returns (t: Turn, m1: Machine)
    requires st.Valid() && |lits| <= MAX_LITS && |lits| <= m.a6 <= |m.dst| && m.a6 <= env.dstend
    requires m.overflow == NO_OVERFLOW && Holds(env, PushCode(PushBytes(st, lits), LitCode(|lits|)))
    ensures Holds(env, st)
    ensures m1 == m.(a6 := m.a6 - |lits|, dst := m.dst[..m.a6 - |lits|] + lits + m.dst[m.a6..])
    ensures t == Turn(At(m, PushCode(PushBytes(st, lits), LitCode(|lits|))), At(m1, st))
    ensures Literals(env, t.start) == GoOn(t.mid)
  {
    hide LitCode, Literals, CopyLits, LitCount, Get1Bit, PushBits;
    var n, c, st1 := |lits|, LitCode(|lits|), PushBytes(st, lits);
    var ms := Playback(env, m, st1, c.value, c.width);
    ReadLitCode(env, ms, n);
    HoldsPrefix(env, st, st1);
    var top := At(m, st1);
    m1 := m.(a6 := m.a6 - n, dst := m.dst[..m.a6 - n] + lits + m.dst[m.a6..]);
    t := Turn(ms[c.width], At(m1, st));
    if n == 0 {
      assert st1 == st;
      assert m.dst == m.dst[..m.a6] + lits + m.dst[m.a6..];
      NoLiterals(env, ms[c.width], top);
    } else {
      forall k | 0 <= k < n ensures env.mem(top.a5 - n + k) == lits[k] {
        assert env.mem(12 + (|st.bytes| + k)) == st1.bytes[|st.bytes| + k];
      }
      CopyLitsWrites(env, top, lits);
      LiteralsUnfold(env, ms[c.width], top, n);
    }
  }

  lemma LiteralsUnfold(env: Env, m: Machine, m1: Machine, n: nat)
    requires m.a6 <= |m.dst| && m1.a6 == m.a6 && m1.dst == m.dst && 0 < n <= MAX_LITS
    requires Get1Bit(env, m).bit == 1 && LitCount(env, Get1Bit(env, m).m) == NumRead(n - 1, m1)
    requires m1.overflow == NO_OVERFLOW && n <= m1.a6 <= env.dstend && n <= m1.a5 <= env.srcend
    ensures Literals(env, m) == GoOn(CopyLits(env, m1, n))
  {
    hide Get1Bit, LitCount, CopyLits;
  }

  lemma NoLiterals(env: Env, m: Machine, m1: Machine)
    requires m.a6 <= |m.dst| && Get1Bit(env, m) == BitRead(0, m1)
    ensures Literals(env, m) == GoOn(m1)
  {}

  // ---- Copies.

  /** A copy extends the rebuilt end of the source downwards. */
  lemma {:induction false} CopyBackRebuilds(env: Env, m: Machine, src: seq<Byte>, d: nat, n: nat)
    requires n <= m.a6 && 0 < d && m.a6 + d <= |src| <= |m.dst|
    requires m.dst[m.a6..|src|] == src[m.a6..]
    requires SameBytes(src, m.a6 - n, m.a6 - n + d, n)
    ensures var r := CopyBack(env, m, m.a6 + d, n);
            && r == m.(a6 := m.a6 - n, dst := r.dst)
            && r.dst == m.dst[..m.a6 - n] + src[m.a6 - n..] + m.dst[|src|..]
    decreases n
  {
    if n == 0 {
      NothingMore(m.dst, src, m.a6);
    } else {
      var b := src[m.a6 - 1];
      assert m.dst[m.a6 + d - 1] == m.dst[m.a6..|src|][d - 1] == src[m.a6 + d - 1] == b;
      var m' := m.(dst := m.dst[m.a6 - 1 := b], a6 := m.a6 - 1);
      OneByteMore(m.dst, src, m.a6);
      assert CopyBack(env, m, m.a6 + d, n) == CopyBack(env, m', m'.a6 + d, n - 1);
      hide CopyBack;
      CopyBackRebuilds(env, m', src, d, n - 1);
      OneByteSet(m.dst, m.a6, b, m.a6 - n, |src|);
    }
  }

  lemma NothingMore(dst: seq<Byte>, src: seq<Byte>, a6: nat)
    requires a6 <= |src| <= |dst| && dst[a6..|src|] == src[a6..]
    ensures dst == dst[..a6] + src[a6..] + dst[|src|..]
  {
    assert dst == dst[..a6] + dst[a6..|src|] + dst[|src|..];
  }

  lemma OneByteSet(dst: seq<Byte>, a6: nat, b: Byte, low: nat, high: nat)
    requires low < a6 <= high <= |dst|
    ensures dst[a6 - 1 := b][..low] == dst[..low] && dst[a6 - 1 := b][high..] == dst[high..]
  {
  }

  lemma OneByteMore(dst: seq<Byte>, src: seq<Byte>, a6: nat)
    requires 0 < a6 <= |src| <= |dst| && dst[a6..|src|] == src[a6..]
    ensures dst[a6 - 1 := src[a6 - 1]][a6 - 1..|src|] == src[a6 - 1..]
  {
    assert dst[a6 - 1 := src[a6 - 1]][a6 - 1..|src|] == [src[a6 - 1]] + dst[a6..|src|];
  }

  /** The two codes of a copy are taken off and the copied bytes rebuilt. */
  lemma ReadCopy(env: Env, m: Machine, st: BitStack, src: seq<Byte>, s: Segment)
    requires st.Valid() && s.Codable() && m.overflow == NO_OVERFLOW && s.len <= m.a6 <= env.dstend
    requires m.a6 + s.Distance() <= |src| <= |m.dst| && 0 < s.Distance()
    requires m.dst[m.a6..|src|] == src[m.a6..]
    requires SameBytes(src, m.a6 - s.len, m.a6 - s.len + s.Distance(), s.len)
    requires Holds(env, PushCode(PushCode(st, s.OffCode()), LenCode(s.len)))
    ensures Holds(env, st)
    ensures Strings(env, At(m, PushCode(PushCode(st, s.OffCode()), LenCode(s.len))))
         == At(m.(a6 := m.a6 - s.len, dst := m.dst[..m.a6 - s.len] + src[m.a6 - s.len..] + m.dst[|src|..]), st)
  {
    hide LenCode, Segment.OffCode, Strings, Written, PushBits, CopyBack;
    var m0, m1 := ReadCopyCodes(env, m, st, s);
    var m2 := At(m, st);
    StringsUnfold(env, m0, s.len - 2, m1, s.Distance() - s.len, m2);
    CopyBackRebuilds(env, m2, src, s.Distance(), s.len);
  }

  lemma ReadCopyCodes(env: Env, m: Machine, st: BitStack, s: Segment) returns (m0: Machine, m1: Machine)
    requires st.Valid() && s.Codable()
    requires Holds(env, PushCode(PushCode(st, s.OffCode()), LenCode(s.len)))
    ensures Holds(env, st) && m0 == At(m, PushCode(PushCode(st, s.OffCode()), LenCode(s.len)))
    ensures CopyLength(env, m0) == NumRead(s.len - 2, m1)
    ensures CopyOffset(env, m1, s.len - 2) == NumRead(s.Distance() - s.len, At(m, st))
  {
    var st1 := PushCode(st, s.OffCode());
    var top := Playback(env, m, st1, LenCode(s.len).value, LenCode(s.len).width);
    ReadLenCode(env, top, s.len);
    var mid := Playback(env, m, st, s.OffCode().value, s.OffCode().width);
    ReadOffCode(env, mid, s);
    m0, m1 := top[|top| - 1], mid[|mid| - 1];
  }

  lemma StringsUnfold(env: Env, m: Machine, d4: nat, m1: Machine, d1: int, m2: Machine)
    requires 0 < m.a6 <= |m.dst| && m2.a6 == m.a6 && m2.dst == m.dst
    requires CopyLength(env, m) == NumRead(d4, m1) && CopyOffset(env, m1, d4) == NumRead(d1, m2)
    requires ChkDst(env, m2.overflow, m2.a6 - (d4 + 1) - 1, m2.a6 - 1) == m2.overflow
    ensures Strings(env, m) == CopyBack(env, m2, m2.a6 + 2 + d4 + d1, d4 + 2)
  {
  }

  // ---- All of it.

  /** The stream after `segs` and a run of `n` literals with its count. */
  function Top(src: seq<Byte>, segs: seq<Segment>, n: nat): (r: BitStack)
    requires Span(segs) + n <= |src|
    ensures r.Valid()
  {
    PushCode(PushBytes(Written(src, segs), src[Span(segs)..Span(segs) + n]), LitCode(n))
  }

  /** `dst` holds the source from `p` up; what lies beyond the source is `rest`. */
  ghost predicate Rebuilt(dst: seq<Byte>, src: seq<Byte>, p: nat, rest: seq<Byte>)
    requires p <= |src|
  {
    |src| <= |dst| && dst[p..|src|] == src[p..] && dst[|src|..] == rest
  }

  lemma LiteralsRebuild(dst: seq<Byte>, src: seq<Byte>, p: nat, n: nat, rest: seq<Byte>)
    requires p + n <= |src| && Rebuilt(dst, src, p + n, rest)
    ensures Rebuilt(dst[..p] + src[p..p + n] + dst[p + n..], src, p, rest)
  {
    var d := dst[..p] + src[p..p + n] + dst[p + n..];
    assert d[p..|src|] == src[p..p + n] + dst[p + n..|src|];
    assert d[|src|..] == dst[|src|..];
  }

  lemma CopyRebuild(dst: seq<Byte>, src: seq<Byte>, q: nat, rest: seq<Byte>)
    requires q <= |src| && |src| <= |dst| && dst[|src|..] == rest
    ensures Rebuilt(dst[..q] + src[q..] + dst[|src|..], src, q, rest)
  {}

  /** The machine has rebuilt the source above `a6` and nothing has gone out of range. */
  ghost predicate Going(env: Env, m: Machine, src: seq<Byte>, p: nat, rest: seq<Byte>) {
    p <= |src| && m.a6 == p <= env.dstend && m.overflow == NO_OVERFLOW && Rebuilt(m.dst, src, p, rest)
  }

  /** The turns lead from each other and the last one fills the destination. */
  ghost predicate Runs(env: Env, ts: seq<Turn>) {
    && ts != []
    && ts[0].start.a6 <= |ts[0].start.dst|
    && Literals(env, ts[0].start) == GoOn(ts[0].mid)
    && if |ts| == 1 then ts[0].mid.a6 == 0 else
         ts[0].mid.a6 > 0 && Strings(env, ts[0].mid) == ts[1].start && Runs(env, ts[1..])
  }

  lemma {:induction false} NormalBytesRuns(env: Env, ts: seq<Turn>)
    requires Runs(env, ts)
    ensures ts[0].start.a6 <= |ts[0].start.dst|
    ensures NormalBytes(env, ts[0].start) == ts[|ts| - 1].mid
    decreases |ts|
  {
    if |ts| > 1 {
      NormalBytesRuns(env, ts[1..]);
    }
  }

  lemma RewindLiterals(env: Env, m: Machine, src: seq<Byte>, segs: seq<Segment>, n: nat, rest: seq<Byte>)
    returns (t: Turn, m1: Machine)
    requires n <= MAX_LITS && Going(env, m, src, Span(segs) + n, rest) && Holds(env, Top(src, segs, n))
    ensures Going(env, m1, src, Span(segs), rest) && Holds(env, Written(src, segs))
    ensures t == Turn(At(m, Top(src, segs, n)), At(m1, Written(src, segs)))
    ensures Literals(env, t.start) == GoOn(t.mid)
  {
    hide LitCode, Literals, PushCode, Written, Span, At;
    var lits := src[Span(segs)..Span(segs) + n];
    assert |lits| == n && PushCode(PushBytes(Written(src, segs), lits), LitCode(n)) == Top(src, segs, n);
    LiteralsRebuild(m.dst, src, Span(segs), n, rest);
    t, m1 := ReadLiterals(env, m, Written(src, segs), lits);
  }

  lemma RewindCopy(env: Env, m: Machine, src: seq<Byte>, segs: seq<Segment>, init: seq<Segment>, s: Segment,
        rest: seq<Byte>)
    returns (m1: Machine)
    requires segs == init + [s] && Sound(src, segs) && Going(env, m, src, Span(segs), rest)
    requires Holds(env, Written(src, segs))
    ensures Sound(src, init) && Going(env, m1, src, Span(init) + s.lits, rest)
    ensures Holds(env, Top(src, init, s.lits))
    ensures m.a6 > 0 && Strings(env, At(m, Written(src, segs))) == At(m1, Top(src, init, s.lits))
  {
    assert segs[..|segs| - 1] == init;
    var q := Span(init) + s.lits;
    ReadCopy(env, m, Top(src, init, s.lits), src, s);
    m1 := m.(a6 := q, dst := m.dst[..q] + src[q..] + m.dst[|src|..]);
    CopyRebuild(m.dst, src, q, rest);
  }

  /** From the top of a literal run that follows `segs`, the depacker rebuilds everything below
      and stops just above the picture flag. */
  lemma {:induction false} Rewind(env: Env, m: Machine, src: seq<Byte>, segs: seq<Segment>, n: nat, rest: seq<Byte>)
    returns (ts: seq<Turn>, m': Machine)
    requires Sound(src, segs) && n <= MAX_LITS && (forall s <- segs :: s.lits <= MAX_LITS)
    requires Going(env, m, src, Span(segs) + n, rest) && Holds(env, Top(src, segs, n))
    ensures Going(env, m', src, 0, rest) && Holds(env, Written(src, []))
    ensures Runs(env, ts) && ts[0].start == At(m, Top(src, segs, n)) && ts[|ts| - 1].mid == At(m', Written(src, []))
    decreases |segs|
  {
    hide Written, PushCode, LitCode, CopySound, Literals, Strings;
    var t, m1 := RewindLiterals(env, m, src, segs, n, rest);
    if segs == [] {
      ts, m' := [t], m1;
    } else {
      var init, s := segs[..|segs| - 1], segs[|segs| - 1];
      var m2 := RewindCopy(env, m1, src, segs, init, s, rest);
      ts, m' := Rewind(env, m2, src, init, s.lits, rest);
      ts := RunsFirst(env, t, ts);
    }
  }

  lemma RunsFirst(env: Env, t: Turn, ts: seq<Turn>) returns (ts': seq<Turn>)
    requires Runs(env, ts) && 0 < t.mid.a6 <= |t.mid.dst| && t.start.a6 <= |t.start.dst|
    requires Literals(env, t.start) == GoOn(t.mid) && Strings(env, t.mid) == ts[0].start
    ensures Runs(env, ts') && ts' == [t] + ts
  {
    ts' := [t] + ts;
    assert ts'[1..] == ts;
  }

  // ---- The whole file.

  /** The packed bytes are what `mem` answers for the first |packed| addresses. */
  ghost predicate Stores(mem: int -> Byte, packed: seq<Byte>) {
    forall i :: 0 <= i < |packed| ==> mem(i) == packed[i]
  }

  lemma ReadBig32(mem: int -> Byte, a: nat, x: nat)
    requires x < 0x8000_0000
    requires mem(a) == Big32(x)[0] && mem(a + 1) == Big32(x)[1] && mem(a + 2) == Big32(x)[2]
             && mem(a + 3) == Big32(x)[3]
    ensures GetInfo(mem, a) == x
  {
    LongBytes(x);
  }

  lemma MagicReads(mem: int -> Byte)
    requires mem(0) == 0x49 && mem(1) == 0x63 && mem(2) == 0x65 && mem(3) == 0x21
    ensures MagicOk(mem)
  {
    assert Pow2(21) == 0x20_0000 && Pow2(13) == 0x2000 by { assert Pow2(8) == 256; assert Pow2(16) == 0x1_0000; }
    assert GetInfo(mem, 0) == 0x49636521;
  }

  lemma PackedBytes(src: seq<Byte>, segs: seq<Segment>, packed: seq<Byte>, st: BitStack)
    requires Span(segs) <= |src| && packed == Packed(src, segs) && st == Payload(src, segs)
    ensures |packed| == 13 + |st.bytes| && packed[..4] == MAGIC
    ensures packed[4..8] == Big32(|packed|) && packed[8..12] == Big32(|src|)
    ensures 0 < st.Closed() < 256 && packed[12..12 + |st.bytes|] == st.bytes && packed[12 + |st.bytes|] == st.Closed()
  {
    hide Written, PushCode, PushBytes, Payload, LitCode;
    ClosedByte(st);
  }

  lemma HeaderReads(mem: int -> Byte, packed: seq<Byte>, n: nat)
    requires Stores(mem, packed) && 12 <= |packed| < 0x8000_0000 && n < 0x8000_0000
    requires packed[..4] == MAGIC && packed[4..8] == Big32(|packed|) && packed[8..12] == Big32(n)
    ensures MagicOk(mem) && GetInfo(mem, 4) == |packed| && GetInfo(mem, 8) == n
  {
    assert forall i :: 0 <= i < 4 ==>
        packed[i] == packed[..4][i] && packed[4 + i] == packed[4..8][i] && packed[8 + i] == packed[8..12][i];
    MagicReads(mem);
    ReadBig32(mem, 4, |packed|);
    ReadBig32(mem, 8, n);
  }

  /** Depacking a packed file gives the source back, whatever lies around the packed data and
      above the destination; and the stored sizes are the real ones. */
  lemma DepackPacked(mem: int -> Byte, above: int -> Byte, src: seq<Byte>, segs: seq<Segment>, dst: seq<Byte>)
    requires Sound(src, segs) && Countable(src, segs) && |src| <= |dst|
    requires |src| < 0x8000_0000 && |Packed(src, segs)| < 0x8000_0000
    requires Stores(mem, Packed(src, segs))
    ensures MagicOk(mem) && GetInfo(mem, 4) == |Packed(src, segs)| && GetInfo(mem, 8) == |src|
    ensures Depack(mem, above, dst) == DepackResult(Returned(0), src + dst[|src|..])
    ensures DepackedSize(mem, 0) == DepackedSize(mem, |Packed(src, segs)|) == |src|
  {
    hide Written, PushCode, LitCode, Payload, Packed, Literals, Strings, NormalBytes, Get1Bit;
    var packed, st, env := Packed(src, segs), Payload(src, segs), EnvOf(mem, above);
    PackedBytes(src, segs, packed, st);
    HeaderReads(mem, packed, |src|);
    assert Holds(env, st) by {
      forall i | 0 <= i < |st.bytes| ensures env.mem(12 + i) == st.bytes[i] {
        assert packed[12 + i] == packed[12..12 + |st.bytes|][i];
      }
    }
    assert Start(env, dst) == At(Start(env, dst), st);
    var ts, m := StreamTurns(env, Start(env, dst), src, segs, dst, st);
    NormalBytesRuns(env, ts);
    PictureFlag(env, m, src);
  }

  lemma StreamTurns(env: Env, start: Machine, src: seq<Byte>, segs: seq<Segment>, dst: seq<Byte>, st: BitStack)
    returns (ts: seq<Turn>, m: Machine)
    requires Sound(src, segs) && Countable(src, segs) && env.dstend == start.a6 == |src| <= |dst|
    requires st == Payload(src, segs) && Holds(env, st)
    requires start == At(start, st) && start.dst == dst && start.overflow == NO_OVERFLOW
    ensures Runs(env, ts) && ts[0].start == start
    ensures ts[|ts| - 1].mid == At(m, Written(src, [])) && Holds(env, Written(src, []))
    ensures m.dst == src + dst[|src|..] && m.overflow == NO_OVERFLOW
  {
    hide Written, PushCode, LitCode, Span, Runs, Literals, At, Holds, CopySound;
    var n := |src| - Span(segs);
    assert src[Span(segs)..] == src[Span(segs)..Span(segs) + n];
    ts, m := Rewind(env, start, src, segs, n, dst[|src|..]);
    assert m.dst == m.dst[0..|src|] + m.dst[|src|..];
  }

  lemma PictureFlag(env: Env, m: Machine, src: seq<Byte>)
    requires Holds(env, Written(src, []))
    ensures Get1Bit(env, At(m, Written(src, []))) == BitRead(0, At(m, EMPTY))
  {
    assert Written(src, []) == PushBit(EMPTY, 0);
    PopBit(env, m, EMPTY, 0);
  }
}
