/** What is written as chunks is read back as the same chunks: the walk over a file delivers each
    chunk of it once, in order, and ends on the last (file68/src/file68.c:1579-1740 against
    1808-1884). */
module Sc68Delivery {
  import opened Powers
  import opened Sequences
  import opened Options
  import opened Sc68Format
  import opened Sc68Loader

  lemma KindKept(k: Kind)
    requires k != OTHER
    ensures KindOf(Letter0(k), Letter1(k)) == k
  {
  }

  lemma PeekPoke(n: int, more: Bytes)
    ensures Peek(Poke(n) + more) == n % 0x1_0000_0000
  {
    var b := Poke(n) + more;
    assert b[..4] == Poke(n);
    assert At(b, 0) == n % 256 && At(b, 1) == n / 256 % 256;
    assert At(b, 2) == n / 0x1_0000 % 256 && At(b, 3) == n / 0x100_0000 % 256;
    LongBytes(n);
  }

  /** A string ends at its first zero, whatever follows. */
  lemma {:induction false} CStringStops(s: Bytes, more: Bytes)
    requires IsText(s)
    ensures CString(s + [0] + more) == s
  {
    if s == [] {
      assert (s + [0] + more)[0] == 0;
    } else {
      assert (s + [0] + more)[1..] == s[1..] + [0] + more;
      assert (s + [0] + more)[0] == s[0];
      CStringStops(s[1..], more);
    }
  }

  lemma {:induction false} CStringSplits(b: Bytes)
    requires 0 in b
    ensures IsText(CString(b)) && |CString(b)| < |b|
    ensures b == CString(b) + [0] + b[|CString(b)| + 1..]
  {
    hide IsText;
    if b[0] == 0 {
      NoText();
      assert b == [] + [0] + b[1..];
    } else {
      ZeroBehind(b);
      CStringSplits(b[1..]);
      TextBehind(b, CString(b[1..]));
      SplitBehind(b, CString(b[1..]));
    }
  }

  lemma NoText()
    ensures IsText([])
  {
  }

  lemma TextBehind(b: Bytes, s: Bytes)
    requires b != [] && b[0] != 0 && IsText(s)
    ensures IsText([b[0]] + s)
  {
  }

  lemma ZeroBehind(b: Bytes)
    requires 0 in b && b[0] != 0
    ensures 0 in b[1..]
  {
    var i :| 0 <= i < |b| && b[i] == 0;
    assert b[1..][i - 1] == 0;
  }

  lemma SplitBehind(b: Bytes, s: Bytes)
    requires |s| + 1 < |b| && b[1..] == s + [0] + b[1..][|s| + 1..]
    ensures b == [b[0]] + s + [0] + b[|s| + 2..]
  {
    var rest := b[|s| + 2..];
    assert b == [b[0]] + b[1..] && b[1..][|s| + 1..] == rest;
    assert [b[0]] + (s + [0] + rest) == [b[0]] + s + [0] + rest;
  }

  lemma CStringPrefix(b: Bytes, more: Bytes)
    requires 0 in b
    ensures CString(b + more) == CString(b) && |CString(b)| < |b|
  {
    CStringSplits(b);
    var s, rest := CString(b), b[|CString(b)| + 1..];
    assert b + more == s + [0] + (rest + more);
    CStringStops(s, rest + more);
  }

  /** The payload of a chunk says everything that reading it looks at. */
  predicate Closed(k: Kind, p: Bytes) {
    match k
    case FNAME | MNAME | ANAME | CNAME | REPLAY => 0 in p
    case TAG => 0 in p && |CString(p)| < |p| && 0 in p[|CString(p)| + 1..]
    case DEFAULT | D0 | AT | TIME | FRAME | FRQ | LOOP | LOOPFR | TYP => |p| >= 4
    case MUSIC | SFX | MDATA | BASE => true
    case EOF | OTHER => false
  }

  lemma PeekPrefix(p: Bytes, more: Bytes)
    requires |p| >= 4
    ensures Peek(p + more) == Peek(p)
  {
  }

  lemma ApplyClosed(st: Loader, k: Kind, p: Bytes, more: Bytes)
    requires Closed(k, p)
    ensures Apply(st, k, p + more, |p|) == Apply(st, k, p, |p|)
  {
    hide Peek, CString, SetTag, WithNames, NamesOf, TypFlags;
    match k
    case FNAME | MNAME | ANAME | CNAME | REPLAY => CStringPrefix(p, more);
    case TAG =>
      CStringPrefix(p, more);
      var rest := p[|CString(p)| + 1..];
      assert (p + more)[|CString(p)| + 1..] == rest + more;
      CStringPrefix(rest, more);
    case DEFAULT | D0 | AT | TIME | FRAME | FRQ | LOOP | LOOPFR | TYP => PeekPrefix(p, more);
    case MDATA => assert (p + more)[..|p|] == p == p[..|p|];
    case MUSIC | SFX | BASE =>
  }

  /** What a list of chunks does; None if a chunk is incomplete or not allowed where it stands. */
  function Deliver(cs: seq<Chunk>, st: Loader): Option<Loader>
    decreases |cs|
  {
    if cs == [] then Some(st) else
    var k, p := cs[0].kind, Padded(cs[0].data);
    if !Closed(k, p) || (k == MUSIC && |st.Tracks()| == SC68_MAX_TRACK) then None else
    var next := Apply(st, k, p, |p|);
    if next.None? then None else Deliver(cs[1..], next.value)
  }

  lemma {:induction false} DeliverAppend(xs: seq<Chunk>, ys: seq<Chunk>, st: Loader)
    requires Deliver(xs, st).Some?
    ensures Deliver(xs + ys, st) == Deliver(ys, Deliver(xs, st).value)
    decreases |xs|
  {
    hide Apply, Closed;
    if xs == [] {
      assert xs + ys == ys;
    } else {
      assert (xs + ys)[1..] == xs[1..] + ys;
      var p := Padded(xs[0].data);
      DeliverAppend(xs[1..], ys, Apply(st, xs[0].kind, p, |p|).value);
    }
  }

  /** Where the parts of a written chunk are. */
  lemma EncodeParts(c: Chunk, tail: Bytes)
    requires c.kind != OTHER && |Padded(c.data)| < 0x1_0000_0000
    ensures var b := Encode(c) + tail;
            |b| >= 8 && b[0] == 0x53 && b[1] == 0x43 && KindOf(b[2], b[3]) == c.kind
            && Peek(b[4..]) == |Padded(c.data)| && b[8..] == Padded(c.data) + tail
  {
    hide KindOf, Peek, Poke, Letter0, Letter1, Padded;
    var b, p := Encode(c) + tail, Padded(c.data);
    assert b == [0x53, 0x43, Letter0(c.kind), Letter1(c.kind)] + (Poke(|p|) + (p + tail));
    assert b[4..] == Poke(|p|) + (p + tail);
    assert b[8..] == b[4..][4..] == p + tail;
    PeekPoke(|p|, p + tail);
    KindKept(c.kind);
  }

  /** A turn at a written chunk does what the chunk says, and goes on behind it. */
  lemma TurnChunk(b: Bytes, pos: nat, c: Chunk, tail: Bytes, st: Loader)
    requires pos <= |b| && b[pos..] == Encode(c) + tail && |Encode(c)| < 0x8000_0000
    requires Deliver([c], st).Some?
    ensures TurnAt(b, pos, st) == On(pos + |Encode(c)|, Deliver([c], st).value)
  {
    hide Apply, KindOf, Peek, Poke, Letter0, Letter1, Padded, Encode;
    var p := Padded(c.data);
    EncodeParts(c, tail);
    ChunkAt(b, pos, Encode(c) + tail);
    ApplyClosed(st, c.kind, p, tail);
    assert [c][1..] == [];
  }

  /** The parts of a chunk where it stands in the buffer. */
  lemma ChunkAt(b: Bytes, pos: nat, at: Bytes)
    requires pos <= |b| && b[pos..] == at && |at| >= 8
    ensures b[pos] == at[0] && b[pos + 1] == at[1] && b[pos + 2] == at[2] && b[pos + 3] == at[3]
    ensures b[pos + 4..] == at[4..] && b[pos + 8..] == at[8..]
  {
  }

  lemma DeliverFirst(c: Chunk, st: Loader, next: Loader)
    requires Closed(c.kind, Padded(c.data)) && !(c.kind == MUSIC && |st.Tracks()| == SC68_MAX_TRACK)
    requires Apply(st, c.kind, Padded(c.data), |Padded(c.data)|) == Some(next)
    ensures Deliver([c], st) == Some(next)
  {
    hide Apply, Closed, Padded;
    assert [c][1..] == [];
  }

  lemma DeliverTracks(c: Chunk, st: Loader)
    requires Deliver([c], st).Some? && |st.Tracks()| <= SC68_MAX_TRACK
    ensures |Deliver([c], st).value.Tracks()| <= SC68_MAX_TRACK
  {
    hide Apply, Closed, Padded;
    var p := Padded(c.data);
    ApplyTracks(st, c.kind, p, |p|);
    assert [c][1..] == [];
  }

  /** One written chunk of the walk. */
  lemma WalkChunk(b: Bytes, pos: nat, c: Chunk, tail: Bytes, st: Loader, seen: set<nat>) returns (seen': set<nat>)
    requires pos <= |b| && b[pos..] == Encode(c) + tail && |Encode(c)| < 0x8000_0000
    requires Deliver([c], st).Some? && |st.Tracks()| <= SC68_MAX_TRACK && forall s <- seen :: s < pos
    ensures pos + |Encode(c)| <= |b| && b[pos + |Encode(c)|..] == tail
    ensures |Deliver([c], st).value.Tracks()| <= SC68_MAX_TRACK && forall s <- seen' :: s < pos + |Encode(c)|
    ensures Walk(b, pos, st, seen) == Walk(b, pos + |Encode(c)|, Deliver([c], st).value, seen')
  {
    hide TurnAt, Deliver, Padded;
    TurnChunk(b, pos, c, tail, st);
    DeliverTracks(c, st);
    Behind(b, pos, Encode(c), tail);
    seen' := SeenAfter(seen, pos, st, Deliver([c], st).value);
  }

  lemma Behind(b: Bytes, pos: nat, x: Bytes, y: Bytes)
    requires pos <= |b| && b[pos..] == x + y
    ensures pos + |x| <= |b| && b[pos + |x|..] == y
  {
    assert b[pos..][|x|..] == b[pos + |x|..];
  }

  /** The walk over written chunks does what the chunks say, and goes on behind them. */
  lemma {:induction false} WalkDelivers(b: Bytes, pos: nat, cs: seq<Chunk>, tail: Bytes, st: Loader, seen: set<nat>)
    returns (seen': set<nat>)
    requires pos <= |b| && b[pos..] == EncodeAll(cs) + tail && |EncodeAll(cs)| < 0x8000_0000
    requires Deliver(cs, st).Some? && |st.Tracks()| <= SC68_MAX_TRACK && forall s <- seen :: s < pos
    ensures var end := pos + |EncodeAll(cs)|;
            && end <= |b| && b[end..] == tail && (forall s <- seen' :: s < end)
            && |Deliver(cs, st).value.Tracks()| <= SC68_MAX_TRACK
            && Walk(b, pos, st, seen) == Walk(b, end, Deliver(cs, st).value, seen')
    decreases |cs|
  {
    hide Apply, Closed, Encode, Walk, Padded;
    if cs == [] {
      assert EncodeAll(cs) + tail == tail;
      seen' := seen;
    } else {
      var p := Padded(cs[0].data);
      var next := Apply(st, cs[0].kind, p, |p|).value;
      DeliverFirst(cs[0], st, next);
      Joined(Encode(cs[0]), EncodeAll(cs[1..]), tail);
      var seen1 := WalkChunk(b, pos, cs[0], EncodeAll(cs[1..]) + tail, st, seen);
      seen' := WalkDelivers(b, pos + |Encode(cs[0])|, cs[1..], tail, next, seen1);
    }
  }

  /** The last chunk stops the walk, whatever is behind it. */
  lemma WalkEnds(b: Bytes, pos: nat, st: Loader, seen: set<nat>, tail: Bytes)
    requires pos <= |b| && b[pos..] == Encode(Chunk(EOF, [])) + tail
    requires pos !in seen && |st.Tracks()| <= SC68_MAX_TRACK
    ensures Walk(b, pos, st, seen) == Finished(st)
  {
    hide Apply, Peek, Poke;
    var at := Encode(Chunk(EOF, [])) + tail;
    ChunkAt(b, pos, at);
    assert at[0] == 0x53 && at[1] == 0x43 && at[2] == 0x45 && at[3] == 0x46;
  }

  /** Chunks with the last one behind them are walked to the end. */
  lemma WalkSaved(cs: seq<Chunk>)
    requires Deliver(cs, NOTHING).Some? && |EncodeAll(cs)| < 0x8000_0000
    ensures Walk(EncodeAll(cs) + Encode(Chunk(EOF, [])), 0, NOTHING, {}) == Finished(Deliver(cs, NOTHING).value)
  {
    hide Deliver, Walk, EncodeAll, Encode;
    var end := Encode(Chunk(EOF, []));
    var b := EncodeAll(cs) + end;
    assert b[0..] == b;
    var seen := WalkDelivers(b, 0, cs, end, NOTHING, {});
    assert end + [] == end;
    WalkEnds(b, |EncodeAll(cs)|, Deliver(cs, NOTHING).value, seen, []);
  }

  /** Lists of chunks one after the other. */
  lemma DeliverThen(xs: seq<Chunk>, ys: seq<Chunk>, st: Loader, mid: Loader, end: Loader)
    requires Deliver(xs, st) == Some(mid) && Deliver(ys, mid) == Some(end)
    ensures Deliver(xs + ys, st) == Some(end)
  {
    DeliverAppend(xs, ys, st);
  }
}
