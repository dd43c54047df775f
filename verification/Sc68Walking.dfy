/** How the chunk loop of a file ends, for chunks of any size, also negative ones
    (file68/src/file68.c:1579-1748). */
module Sc68Walking {
  import opened Options
  import opened Sc68Format
  import opened Sc68Loader
  import opened Sc68RoundTrip

  /** Where the loop is after `n` turns. */
  function Turns(b: Bytes, st: Loader, n: nat): (r: Turn)
    ensures r.On? ==> r.pos <= |b|
  {
    if n == 0 then On(0, st) else
    var t := Turns(b, st, n - 1);
    if t.Running() then TurnAt(b, t.pos, t.st) else t
  }

  /** What it has come to when it does not run any more. */
  function EndOf(t: Turn): Walked
    requires !t.Running()
  {
    match t
    case Done(st) => Finished(st)
    case Broken => Wrong
    case On(_, _) => Outside
  }

  /** The loop is at the same place, with as many tracks. */
  predicate Same(t: Turn, u: Turn) {
    t.Running() && u.Running() && t.pos == u.pos && |t.st.Tracks()| == |u.st.Tracks()|
  }

  /** It comes back to a chunk without having found a track. */
  ghost predicate ComesBack(b: Bytes, st: Loader) {
    exists j: nat, n: nat :: j < n && Same(Turns(b, st, j), Turns(b, st, n))
  }

  /** Tracks are only ever added, and none is finished before one has been started. */
  ghost predicate Sane(st: Loader) {
    |st.Tracks()| <= SC68_MAX_TRACK && (st.cur.None? ==> st.done == [])
  }

  lemma ApplySane(st: Loader, k: Kind, b: Bytes, size: int)
    requires size <= |b| && Sane(st)
    ensures var st' := Apply(st, k, b, size); st'.Some? && st'.value.cur.None? ==> st'.value.done == []
  {
    hide CString, Peek, SetTag, ApplyTrack, GenreKey, Fold;
  }

  lemma TurnSane(b: Bytes, pos: nat, st: Loader)
    requires pos <= |b| && Sane(st)
    ensures var t := TurnAt(b, pos, st); t.On? ==> Sane(t.st) && |t.st.Tracks()| >= |st.Tracks()|
  {
    hide KindOf, Peek, Apply;
    TurnTracks(b, pos, st);
    if TurnAt(b, pos, st).On? {
      ApplySane(st, KindOf(b[pos + 2], b[pos + 3]), b[pos + 8..], Signed32(Peek(b[pos + 4..])));
    }
  }

  lemma {:induction false} TurnsSane(b: Bytes, st: Loader, n: nat)
    requires Sane(st)
    ensures Turns(b, st, n).On? ==> Sane(Turns(b, st, n).st)
  {
    hide TurnAt, Sane;
    if n > 0 {
      TurnsSane(b, st, n - 1);
      var t := Turns(b, st, n - 1);
      if t.Running() {
        TurnSane(b, t.pos, t.st);
      }
    }
  }

  /** What a turn makes of where the loop is does not depend on anything else that has been read. */
  lemma SameTurn(b: Bytes, t: Turn, u: Turn)
    requires Same(t, u) && t.pos <= |b| && Sane(t.st) && Sane(u.st)
    ensures var t', u' := TurnAt(b, t.pos, t.st), TurnAt(b, u.pos, u.st);
            && (t'.Running() <==> u'.Running())
            && (t'.Running() ==> Same(t', u'))
  {
    hide KindOf, Peek, Apply;
    if |b| - t.pos >= 8 {
      var k, size, rest := KindOf(b[t.pos + 2], b[t.pos + 3]), Signed32(Peek(b[t.pos + 4..])), b[t.pos + 8..];
      if size <= |rest| {
        SameApply(t.st, u.st, k, rest, size);
        ApplyTracks(t.st, k, rest, size);
        ApplyTracks(u.st, k, rest, size);
      }
    }
  }

  lemma SameApply(st: Loader, other: Loader, k: Kind, b: Bytes, size: int)
    requires size <= |b| && Sane(st) && Sane(other) && |st.Tracks()| == |other.Tracks()|
    ensures Apply(st, k, b, size).Some? <==> Apply(other, k, b, size).Some?
  {
    hide CString, Peek, SetTag, ApplyTrack, GenreKey, Fold, WithNames, NamesOf;
  }

  /** Once it is back, it goes round. */
  lemma {:induction false} Around(b: Bytes, st: Loader, j: nat, n: nat, k: nat)
    requires Sane(st) && j < n && Same(Turns(b, st, j), Turns(b, st, n))
    ensures Turns(b, st, j + k).Running() <==> Turns(b, st, n + k).Running()
    ensures Turns(b, st, j + k).Running() ==> Same(Turns(b, st, j + k), Turns(b, st, n + k))
    decreases k
  {
    hide TurnAt, Sane;
    if k > 0 {
      Around(b, st, j, n, k - 1);
      var t, u := Turns(b, st, j + k - 1), Turns(b, st, n + k - 1);
      if t.Running() {
        TurnsSane(b, st, j + k - 1);
        TurnsSane(b, st, n + k - 1);
        SameTurn(b, t, u);
      }
    }
  }

  lemma {:induction false} StillRunning(b: Bytes, st: Loader, m: nat, n: nat)
    requires m <= n && Turns(b, st, n).Running()
    ensures Turns(b, st, m).Running()
    decreases n
  {
    if m < n {
      StillRunning(b, st, m, n - 1);
    }
  }

  lemma {:induction false} ForEver(b: Bytes, st: Loader, j: nat, n: nat, m: nat)
    requires Sane(st) && j < n && Same(Turns(b, st, j), Turns(b, st, n))
    ensures Turns(b, st, m).Running()
    decreases m
  {
    hide TurnAt, Sane;
    if m <= n {
      StillRunning(b, st, m, n);
    } else {
      ForEver(b, st, j, n, m - (n - j));
      Around(b, st, j, n, m - n);
    }
  }

  // ---- What Walk tells.

  lemma NextTurn(b: Bytes, st: Loader, n: nat)
    requires Sane(st) && Turns(b, st, n).Running()
    ensures var t, next := Turns(b, st, n), Turns(b, st, n + 1);
            && |t.st.Tracks()| <= SC68_MAX_TRACK && next == TurnAt(b, t.pos, t.st)
            && (next.On? ==> |t.st.Tracks()| <= |next.st.Tracks()| <= SC68_MAX_TRACK)
  {
    hide TurnAt;
    TurnsSane(b, st, n);
    TurnsSane(b, st, n + 1);
    TurnSane(b, Turns(b, st, n).pos, Turns(b, st, n).st);
  }

  lemma {:induction false} WalkStops(b: Bytes, st: Loader, n: nat, seen: set<nat>) returns (m: nat)
    requires Sane(st) && Turns(b, st, n).Running() && |Turns(b, st, n).st.Tracks()| <= SC68_MAX_TRACK
    requires var t := Turns(b, st, n); !Walk(b, t.pos, t.st, seen).Endless?
    ensures var t := Turns(b, st, n);
            !Turns(b, st, m).Running() && Walk(b, t.pos, t.st, seen) == EndOf(Turns(b, st, m))
    decreases SC68_MAX_TRACK - |Turns(b, st, n).st.Tracks()|, UpTo(|b|) - seen
  {
    hide TurnAt, Turns, Sane, SeenAfter;
    NextTurn(b, st, n);
    var t, next := Turns(b, st, n), Turns(b, st, n + 1);
    m := n + 1;
    if next.Running() {
      Smaller(b, t.pos, t.st, next.st, seen);
      m := WalkStops(b, st, n + 1, SeenAfter(seen, t.pos, t.st, next.st));
    }
  }

  lemma Smaller(b: Bytes, pos: nat, st: Loader, next: Loader, seen: set<nat>)
    requires pos <= |b| && pos !in seen && |st.Tracks()| <= |next.Tracks()|
    ensures |next.Tracks()| > |st.Tracks()| || UpTo(|b|) - SeenAfter(seen, pos, st, next) < UpTo(|b|) - seen
  {
    assert pos in UpTo(|b|) - seen;
  }

  /** Before turn `n` the loop has been at `s` with as many tracks. */
  ghost predicate BeenAt(b: Bytes, st: Loader, n: nat, s: nat)
    requires Turns(b, st, n).On?
  {
    exists j: nat :: j < n && Turns(b, st, j).Running() && Turns(b, st, j).pos == s
                     && |Turns(b, st, j).st.Tracks()| == |Turns(b, st, n).st.Tracks()|
  }

  lemma BeenLater(b: Bytes, st: Loader, n: nat, s: nat)
    requires Turns(b, st, n).Running() && Turns(b, st, n + 1).On?
    requires |Turns(b, st, n + 1).st.Tracks()| == |Turns(b, st, n).st.Tracks()|
    requires BeenAt(b, st, n, s) || s == Turns(b, st, n).pos
    ensures BeenAt(b, st, n + 1, s)
  {
    hide Turns;
    if s == Turns(b, st, n).pos {
      assert n < n + 1;
    }
  }

  lemma {:induction false} WalkComesBack(b: Bytes, st: Loader, n: nat, seen: set<nat>)
    requires Sane(st) && Turns(b, st, n).Running() && |Turns(b, st, n).st.Tracks()| <= SC68_MAX_TRACK
    requires var t := Turns(b, st, n); Walk(b, t.pos, t.st, seen).Endless?
    requires forall s <- seen :: BeenAt(b, st, n, s)
    ensures ComesBack(b, st)
    decreases SC68_MAX_TRACK - |Turns(b, st, n).st.Tracks()|, UpTo(|b|) - seen
  {
    hide TurnAt, Turns, Sane, BeenAt;
    var t := Turns(b, st, n);
    if t.pos in seen {
      BackAt(b, st, n);
    } else {
      NextTurn(b, st, n);
      var next := Turns(b, st, n + 1);
      Smaller(b, t.pos, t.st, next.st, seen);
      var seen' := SeenAfter(seen, t.pos, t.st, next.st);
      forall s <- seen'
        ensures BeenAt(b, st, n + 1, s)
      {
        BeenLater(b, st, n, s);
      }
      WalkComesBack(b, st, n + 1, seen');
    }
  }

  lemma BackAt(b: Bytes, st: Loader, n: nat)
    requires Turns(b, st, n).Running() && BeenAt(b, st, n, Turns(b, st, n).pos)
    ensures ComesBack(b, st)
  {
    hide Turns;
    var j: nat :| j < n && Turns(b, st, j).Running() && Turns(b, st, j).pos == Turns(b, st, n).pos
                  && |Turns(b, st, j).st.Tracks()| == |Turns(b, st, n).st.Tracks()|;
    assert Same(Turns(b, st, j), Turns(b, st, n));
  }

  /** The loop goes on for ever if and only if it comes back to a chunk without having found a track
      on the way; and it can be told whether it does. Otherwise what Walk tells is what the turns come
      to. */
  lemma LoopEnds(b: Bytes, st: Loader)
    requires Sane(st)
    ensures Walk(b, 0, st, {}).Endless? <==> ComesBack(b, st)
    ensures Walk(b, 0, st, {}).Endless? <==> forall n: nat :: Turns(b, st, n).Running()
    ensures !Walk(b, 0, st, {}).Endless? ==>
              exists n: nat :: !Turns(b, st, n).Running() && Walk(b, 0, st, {}) == EndOf(Turns(b, st, n))
  {
    hide Walk;
    assert Turns(b, st, 0) == On(0, st);
    hide Turns;
    if Walk(b, 0, st, {}).Endless? {
      WalkComesBack(b, st, 0, {});
    } else {
      var n := WalkStops(b, st, 0, {});
    }
    if ComesBack(b, st) {
      var j: nat, n: nat :| j < n && Same(Turns(b, st, j), Turns(b, st, n));
      forall m: nat
        ensures Turns(b, st, m).Running()
      {
        ForEver(b, st, j, n, m);
      }
    }
  }

  // ---- Chunks of size -8.

  /** The chunk at `pos` is followed by itself. */
  predicate Itself(b: Bytes, pos: nat) {
    pos + 8 <= |b| && b[pos] == 0x53 && b[pos + 1] == 0x43 && Signed32(Peek(b[pos + 4..])) == -8
  }

  /** A chunk that is followed by itself and is not a new track, the end or an error holds the loop for
      ever; when it is a new track it is found until there are as many as there may be, and the loop
      ends. */
  lemma {:induction false} ItselfAgain(b: Bytes, pos: nat, st: Loader, seen: set<nat>)
    requires Itself(b, pos) && Sane(st) && pos !in seen
    ensures var k, r := KindOf(b[pos + 2], b[pos + 3]), Walk(b, pos, st, seen);
            && (k == EOF ==> r == Finished(st))
            && (k == MUSIC ==> r.Finished? && |r.st.Tracks()| == SC68_MAX_TRACK)
            && (k != EOF && k != MUSIC ==> r == if Apply(st, k, b[pos + 8..], -8).None? then Wrong else Endless)
    decreases SC68_MAX_TRACK - |st.Tracks()|
  {
    hide KindOf, Peek, Apply;
    var k := KindOf(b[pos + 2], b[pos + 3]);
    MusicApplies(st, b[pos + 8..], -8);
    TurnTracks(b, pos, st);
    TurnSane(b, pos, st);
    if Apply(st, k, b[pos + 8..], -8).Some? {
      ApplyTracks(st, k, b[pos + 8..], -8);
      if k == MUSIC && |st.Tracks()| < SC68_MAX_TRACK {
        ItselfAgain(b, pos, TurnAt(b, pos, st).st, {});
      }
    }
  }

  lemma MusicApplies(st: Loader, b: Bytes, size: int)
    requires size <= |b|
    ensures Apply(st, MUSIC, b, size).Some?
  {
  }

  // ---- Whole files.

  /** Loading a file does not end if and only if the loop over its chunks comes back to one of them
      without having found a track on the way. */
  lemma LoadEnds(file: Bytes)
    ensures var b := ReadBuffer(file);
            && (LoadFile(file).Unending? <==> b.Some? && ComesBack(b.value, NOTHING))
            && (LoadFile(file).Unending? <==> b.Some? && forall n: nat :: Turns(b.value, NOTHING, n).Running())
  {
    hide Walk, Turns, ReadBuffer, Validate, ComesBack;
    if ReadBuffer(file).Some? {
      LoopEnds(ReadBuffer(file).value, NOTHING);
    }
  }

  // A chunk that is nothing known, of size -8.
  const STUCK: Bytes := [0x53, 0x43, 0, 0, 0xf8, 0xff, 0xff, 0xff]

  lemma StuckItself()
    ensures |STUCK| == 8 && Itself(STUCK, 0) && KindOf(STUCK[2], STUCK[3]) == OTHER
    ensures Apply(NOTHING, OTHER, STUCK[8..], -8).Some?
  {
    hide Apply, Peek;
    StuckSize(STUCK[4..]);
    OtherApplies(NOTHING, STUCK[8..], -8);
  }

  lemma StuckSize(b: Bytes)
    requires b == [0xf8, 0xff, 0xff, 0xff]
    ensures Signed32(Peek(b)) == -8
  {
    assert At(b, 0) == 0xf8 && At(b, 1) == At(b, 2) == At(b, 3) == 0xff;
    hide At;
  }

  lemma OtherApplies(st: Loader, b: Bytes, size: int)
    requires size <= |b|
    ensures Apply(st, OTHER, b, size) == Some(st)
  {
    hide CString, Peek, SetTag, ApplyTrack, GenreKey, Fold;
  }

  /** A file that holds just that chunk is never loaded. */
  lemma NeverLoads(version: int)
    ensures LoadFile(HeaderOf(version) + (BaseChunk(16) + (STUCK + []))).Unending?
  {
    hide Walk, ReadBuffer, HeaderOf, BaseChunk, STUCK, Itself, KindOf, Apply;
    StuckItself();
    BufferRead(version, 16, STUCK, []);
    ItselfAgain(STUCK, 0, NOTHING, {});
  }
}
