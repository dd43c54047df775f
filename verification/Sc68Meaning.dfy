/** What the chunks of an sc68 file mean for the disk that is loaded: also those that are never
    written (file68/src/file68.c:301-324, 554-625, 631-807, 1582-1740). */
module Sc68Meaning {
  import opened Options
  import opened Powers
  import opened Words
  import opened Sc68Format
  import opened Sc68Loader
  import opened Sc68Delivery
  import opened Sc68RoundTrip

  // ---- Times and rates.

  /** The current track, after a chunk of a number. */
  function Told(st: Loader, k: Kind, n: int, more: Bytes): (r: Option<Loader>) {
    Apply(st, k, Poke(n) + more, 4)
  }

  /** The rate of a track, 50 when none is given. */
  function Rate(t: RawTrack): nat {
    if t.frq == 0 then 50 else t.frq
  }

  /** A time in seconds is that many frames of the rate, modulo 2^32, when no frames are given; more than
      a day is no time at all. */
  lemma TimeSays(st: Loader, n: int, more: Bytes, inh: Inherited, data: Data)
    requires st.cur.Some? && st.cur.value.firstFr == 0 && -0x8000_0000 <= n < 0x8000_0000
    ensures Told(st, TIME, n, more).Some? && Told(st, TIME, n, more).value.cur.Some?
    ensures var t := Told(st, TIME, n, more).value.cur.value;
            Guessable(t) ==>
              var u := ValidParms(t, inh, data);
              if 0 <= n <= 86400 then u.firstFr == n * Rate(t) % 0x1_0000_0000 && (u.hasTime <==> n > 0)
              else u.firstFr == 0 && !u.hasTime
  {
    hide Peek, Poke, ArtistOf, LoopsOf, Guessable;
    PeekPoke(n, more);
    SignedBack(n);
    var t := Told(st, TIME, n, more).value.cur.value;
    if 0 <= n <= 86400 {
      assert t.firstMs == n * 1000;
      assert n * 1000 * Rate(t) == n * Rate(t) * 1000;
    }
  }

  lemma SignedBack(n: int)
    requires -0x8000_0000 <= n < 0x8000_0000
    ensures Signed32(n % 0x1_0000_0000) == n && (0 <= n ==> n % 0x1_0000_0000 == n)
    ensures n < 0 ==> n % 0x1_0000_0000 >= 0x8000_0000
  {
  }

  /** A number of frames takes the place of a time; it must be below 2^24. */
  lemma FramesSay(st: Loader, n: nat, more: Bytes, inh: Inherited, data: Data)
    requires st.cur.Some? && n < 0x1_0000_0000
    ensures Told(st, FRAME, n, more).Some? && Told(st, FRAME, n, more).value.cur.Some?
    ensures var t := Told(st, FRAME, n, more).value.cur.value;
            Guessable(t) && 0 < n < 0x100_0000 ==>
              ValidParms(t, inh, data).firstFr == n && ValidParms(t, inh, data).hasTime
    ensures n == 0 || n >= 0x100_0000 ==> Told(st, FRAME, n, more).value.cur.value.firstFr == 0
  {
    hide Peek, Poke, ArtistOf, LoopsOf, Guessable;
    PeekPoke(n, more);
  }

  /** A count of loops is kept; -1 is a loop for ever, which is the count 0, and what is below, like 0,
      leaves the count to be guessed. A loop of no frames is played once. */
  lemma LoopSays(st: Loader, n: int, more: Bytes, inh: Inherited, data: Data)
    requires st.cur.Some? && -0x8000_0000 <= n < 0x8000_0000
    ensures Told(st, LOOP, n, more).Some? && Told(st, LOOP, n, more).value.cur.Some?
    ensures var t := Told(st, LOOP, n, more).value.cur.value;
            Guessable(t) ==>
              var u := ValidParms(t, inh, data);
              if u.loopsFr == 0 then u.loops == 1
              else if n > 0 then u.loops == n
              else if n == -1 then u.loops == 0
              else 1 <= u.loops <= 4
  {
    hide Peek, Poke, ArtistOf, MsOf, FramesOf, TypFlags, GuessLoops;
    PeekPoke(n, more);
    SignedBack(n);
  }

  /** A rate, and a length of the loop: without one the loop is the track. */
  lemma RateSays(st: Loader, n: nat, more: Bytes, inh: Inherited, data: Data)
    requires st.cur.Some? && n < 0x1_0000_0000
    ensures Told(st, FRQ, n, more).Some? && Told(st, FRQ, n, more).value.cur.Some?
    ensures var t := Told(st, FRQ, n, more).value.cur.value;
            Guessable(t) ==> ValidParms(t, inh, data).frq == if n == 0 then 50 else n
  {
    hide Peek, Poke, ArtistOf, LoopsOf, Guessable, MsOf, FramesOf, TypFlags;
    PeekPoke(n, more);
  }

  lemma LoopLengthSays(st: Loader, n: nat, more: Bytes, inh: Inherited, data: Data)
    requires st.cur.Some? && n < 0x1_0000_0000
    ensures Told(st, LOOPFR, n, more).Some? && Told(st, LOOPFR, n, more).value.cur.Some?
    ensures var t := Told(st, LOOPFR, n, more).value.cur.value;
            Guessable(t) ==> ValidParms(t, inh, data).loopsFr == n && ValidParms(t, inh, data).hasLoop
    ensures var t := st.cur.value;
            Guessable(t) && !t.hasLoop ==> ValidParms(t, inh, data).loopsFr == ValidParms(t, inh, data).firstFr
  {
    hide Peek, Poke, ArtistOf, LoopsOf, Guessable, MsOf, FramesOf, TypFlags;
    PeekPoke(n, more);
  }

  /** Replay flags: any but the lowest three imply the flag 8. Without flags there is the flag 1. */
  lemma FlagsSay(st: Loader, n: nat, more: Bytes, inh: Inherited, data: Data)
    requires st.cur.Some? && n < 0x1_0000_0000
    ensures Told(st, TYP, n, more).Some? && Told(st, TYP, n, more).value.cur.Some?
    ensures var t := Told(st, TYP, n, more).value.cur.value;
            Guessable(t) ==>
              ValidParms(t, inh, data).flags
              == if n == 0 then 1 else if n < 8 then n else Bitwise(OR, n, 8)
  {
    hide Peek, Poke, ArtistOf, LoopsOf, Guessable, MsOf, FramesOf, Bitwise;
    PeekPoke(n, more);
    if n >= 8 { OrEight(n); }
  }

  lemma OrEight(f: nat)
    ensures Bitwise(OR, f, 8) == if f / 8 % 2 == 0 then f + 8 else f
  {
    hide Bitwise;
    Unfold(OR, f, 8);
    Unfold(OR, f / 2, 4);
    Unfold(OR, f / 2 / 2, 2);
    Unfold(OR, f / 2 / 2 / 2, 1);
    OrNothing(f / 2 / 2 / 2 / 2);
  }

  /** Frames made of milliseconds and back: less than a frame is lost. */
  lemma TimeBack(ms: nat, hz: nat)
    requires hz > 0 && ms * hz / 1000 < 0x1_0000_0000 && ms < 0x1_0000_0000
    ensures MsOf(FramesOf(ms, hz), hz) <= ms
    ensures (ms - MsOf(FramesOf(ms, hz), hz)) * hz < 1000 + hz
  {
    hide MsOf, FramesOf;
    var fr, back := FramesIs(ms, hz, ms * hz);
    TimeLost(ms, hz, ms * hz, fr * 1000, back, back * hz);
    MsIs(fr, hz, back);
  }

  lemma FramesIs(ms: nat, hz: nat, x: nat) returns (fr: nat, back: nat)
    requires hz > 0 && x == ms * hz && x / 1000 < 0x1_0000_0000
    ensures fr == FramesOf(ms, hz) && fr * 1000 <= x < fr * 1000 + 1000
    ensures back == fr * 1000 / hz && back * hz <= fr * 1000 < back * hz + hz
  {
    fr := x / 1000;
    back := fr * 1000 / hz;
    Quotient(fr * 1000, hz);
  }

  lemma MsIs(fr: nat, hz: nat, back: nat)
    requires hz > 0 && back == fr * 1000 / hz < 0x1_0000_0000
    ensures MsOf(fr, hz) == back
  {
  }

  lemma Quotient(y: nat, d: nat)
    requires d > 0
    ensures y / d * d <= y < y / d * d + d
  {
  }

  lemma TimeLost(ms: int, hz: nat, x: int, y: int, back: int, z: int)
    requires hz > 0 && x == ms * hz && z == back * hz && y <= x < y + 1000 && z <= y < z + hz
    ensures back <= ms && (ms - back) * hz < 1000 + hz
  {
    MulApart(back, ms, hz);
    assert (ms - back) * hz == x - z;
  }

  // ---- Names and tags.

  /** A name is that of the album before the first track, and then of the current track; the last one
      counts. */
  lemma NameSays(st: Loader, k: Kind, name: Bytes, more: Bytes)
    requires IsText(name) && k in {FNAME, MNAME, ANAME}
    ensures var st' := Apply(st, k, name + [0] + more, 0);
            && st'.Some?
            && (st.cur.None? ==>
                  st'.value == if k == ANAME then st.(artist := Some(name)) else st.(title := Some(name)))
            && (st.cur.Some? ==>
                  var t := st.cur.value;
                  st'.value == st.(cur := Some(if k == ANAME then t.(artist := Some(name))
                                               else t.(title := Some(name)))))
  {
    hide CString;
    CStringStops(name, more);
  }

  /** What tags say: the value for every key, whatever its case. */
  lemma {:induction false} PutTagSays(tags: seq<Tag>, key: Bytes, val: Bytes, other: Bytes)
    ensures TagValue(PutTag(tags, key, val), other)
            == if Fold(other) == Fold(key) then Some(val) else TagValue(tags, other)
    ensures |PutTag(tags, key, val)| == if TagValue(tags, key).Some? then |tags| else |tags| + 1
  {
    hide Fold;
    if tags != [] && Fold(tags[0].key) != Fold(key) {
      PutTagSays(tags[1..], key, val, other);
      var more := PutTag(tags, key, val);
      assert more[0] == tags[0] && more[1..] == PutTag(tags[1..], key, val);
    } else if tags != [] {
      var more := PutTag(tags, key, val);
      assert more[0] == tags[0].(val := val) && more[1..] == tags[1..];
    } else {
      assert PutTag(tags, key, val)[1..] == [];
    }
  }

  /** A tag is put if there is one of its name or less than nine. */
  predicate HasRoom(tags: seq<Tag>, key: Bytes) {
    TagValue(tags, key).Some? || |tags| < 9
  }

  lemma AddTagSays(tags: seq<Tag>, key: Bytes, val: Bytes, other: Bytes)
    requires |tags| <= 9
    ensures TagValue(AddTag(tags, key, val), other)
            == if Fold(other) == Fold(key) && HasRoom(tags, key) then Some(val) else TagValue(tags, other)
    ensures |AddTag(tags, key, val)| <= 9
  {
    hide Fold, PutTag;
    PutTagSays(tags, key, val, other);
  }

  /** The names that are not tags of their own. */
  lemma KeysAre(key: Bytes)
    ensures TitleKey(key) <==> Fold(key) == Fold(Ascii("title")) || Fold(key) == Fold(Ascii("album"))
    ensures ArtistKey(key) <==> Fold(key) == Fold(Ascii("artist")) || Fold(key) == Fold(Ascii("author"))
    ensures GenreKey(key) <==> Fold(key) == Fold(Ascii("genre")) || Fold(key) == Fold(Ascii("format"))
  {
    hide Fold;
    AsciiKeys();
  }

  lemma AsciiKeys()
    ensures Ascii("title") == TITLE_KEY && Ascii("album") == ALBUM_KEY
    ensures Ascii("artist") == ARTIST_KEY && Ascii("author") == AUTHOR_KEY
    ensures Ascii("genre") == GENRE_KEY && Ascii("format") == FORMAT_KEY
    ensures Ascii("aka") == AKA_KEY && Ascii("composer") == COMPOSER_KEY
  {
  }

  /** The key and the value of a tag chunk. */
  lemma TagParts(key: Bytes, val: Bytes, more: Bytes)
    requires IsText(key) && IsText(val)
    ensures var b := key + [0] + (val + [0] + more);
            CString(b) == key && |key| < |b| && CString(b[|key| + 1..]) == val
  {
    hide CString;
    var rest := val + [0] + more;
    CStringStops(key, rest);
    CStringStops(val, more);
    assert (key + [0] + rest)[|key| + 1..] == rest;
  }

  /** A tag chunk: a title, an artist, or a tag of its own. The genre of an album is not followed. */
  lemma TagSays(st: Loader, key: Bytes, val: Bytes, more: Bytes)
    requires IsText(key) && IsText(val) && |NamesOf(st).tags| <= 9
    ensures var st' := Apply(st, TAG, key + [0] + (val + [0] + more), 0);
            && st'.Some?
            && var n, n' := NamesOf(st), NamesOf(st'.value);
               && st'.value == WithNames(st, n').(beyond := st'.value.beyond)
               && (st'.value.beyond <==> st.beyond || (st.cur.None? && GenreKey(key)))
               && n'.title == (if TitleKey(key) then Some(val) else n.title)
               && n'.artist == (if ArtistKey(key) && !TitleKey(key) then Some(val) else n.artist)
               && (TitleKey(key) || ArtistKey(key) || GenreKey(key) ==> n'.tags == n.tags)
               && (!(TitleKey(key) || ArtistKey(key) || GenreKey(key)) ==>
                     forall k: Bytes :: TagValue(n'.tags, k)
                       == if Fold(k) == Fold(key) && HasRoom(n.tags, key) then Some(val) else TagValue(n.tags, k))
  {
    hide CString, Fold, TitleKey, ArtistKey, GenreKey, AddTag, TagValue, HasRoom;
    TagParts(key, val, more);
    forall k: Bytes
      ensures TagValue(AddTag(NamesOf(st).tags, key, val), k)
              == if Fold(k) == Fold(key) && HasRoom(NamesOf(st).tags, key) then Some(val)
                 else TagValue(NamesOf(st).tags, k)
    {
      AddTagSays(NamesOf(st).tags, key, val, k);
    }
  }

  /** A composer is a tag, unless it is the artist. */
  lemma ComposerSays(st: Loader, name: Bytes, more: Bytes)
    requires IsText(name) && |NamesOf(st).tags| <= 9
    ensures var st' := Apply(st, CNAME, name + [0] + more, 0);
            && st'.Some?
            && var n := NamesOf(st);
               if n.artist.Some? && Fold(n.artist.value) == Fold(name) then st'.value == st else
               && st'.value == WithNames(st, n.(tags := NamesOf(st'.value).tags))
               && forall k: Bytes :: TagValue(NamesOf(st'.value).tags, k)
                    == if Fold(k) == Fold(COMPOSER_KEY) && HasRoom(n.tags, COMPOSER_KEY) then Some(name)
                       else TagValue(n.tags, k)
  {
    hide CString, Fold, AddTag, TagValue, HasRoom;
    CStringStops(name, more);
    ComposerIsTag();
    forall k: Bytes
      ensures TagValue(AddTag(NamesOf(st).tags, COMPOSER_KEY, name), k)
              == if Fold(k) == Fold(COMPOSER_KEY) && HasRoom(NamesOf(st).tags, COMPOSER_KEY) then Some(name)
                 else TagValue(NamesOf(st).tags, k)
    {
      AddTagSays(NamesOf(st).tags, COMPOSER_KEY, name, k);
    }
  }

  lemma ComposerIsTag()
    ensures !TitleKey(COMPOSER_KEY) && !ArtistKey(COMPOSER_KEY) && !GenreKey(COMPOSER_KEY)
  {
    assert |Fold(COMPOSER_KEY)| == 8;
    assert |Fold(TITLE_KEY)| == |Fold(ALBUM_KEY)| == |Fold(GENRE_KEY)| == 5;
    assert |Fold(ARTIST_KEY)| == |Fold(AUTHOR_KEY)| == |Fold(FORMAT_KEY)| == 6;
  }

  // ---- Aliases.

  /** `name (alias)`. */
  function WithAlias(name: Bytes, alias: Bytes): Bytes {
    name + [0x20, 0x28] + alias + [0x29]
  }

  lemma {:induction false} OpeningIs(name: Bytes, j: nat, i: nat)
    requires 2 <= j <= i < |name| && name[j] == 0x28
    ensures Opening(name, i) == Some(j)
            <==> forall k :: j < k <= i ==> AkaChar(name[k]) && name[k] != 0x28
    decreases i
  {
    if j < i {
      OpeningIs(name, j, i - 1);
    }
  }

  /** A name has its last parenthesis there exactly if there is a name before it and an alias in it, of
      printable characters and without further parentheses. */
  lemma ParenthesisIs(name: Bytes, alias: Bytes)
    ensures Parenthesis(WithAlias(name, alias)) == Some(|name| + 1)
            <==> name != [] && alias != [] && forall k :: 0 <= k < |alias| ==> AkaChar(alias[k]) && alias[k] != 0x28
  {
    var all, j := WithAlias(name, alias), |name| + 1;
    assert all[j - 1] == 0x20 && all[j] == 0x28 && all[|all| - 1] == 0x29;
    assert forall k :: 0 <= k < |alias| ==> all[j + 1 + k] == alias[k];
    if name != [] && alias != [] {
      OpeningIs(all, j, |all| - 2);
      assert forall k :: j < k <= |all| - 2 ==> all[k] == alias[k - j - 1];
    }
  }

  /** A parenthesis that is found is that of an alias. */
  lemma ParenthesisFound(all: Bytes)
    requires Parenthesis(all).Some?
    ensures var i := Parenthesis(all).value; all == WithAlias(all[..i - 1], all[i + 1..|all| - 1])
  {
    var i := Parenthesis(all).value;
    assert all[i] == 0x28 && all[i - 1] == 0x20;
  }

  /** An artist with an alias in parentheses, and no tag that says one, is the artist without it, and
      the alias becomes a tag if there is room; only a name that starts with `unknow` stays. */
  lemma AliasSays(name: Bytes, alias: Bytes, tags: seq<Tag>)
    requires name != [] && alias != [] && forall k :: 0 <= k < |alias| ==> AkaChar(alias[k]) && alias[k] != 0x28
    requires |tags| <= 9 && TagValue(tags, AKA_KEY).None?
    ensures var all := WithAlias(name, alias);
            var a := DecodeArtist(all, tags);
            if |all| >= 6 && Fold(all[..6]) == Fold(Ascii("unknow")) then a == Artist(all, tags, None) else
            && a.name == name && a.alias == (if |tags| < 9 then Some(alias) else None)
            && forall k: Bytes :: TagValue(a.tags, k)
                 == if Fold(k) == Fold(AKA_KEY) && |tags| < 9 then Some(alias) else TagValue(tags, k)
  {
    hide TagValue, AddTag, Parenthesis, Fold;
    var all := WithAlias(name, alias);
    ParenthesisIs(name, alias);
    assert all[..|name|] == name && all[|name| + 2..|all| - 1] == alias;
    UnknownIs();
    forall k: Bytes
      ensures TagValue(AddTag(tags, AKA_KEY, alias), k)
              == if Fold(k) == Fold(AKA_KEY) && |tags| < 9 then Some(alias) else TagValue(tags, k)
    {
      AddTagSays(tags, AKA_KEY, alias, k);
    }
    AddTagSays(tags, AKA_KEY, alias, AKA_KEY);
  }

  lemma UnknownIs()
    ensures UNKNOWN == Ascii("unknow")
  {
  }

  // ---- The disk.

  /** The default track is the one announced, or the first if there is no such track. */
  lemma DefaultSays(st: Loader)
    requires Validate(st).Loaded?
    ensures var d := Validate(st).value;
            && |d.tracks| == |st.Tracks()|
            && d.defMus == if 0 <= st.defMus < |st.Tracks()| then st.defMus else 0
  {
    hide ValidTracks, FinishDisk, FirstInherited;
    TracksCount(st.Tracks(), 0, FirstInherited(st));
    var defMus := if st.defMus < 0 || st.defMus >= |st.Tracks()| then 0 else st.defMus;
    FinishKeeps(st, defMus, ValidTracks(st.Tracks(), 0, FirstInherited(st)).value);
  }

  lemma FinishKeeps(st: Loader, defMus: nat, tracks: seq<Track>)
    requires defMus < |tracks|
    ensures FinishDisk(st, defMus, tracks).defMus == defMus && FinishDisk(st, defMus, tracks).tracks == tracks
  {
    hide FirstInherited, AlbumArtist, AddTag, TagValue;
  }

  lemma {:induction false} TracksCount(ts: seq<RawTrack>, i: nat, inh: Inherited)
    ensures ValidTracks(ts, i, inh).Loaded? ==> |ValidTracks(ts, i, inh).value| == |ts|
    decreases |ts|
  {
    hide ValidParms, Guessable, ArtistOf;
    if ts != [] && Guessable(ts[0]) {
      var t := ts[0];
      var data := if t.data.Some? then Some(Data(i, t.data.value)) else inh.data;
      if data.Some? {
        var valid := ValidParms(t, inh, data.value);
        TracksCount(ts[1..], i + 1, Inherited(valid.title, valid.artist, ArtistOf(t, inh).alias, data));
      }
    }
  }

  /** What is read into the buffer: a file is an identification string, the base chunk that announces
      how much follows it, and at least that much. */
  lemma BufferIs(file: Bytes, x: Bytes)
    ensures ReadBuffer(file) == Some(x)
            <==> x != [] && 8 + |x| < 0x8000_0000
                 && exists v: int, more: Bytes ::
                      file == HeaderOf(v) + ([0x53, 0x43, 0x36, 0x38] + Poke(8 + |x|) + (x + more))
  {
    hide Poke, Peek, ReadHeader, HeaderOf;
    if ReadBuffer(file) == Some(x) {
      var v := HeaderIs(file);
      var b := file[|HeaderOf(v)|..];
      var more := BufferParts(b, x);
      assert file == HeaderOf(v) + ([0x53, 0x43, 0x36, 0x38] + Poke(8 + |x|) + (x + more));
    }
    if x != [] && 8 + |x| < 0x8000_0000 {
      if v: int, more: Bytes :| file == HeaderOf(v) + ([0x53, 0x43, 0x36, 0x38] + Poke(8 + |x|) + (x + more)) {
        BufferFrom(v, x, more);
      }
    }
  }

  lemma BufferParts(b: Bytes, x: Bytes) returns (more: Bytes)
    requires |b| >= 8 && b[..4] == [0x53, 0x43, 0x36, 0x38]
    requires var len := Signed32(Peek(b[4..])) - 8; 0 < len <= |b| - 8 && x == b[8..8 + len]
    ensures b == [0x53, 0x43, 0x36, 0x38] + Poke(8 + |x|) + (x + more)
    ensures x != [] && 8 + |x| < 0x8000_0000
  {
    more := b[8 + |x|..];
    PokePeek(b[4..]);
    hide Poke, Peek;
    assert Peek(b[4..]) == 8 + |x| && b[4..][..4] == b[4..8];
    assert b == b[..4] + b[4..8] + (x + more);
  }

  lemma BufferFrom(v: int, x: Bytes, more: Bytes)
    requires x != [] && 8 + |x| < 0x8000_0000
    ensures ReadBuffer(HeaderOf(v) + ([0x53, 0x43, 0x36, 0x38] + Poke(8 + |x|) + (x + more))) == Some(x)
  {
    hide Poke, Peek, ReadHeader, HeaderOf;
    var b := [0x53, 0x43, 0x36, 0x38] + Poke(8 + |x|) + (x + more);
    HeaderRead(v, b);
    assert (HeaderOf(v) + b)[|HeaderOf(v)|..] == b;
    assert b[..4] == [0x53, 0x43, 0x36, 0x38] && b[4..] == Poke(8 + |x|) + (x + more);
    PeekPoke(8 + |x|, x + more);
    assert b[8..8 + |x|] == x;
  }

  lemma HeaderIs(file: Bytes) returns (v: int)
    requires ReadHeader(file).Some?
    ensures ReadHeader(file).value == |HeaderOf(v)| && |HeaderOf(v)| <= |file| && file[..|HeaderOf(v)|] == HeaderOf(v)
  {
    v := if ReadHeader(file).value == 8 then 2 else 1;
    HeaderRead(v, []);
  }

  lemma PokePeek(b: Bytes)
    requires |b| >= 4
    ensures Poke(Peek(b)) == b[..4]
  {
    assert forall i :: 0 <= i < 4 ==> At(b, i) == b[i];
    var n := Peek(b);
    assert n / 256 == b[1] as int + b[2] as int * 256 + b[3] as int * 0x1_0000;
    assert n / 0x1_0000 == b[2] as int + b[3] as int * 256;
    assert n / 0x100_0000 == b[3];
  }
}
