/** Saving a disk and loading it again (file68/src/file68.c:1955-2129 against 1484-1763 and
    585-807): when it loads, when the disk comes back as it was, and when not. */
module Sc68RoundTrip {
  import opened Options
  import opened Sequences
  import opened Sc68Format
  import opened Sc68Loader
  import opened Sc68Delivery
  import opened Sc68Validity
  import opened Sc68Saving

  // ---- The file.

  lemma HeaderRead(version: int, rest: Bytes)
    ensures ReadHeader(HeaderOf(version) + rest) == Some(|HeaderOf(version)|)
    ensures |HeaderOf(version)| % 2 == 0
  {
    var file := HeaderOf(version) + rest;
    assert |IDSTR_V1| == 56 && |IDSTR_V2| == 8;
    assert "SC68 Music-file "[6] == 'u';
    assert "SC68 M2"[6] == '2';
    assert IDSTR_V1[6] == 0x75 && IDSTR_V2[6] == 0x32;
    if version == 2 {
      assert file[..8] == IDSTR_V2;
      assert file[..8][6] != IDSTR_V1[..8][6];
    } else {
      assert file[..56] == IDSTR_V1;
      assert file[..8] == file[..56][..8];
    }
  }

  /** The length of a saved file is even, is the same in both passes, and is what the base chunk
      announces behind the identification string. */
  lemma SavedLength(version: int, d: Disk)
    ensures var header, file := HeaderOf(version), SaveFile(version, d);
            |file| % 2 == 0 && header <= file && |file| == |header| + |SaveBody(d, 0)|
            && file == header + SaveBody(d, |file| - |header|)
            && Peek(file[|header| + 4..]) == (|file| - |header|) % 0x1_0000_0000
  {
    hide Encode, EncodeAll, DiskChunks, Poke, Peek, ReadHeader, Ascii, HeaderOf, Padded;
    HeaderRead(version, []);
    var header, file := HeaderOf(version), SaveFile(version, d);
    var len := |SaveBody(d, 0)|;
    assert len % 2 == 0;
    var rest := EncodeAll(DiskChunks(d)) + Encode(Chunk(EOF, []));
    assert file == header + [0x53, 0x43, Letter0(BASE), Letter1(BASE)] + (Poke(len) + rest);
    assert file[|header| + 4..] == Poke(len) + rest;
    PeekPoke(len, rest);
  }

  /** What is read of a file behind its identification string and its base chunk. */
  lemma BufferRead(version: int, len: nat, rest: Bytes, more: Bytes)
    requires |rest| > 0 && len + len % 2 == 8 + |rest| < 0x8000_0000
    ensures ReadBuffer(HeaderOf(version) + (BaseChunk(len) + (rest + more))) == Some(rest)
  {
    hide Poke, Peek, ReadHeader, HeaderOf;
    var b := BaseChunk(len) + (rest + more);
    var file := HeaderOf(version) + b;
    HeaderRead(version, b);
    assert file[|HeaderOf(version)|..] == b;
    assert b[..4] == [0x53, 0x43, Letter0(BASE), Letter1(BASE)];
    assert b[4..] == Poke(len + len % 2) + (rest + more);
    PeekPoke(len + len % 2, rest + more);
    assert b[8..8 + |rest|] == rest;
  }

  /** A saved file is read to its last chunk, and validated from what its chunks say. */
  lemma LoadSaved(version: int, d: Disk)
    requires Valid(d) && |SaveBody(d, 0)| < 0x8000_0000
    ensures Deliver(DiskChunks(d), NOTHING).Some?
    ensures LoadFile(SaveFile(version, d)) == Validate(Deliver(DiskChunks(d), NOTHING).value)
  {
    hide EncodeAll, Encode, DiskChunks, HeaderOf, Valid, Walk, Deliver, Validate, ReadBuffer, BaseChunk;
    DiskDelivered(d);
    SavedLength(version, d);
    var len := |SaveFile(version, d)| - |HeaderOf(version)|;
    BodyParts(d, len);
    BodyParts(d, 0);
    hide SaveBody;
    BufferRead(version, len, EncodeAll(DiskChunks(d)) + Encode(Chunk(EOF, [])), []);
    WalkSaved(DiskChunks(d));
  }

  lemma BodyParts(d: Disk, len: nat)
    ensures var rest := EncodeAll(DiskChunks(d)) + Encode(Chunk(EOF, []));
            SaveBody(d, len) == BaseChunk(len) + (rest + []) && |SaveBody(d, len)| == 8 + |rest| && |rest| >= 8
  {
    hide EncodeAll, Encode, DiskChunks, BaseChunk;
    var chunks, end := EncodeAll(DiskChunks(d)), Encode(Chunk(EOF, []));
    Joined(BaseChunk(len), chunks, end);
    assert chunks + end + [] == chunks + end;
  }

  // ---- Tags and artists.

  ghost predicate KeepsTags(tags: seq<Tag>) {
    forall i :: 0 <= i < |tags| ==> tags[i].key != [] && tags[i].val != []
  }

  lemma {:induction false} WrittenAll(tags: seq<Tag>)
    ensures |Written(tags)| <= |tags| && KeepsTags(Written(tags))
    ensures Written(tags) == tags <==> KeepsTags(tags)
  {
    if tags != [] {
      WrittenAll(tags[1..]);
      assert tags == [tags[0]] + tags[1..];
      if KeepsTags(tags) {
        assert WrittenTag(tags[0]) == [tags[0]];
        assert KeepsTags(tags[1..]);
      }
      if Written(tags) == tags {
        assert |WrittenTag(tags[0])| == 1;
        assert Written(tags)[1..] == Written(tags[1..]);
      }
    }
  }

  lemma AddTagKeeps(tags: seq<Tag>, val: Bytes)
    requires KeepsTags(tags) && val != []
    ensures KeepsTags(AddTag(tags, AKA_KEY, val))
  {
    hide Fold, PutTag;
    PutTagPlace(tags, AKA_KEY, val);
  }

  lemma {:induction false} TagValueKeeps(tags: seq<Tag>, key: Bytes)
    requires KeepsTags(tags)
    ensures TagValue(tags, key) != Some([])
  {
    hide Fold;
    if tags != [] {
      assert KeepsTags(tags[1..]);
      TagValueKeeps(tags[1..], key);
    }
  }

  /** An artist that is written must not lose an alias when it is read; one that is left out must
      have the alias of those before it, if there is one. */
  ghost predicate KeepsArtist(t: Track, before: Bytes, alias: Option<Bytes>) {
    && t.artist != []
    && if t.artist == before then alias.Some? ==> AddTag(t.tags, AKA_KEY, alias.value) == t.tags
       else !Strips(t.artist, t.tags)
  }

  /** The alias that goes on to the next track. */
  function NextAlias(t: Track, before: Bytes, alias: Option<Bytes>): Option<Bytes> {
    if t.artist == before then alias else TagValue(t.tags, AKA_KEY)
  }

  ghost predicate KeepsArtists(ts: seq<Track>, before: Bytes, alias: Option<Bytes>) {
    ts != [] ==>
      KeepsArtist(ts[0], before, alias) && KeepsArtists(ts[1..], ts[0].artist, NextAlias(ts[0], before, alias))
  }

  /** A name that is read as it was written. */
  lemma DecodedKept(name: Bytes, tags: seq<Tag>)
    requires name != []
    ensures var a := DecodeArtist(name, Written(tags));
            && (a.name == name && a.tags == tags <==> KeepsTags(tags) && !Strips(name, tags))
            && (a.name == name && a.tags == tags ==> a.alias == TagValue(tags, AKA_KEY))
            && a.alias != Some([]) && a.name != []
  {
    hide Written, Fold, AddTag, TagValue, KeepsTags, Parenthesis, Unknown;
    WrittenAll(tags);
    TagValueKeeps(Written(tags), AKA_KEY);
    if Strips(name, Written(tags)) {
      var i := Parenthesis(name).value;
      assert |name[..i - 1]| < |name| && |name[i + 1..|name| - 1]| > 0;
      AddTagKeeps(Written(tags), name[i + 1..|name| - 1]);
      TagValueKeeps(AddTag(Written(tags), AKA_KEY, name[i + 1..|name| - 1]), AKA_KEY);
    }
  }

  /** A name that is inherited. */
  lemma InheritedKept(tags: seq<Tag>, alias: Option<Bytes>)
    requires alias != Some([])
    ensures var more := if alias.Some? then AddTag(Written(tags), AKA_KEY, alias.value) else Written(tags);
            more == tags <==> KeepsTags(tags) && (alias.Some? ==> AddTag(tags, AKA_KEY, alias.value) == tags)
  {
    hide Written, AddTag, KeepsTags;
    WrittenAll(tags);
    if alias.Some? {
      AddTagKeeps(Written(tags), alias.value);
    }
  }

  lemma ArtistKept(t: Track, title: Bytes, artist: Bytes, before: Option<nat>, inh: Inherited)
    requires (t.artist == artist ==> inh.artist == artist) && inh.artist != [] && inh.alias != Some([])
    ensures var a := ArtistOf(Said(t, title, artist, before), inh);
            && (a.name == t.artist && a.tags == t.tags <==> KeepsTags(t.tags) && KeepsArtist(t, artist, inh.alias))
            && (a.name == t.artist && a.tags == t.tags ==> a.alias == NextAlias(t, artist, inh.alias))
            && a.alias != Some([]) && a.name != []
  {
    hide Written, AddTag, TagValue, KeepsTags, DecodeArtist, Strips, Padded;
    if t.artist == artist || t.artist == [] {
      InheritedKept(t.tags, inh.alias);
    } else {
      DecodedKept(t.artist, t.tags);
    }
  }

  // ---- Which tracks come back.

  /** The time of a track as it is written and read. */
  function TimeWritten(t: Track): nat {
    if t.hasTime && t.firstFr < 0x100_0000 then t.firstFr else 0
  }

  /** The loops of a track, as they are written, can be told when they are read: a loop count of
      zero stands for none, and a guess divides by the length of the loop. */
  ghost predicate Reloads(t: Track) {
    t.frq > 0 ==>
      if t.hasLoop then
        t.loopsFr == 0 || t.loops != 0 || MsOf(TimeWritten(t), t.frq) >= MIN_TRACK_MS || MsOf(t.loopsFr, t.frq) > 0
      else TimeWritten(t) == 0 || MsOf(TimeWritten(t), t.frq) > 0
  }

  lemma SaidGuessable(t: Track, title: Bytes, artist: Bytes, before: Option<nat>)
    requires ValidNumbers(t)
    ensures Guessable(Said(t, title, artist, before)) <==> Reloads(t)
  {
    hide Written, TypFlags, Padded, MsOf;
    NoTime(t.frq);
  }

  lemma NoTime(frq: nat)
    requires frq > 0
    ensures MsOf(0, frq) == 0
  {
  }

  /** A loop count is written only for a track with a loop length, and only if it is not infinite. */
  ghost predicate KeepsLoops(t: Track) {
    || t.loopsFr == 0
    || (t.hasLoop && t.loops > 0)
    || (!t.hasLoop && t.frq > 0 && var ms := MsOf(t.firstFr, t.frq); ms > 0 && t.loops == GuessLoops(ms, ms))
  }

  /** No empty strings, a time that fits in 24 bits, and a loop count that is kept. */
  ghost predicate KeepsTrack(t: Track) {
    && t.title != [] && KeepsTags(t.tags) && t.replay != Some([])
    && (t.hasTime ==> 0 < t.firstFr < 0x100_0000)
    && KeepsLoops(t)
  }

  /** What is inherited from the track before is what the writer left out. */
  ghost predicate Inherits(t: Track, title: Bytes, artist: Bytes, inh: Inherited) {
    && (t.title == title ==> inh.title == title)
    && (t.artist == artist ==> inh.artist == artist)
    && inh.title != [] && inh.artist != [] && inh.alias != Some([])
  }

  lemma LoopsKept(t: Track, title: Bytes, artist: Bytes, before: Option<nat>)
    requires ValidNumbers(t) && Reloads(t) && (t.hasTime ==> 0 < t.firstFr < 0x100_0000)
    requires Guessable(Said(t, title, artist, before))
    ensures LoopsOf(Said(t, title, artist, before)) == t.loops <==> KeepsLoops(t)
  {
    hide Written, TypFlags, Padded, GuessLoops;
  }

  lemma ParmsKept(t: Track, title: Bytes, artist: Bytes, before: Option<nat>, inh: Inherited, data: Data)
    requires ValidTrack(t) && Inherits(t, title, artist, inh) && Reloads(t)
    ensures Guessable(Said(t, title, artist, before))
    ensures var said := Said(t, title, artist, before);
            && (ValidParms(said, inh, data) == t.(data := data) <==> KeepsTrack(t) && KeepsArtist(t, artist, inh.alias))
            && (ValidParms(said, inh, data) == t.(data := data)
               ==> ArtistOf(said, inh).alias == NextAlias(t, artist, inh.alias))
            && ArtistOf(said, inh).alias != Some([])
  {
    hide ValidNames, IsText, Written, KeepsTags, MsOf, TypFlags, Padded, Guessable, LoopsOf, KeepsLoops, Reloads,
      KeepsArtist, ArtistOf, NextAlias;
    SaidGuessable(t, title, artist, before);
    ArtistKept(t, title, artist, before, inh);
    var said := Said(t, title, artist, before);
    var m := TimingOf(said);
    if t.hasTime ==> 0 < t.firstFr < 0x100_0000 {
      LoopsKept(t, title, artist, before);
    }
    assert (if said.title.Some? then said.title.value else inh.title) == t.title <==> t.title != [];
    assert m.firstFr == t.firstFr && (said.firstFr > 0) == t.hasTime <==> (t.hasTime ==> 0 < t.firstFr < 0x100_0000);
  }

  /** The same track; its data may have been padded, and stand somewhere else. */
  ghost predicate SameTrack(t: Track, u: Track) {
    u == t.(data := u.data) && u.data.bytes == Padded(t.data.bytes)
  }

  /** What is needed to play the track, whatever happened to its names, its time and its loops. */
  ghost predicate SamePlay(t: Track, u: Track) {
    && u.data.bytes == Padded(t.data.bytes) && u.d0 == t.d0 && u.a0 == t.a0 && u.pic == t.pic && u.frq == t.frq
    && u.hasLoop == t.hasLoop && u.sfx == t.sfx && u.flags == t.flags
  }

  ghost predicate SameTracks(ts: seq<Track>, us: seq<Track>) {
    && |us| == |ts|
    && (forall i :: 0 <= i < |ts| ==> SameTrack(ts[i], us[i]))
    && (forall i :: 0 < i < |ts| ==>
          (us[i].data.addr == us[i - 1].data.addr <==> ts[i].data.addr == ts[i - 1].data.addr))
  }

  ghost predicate KeepsEach(ts: seq<Track>) {
    forall i :: 0 <= i < |ts| ==> KeepsTrack(ts[i])
  }

  ghost predicate KeepsTracks(ts: seq<Track>, artist: Bytes, alias: Option<Bytes>) {
    KeepsEach(ts) && KeepsArtists(ts, artist, alias)
  }

  /** The data that is inherited is that of the track before. */
  ghost predicate Carries(ts: seq<Track>, before: Option<nat>, data: Option<Data>) {
    && (before.Some? ==> data.Some?)
    && (data.Some? ==> forall i :: 0 <= i < |ts| && before == Some(ts[i].data.addr) ==>
                         data.value.bytes == Padded(ts[i].data.bytes))
  }

  lemma PlayKept(t: Track, title: Bytes, artist: Bytes, before: Option<nat>, inh: Inherited, data: Data)
    requires ValidTrack(t) && data.bytes == Padded(t.data.bytes) && Guessable(Said(t, title, artist, before))
    ensures var u := ValidParms(Said(t, title, artist, before), inh, data);
            u.data == data && SamePlay(t, u)
  {
    hide ValidNames, IsText, Written, MsOf, TypFlags, Padded, ArtistOf, LoopsOf, Guessable;
  }

  lemma SameSplit(ts: seq<Track>, us: seq<Track>)
    requires |us| == |ts| && ts != []
    ensures SameTracks(ts, us)
            <==> SameTrack(ts[0], us[0]) && SameTracks(ts[1..], us[1..])
                 && (|ts| > 1 ==> (us[1].data.addr == us[0].data.addr <==> ts[1].data.addr == ts[0].data.addr))
  {
    hide SameTrack;
    if SameTracks(ts[1..], us[1..]) && SameTrack(ts[0], us[0]) {
      forall i | 0 <= i < |ts|
        ensures SameTrack(ts[i], us[i])
      {
        assert i == 0 || SameTrack(ts[1..][i - 1], us[1..][i - 1]);
      }
      forall i | 1 < i < |ts|
        ensures us[i].data.addr == us[i - 1].data.addr <==> ts[i].data.addr == ts[i - 1].data.addr
      {
        assert us[i] == us[1..][i - 1] && us[i - 1] == us[1..][i - 2];
        assert ts[i] == ts[1..][i - 1] && ts[i - 1] == ts[1..][i - 2];
      }
    }
    if SameTracks(ts, us) {
      forall i | 0 <= i < |ts| - 1
        ensures SameTrack(ts[1..][i], us[1..][i])
      {
        assert SameTrack(ts[i + 1], us[i + 1]);
      }
    }
  }

  lemma KeepsSplit(ts: seq<Track>, artist: Bytes, alias: Option<Bytes>)
    requires ts != []
    ensures KeepsTracks(ts, artist, alias)
            <==> KeepsTrack(ts[0]) && KeepsArtist(ts[0], artist, alias)
                 && KeepsTracks(ts[1..], ts[0].artist, NextAlias(ts[0], artist, alias))
  {
    hide KeepsTrack, KeepsArtist;
    if KeepsTrack(ts[0]) && KeepsEach(ts[1..]) {
      forall i | 0 <= i < |ts|
        ensures KeepsTrack(ts[i])
      {
        assert i == 0 || ts[i] == ts[1..][i - 1];
      }
    }
  }

  lemma SamePadded(t: Track, u: Track)
    requires SamePlay(t, u)
    ensures SameTrack(t, u) <==> u == t.(data := u.data)
  {
  }

  lemma OneMoreKept(ts: seq<Track>, us: seq<Track>, artist: Bytes, alias: Option<Bytes>)
    requires |us| == |ts| > 0 && (SameTrack(ts[0], us[0]) <==> KeepsTrack(ts[0]) && KeepsArtist(ts[0], artist, alias))
    requires SameTrack(ts[0], us[0]) ==>
               (SameTracks(ts[1..], us[1..]) <==> KeepsTracks(ts[1..], ts[0].artist, NextAlias(ts[0], artist, alias)))
    requires |ts| > 1 ==> (us[1].data.addr == us[0].data.addr <==> ts[1].data.addr == ts[0].data.addr)
    ensures SameTracks(ts, us) <==> KeepsTracks(ts, artist, alias)
  {
    hide SameTrack, KeepsTrack, SameTracks, KeepsTracks, KeepsArtist;
    SameSplit(ts, us);
    KeepsSplit(ts, artist, alias);
  }

  lemma SaidData(t: Track, title: Bytes, artist: Bytes, before: Option<nat>)
    ensures Said(t, title, artist, before).data
            == if before == Some(t.data.addr) then None else Some(Padded(t.data.bytes))
  {
  }

  lemma KeptNames(t: Track, artist: Bytes, alias: Option<Bytes>)
    ensures KeepsTrack(t) && KeepsArtist(t, artist, alias) ==> t.title != [] && t.artist != [] && KeepsTags(t.tags)
  {
  }

  lemma InheritsKept(next: Track, t: Track, inh: Inherited)
    requires inh.title == t.title != [] && inh.artist == t.artist != [] && inh.alias != Some([])
    ensures Inherits(next, t.title, t.artist, inh)
  {
  }

  /** The tracks that were said are all valid again, and hold their data: the first always brings
      its own. They are the same tracks exactly if each of them can be kept. */
  lemma {:induction false} TracksKept(ts: seq<Track>, title: Bytes, artist: Bytes, before: Option<nat>, i: nat,
        inh: Inherited)
    requires Shared(ts) && forall k :: 0 <= k < |ts| ==> ValidTrack(ts[k]) && Reloads(ts[k])
    requires Carries(ts, before, inh.data) && (inh.data.Some? ==> inh.data.value.addr < i)
    ensures var us := ValidTracks(SaidAll(ts, title, artist, before), i, inh);
            && us.Loaded? && |us.value| == |ts|
            && (forall k :: 0 <= k < |ts| ==> SamePlay(ts[k], us.value[k]))
            && (ts != [] && Inherits(ts[0], title, artist, inh) ==>
                  (SameTracks(ts, us.value) <==> KeepsTracks(ts, artist, inh.alias)))
            && (ts != [] ==> (before == Some(ts[0].data.addr)
                              <==> inh.data.Some? && us.value[0].data.addr == inh.data.value.addr))
    decreases |ts|
  {
    hide ValidTrack, ValidParms, Said, Padded, KeepsTrack, KeepsTracks, SameTracks, Inherits, SamePlay, SameTrack,
      Reloads, Guessable, ArtistOf, KeepsArtist, NextAlias;
    if ts == [] {
    } else {
      var t := ts[0];
      var said := Said(t, title, artist, before);
      SaidData(t, title, artist, before);
      NumbersOf(t);
      SaidGuessable(t, title, artist, before);
      var data := if said.data.Some? then Data(i, said.data.value) else inh.data.value;
      var u := ValidParms(said, inh, data);
      PlayKept(t, title, artist, before, inh, data);
      ArtistName(said, inh, data);
      var next := Inherited(u.title, u.artist, ArtistOf(said, inh).alias, Some(data));
      TracksKept(ts[1..], t.title, t.artist, Some(t.data.addr), i + 1, next);
      var us := ValidTracks(SaidAll(ts, title, artist, before), i, inh).value;
      var rest := SaidAll(ts[1..], t.title, t.artist, Some(t.data.addr));
      assert us[0] == u && us[1..] == ValidTracks(rest, i + 1, next).value;
      if Inherits(t, title, artist, inh) {
        ParmsKept(t, title, artist, before, inh, data);
        KeptNames(t, artist, inh.alias);
        if |ts| > 1 && KeepsTrack(t) && KeepsArtist(t, artist, inh.alias) {
          InheritsKept(ts[1], t, next);
        }
        NothingKept(t.artist, NextAlias(t, artist, inh.alias));
        SamePadded(t, u);
        OneMoreKept(ts, us, artist, inh.alias);
      }
    }
  }

  lemma NumbersOf(t: Track)
    requires ValidTrack(t)
    ensures ValidNumbers(t)
  {
  }

  lemma ArtistName(t: RawTrack, inh: Inherited, data: Data)
    requires Guessable(t)
    ensures ValidParms(t, inh, data).artist == ArtistOf(t, inh).name
  {
  }

  lemma NothingKept(artist: Bytes, alias: Option<Bytes>)
    ensures SameTracks([], []) && KeepsTracks([], artist, alias)
  {
  }

  /** Where validation of what was said divides by zero. */
  lemma {:induction false} SaidTraps(ts: seq<Track>, title: Bytes, artist: Bytes, before: Option<nat>)
    requires forall k :: 0 <= k < |ts| ==> ValidTrack(ts[k])
    ensures forall k :: 0 <= k < |ts| ==> (Guessable(SaidAll(ts, title, artist, before)[k]) <==> Reloads(ts[k]))
    decreases |ts|
  {
    hide ValidTrack, Reloads, Guessable, Said;
    if ts != [] {
      var all := SaidAll(ts, title, artist, before);
      var rest := SaidAll(ts[1..], ts[0].title, ts[0].artist, Some(ts[0].data.addr));
      NumbersOf(ts[0]);
      SaidGuessable(ts[0], title, artist, before);
      SaidTraps(ts[1..], ts[0].title, ts[0].artist, Some(ts[0].data.addr));
      forall k | 0 <= k < |ts|
        ensures Guessable(all[k]) <==> Reloads(ts[k])
      {
        assert k == 0 || (all[k] == rest[k - 1] && ts[k] == ts[1..][k - 1]);
      }
    }
  }

  // ---- Which disks come back.

  ghost predicate SameDisk(d: Disk, e: Disk) {
    && e.title == d.title && e.artist == d.artist && e.tags == d.tags && e.defMus == d.defMus
    && SameTracks(d.tracks, e.tracks)
  }

  /** The album has names, and 'n/a' only for want of one. An artist that is written must not lose an
      alias; one that is not must be that of the default track, with its alias, and the first track
      must not rely on its spelling. */
  ghost predicate KeepsNames(d: Disk)
    requires d.defMus < |d.tracks|
  {
    && d.title != [] && (NoName(d.title) ==> d.title == N_A)
    && d.artist != []
    && if NoName(d.artist) then
         var t := d.tracks[d.defMus];
         var alias := TagValue(t.tags, AKA_KEY);
         && t.artist == d.artist && (alias.Some? ==> AddTag(d.tags, AKA_KEY, alias.value) == d.tags)
         && (d.tracks[0].artist == d.artist ==> d.artist == N_A)
       else !Strips(d.artist, d.tags)
  }

  ghost predicate KeepsDisk(d: Disk)
    requires d.defMus < |d.tracks|
  {
    KeepsNames(d) && KeepsTags(d.tags) && KeepsTracks(d.tracks, d.artist, TagValue(d.tags, AKA_KEY))
  }

  /** Every track can be told its loops when the disk is read again. */
  ghost predicate ReloadsDisk(d: Disk) {
    forall i :: 0 <= i < |d.tracks| ==> Reloads(d.tracks[i])
  }

  /** What the chunks of the disk leave for validation. */
  ghost predicate Says(st: Loader, d: Disk) {
    && st.title == Named(d.title) && st.artist == Named(d.artist) && st.tags == Written(d.tags) && !st.beyond
    && st.defMus == d.defMus && st.Tracks() == SaidAll(d.tracks, d.title, d.artist, None)
  }

  /** A first track that relies on a name which is not written loses it. */
  lemma FirstNamesLost(ts: seq<Track>, title: Bytes, artist: Bytes, inh: Inherited)
    requires ts != [] && inh.data == None && inh.title != [] && inh.artist != [] && inh.alias != Some([])
    requires !Inherits(ts[0], title, artist, inh)
    ensures var us := ValidTracks(SaidAll(ts, title, artist, None), 0, inh);
            us.Loaded? ==> us.value == [] || us.value[0].title != ts[0].title || us.value[0].artist != ts[0].artist
  {
    hide LoopsOf, Guessable, AddTag, Written, Padded, DecodeArtist;
  }

  lemma NoNameIs()
    ensures NoName(N_A) && !NoName([0x41]) && !NoName([0x42])
  {
    assert |Fold([0x41])| == 1 && |Fold([0x42])| == 1 && |Fold(N_A)| == 3;
  }

  lemma SameNames(t: Track, u: Track)
    ensures SameTrack(t, u) ==> u.title == t.title && u.artist == t.artist && u.tags == t.tags
  {
  }

  /** What the first track inherits is not empty, and is the album's own if that is kept. */
  lemma FirstKept(d: Disk, st: Loader)
    requires Says(st, d)
    ensures var inh := FirstInherited(st);
            && inh.title != [] && inh.artist != [] && inh.alias != Some([]) && inh.data == None
            && (inh.title == d.title <==> d.title != [] && (NoName(d.title) ==> d.title == N_A))
            && inh.artist == AlbumArtist(st).name
            && (Named(d.artist).Some? ==>
                  (AlbumArtist(st).name == d.artist && AlbumArtist(st).tags == d.tags
                   <==> KeepsTags(d.tags) && !Strips(d.artist, d.tags)))
            && (Named(d.artist).None? ==>
                  AlbumArtist(st) == Artist(N_A, Written(d.tags), TagValue(Written(d.tags), AKA_KEY)))
            && (KeepsTags(d.tags) && (Named(d.artist).Some? ==> !Strips(d.artist, d.tags)) ==>
                  inh.alias == TagValue(d.tags, AKA_KEY))
  {
    hide Written, KeepsTags, DecodeArtist, TagValue, Strips, SaidAll, NoName;
    NoNameIs();
    WrittenAll(d.tags);
    TagValueKeeps(Written(d.tags), AKA_KEY);
    if Named(d.artist).Some? {
      DecodedKept(d.artist, d.tags);
    }
  }

  /** The album, given tracks that came back. */
  lemma AlbumKept(d: Disk, st: Loader, us: seq<Track>)
    requires Says(st, d) && |us| == |d.tracks| && d.defMus < |us|
    requires us[d.defMus].artist == d.tracks[d.defMus].artist != [] && us[d.defMus].tags == d.tracks[d.defMus].tags
    requires KeepsTags(d.tracks[d.defMus].tags)
    requires d.tracks[0].artist == d.artist ==> FirstInherited(st).artist == d.artist
    ensures var e := FinishDisk(st, d.defMus, us);
            e.title == d.title && e.artist == d.artist && e.tags == d.tags <==> KeepsNames(d) && KeepsTags(d.tags)
  {
    hide Written, KeepsTags, TagValue, Strips, AddTag, SaidAll, FirstInherited, AlbumArtist, NoName;
    FirstKept(d, st);
    var alias := TagValue(us[d.defMus].tags, AKA_KEY);
    TagValueKeeps(us[d.defMus].tags, AKA_KEY);
    InheritedKept(d.tags, alias);
  }

  lemma FinishTracks(st: Loader, defMus: nat, us: seq<Track>)
    requires defMus < |us|
    ensures FinishDisk(st, defMus, us).tracks == us && FinishDisk(st, defMus, us).defMus == defMus
  {
    hide AddTag, TagValue, FirstInherited, AlbumArtist;
  }

  lemma KeptTrack(ts: seq<Track>, artist: Bytes, alias: Option<Bytes>, i: nat)
    requires KeepsTracks(ts, artist, alias) && i < |ts|
    ensures ts[i].artist != [] && KeepsTags(ts[i].tags)
    decreases i
  {
    hide KeepsTrack, KeepsTracks, KeepsArtist;
    KeepsSplit(ts, artist, alias);
    KeptNames(ts[0], artist, alias);
    if i > 0 {
      KeptTrack(ts[1..], ts[0].artist, NextAlias(ts[0], artist, alias), i - 1);
    }
  }

  lemma SameAt(ts: seq<Track>, us: seq<Track>, i: nat)
    requires SameTracks(ts, us) && i < |ts|
    ensures |us| == |ts| && us[i].title == ts[i].title && us[i].artist == ts[i].artist && us[i].tags == ts[i].tags
  {
    hide SameTrack;
    SameNames(ts[i], us[i]);
  }

  /** The disk is the same if and only if it can be kept. */
  lemma DiskKept(d: Disk, st: Loader, us: seq<Track>)
    requires Says(st, d) && |us| == |d.tracks| && d.defMus < |us|
    requires Inherits(d.tracks[0], d.title, d.artist, FirstInherited(st)) ==>
               (SameTracks(d.tracks, us) <==> KeepsTracks(d.tracks, d.artist, FirstInherited(st).alias))
    requires !Inherits(d.tracks[0], d.title, d.artist, FirstInherited(st)) ==>
               us[0].title != d.tracks[0].title || us[0].artist != d.tracks[0].artist
    ensures SameDisk(d, FinishDisk(st, d.defMus, us)) <==> KeepsDisk(d)
  {
    hide Says, SameTracks, KeepsTracks, FirstInherited, FinishDisk, KeepsTags, TagValue, AddTag, Strips, NoName;
    FirstKept(d, st);
    FinishTracks(st, d.defMus, us);
    NoNameIs();
    if SameTracks(d.tracks, us) {
      SameAt(d.tracks, us, 0);
      SameAt(d.tracks, us, d.defMus);
      KeptTrack(d.tracks, d.artist, FirstInherited(st).alias, d.defMus);
      AlbumKept(d, st, us);
    }
  }

  /** Validation of what the chunks of a disk said. */
  lemma ValidateSaid(d: Disk, st: Loader)
    requires Valid(d) && Says(st, d)
    ensures var e := Validate(st);
            && (e.Trapped? <==> !ReloadsDisk(d)) && (e.Loaded? || e.Trapped?)
            && (e.Loaded? ==>
                  && |e.value.tracks| == |d.tracks| && e.value.defMus == d.defMus
                  && (forall i :: 0 <= i < |d.tracks| ==> SamePlay(d.tracks[i], e.value.tracks[i]))
                  && (SameDisk(d, e.value) <==> KeepsDisk(d)))
  {
    hide ValidTrack, ValidNames, ValidTracks, SaidAll, Written, SamePlay, SameDisk, KeepsDisk, Guessable,
      FirstInherited, FinishDisk, Inherits, SameTracks, KeepsTracks, Shared, Reloads, Traps;
    SaidTraps(d.tracks, d.title, d.artist, None);
    ValidateTraps(st);
    FirstSaid(d);
    TrapsIs(st.Tracks());
    if ReloadsDisk(d) {
      var inh := FirstInherited(st);
      FirstKept(d, st);
      TracksKept(d.tracks, d.title, d.artist, None, 0, inh);
      var us := ValidTracks(st.Tracks(), 0, inh).value;
      FinishTracks(st, d.defMus, us);
      if !Inherits(d.tracks[0], d.title, d.artist, inh) {
        FirstNamesLost(d.tracks, d.title, d.artist, inh);
      }
      DiskKept(d, st, us);
    }
  }

  lemma FirstSaid(d: Disk)
    requires d.tracks != []
    ensures SaidAll(d.tracks, d.title, d.artist, None)[0].data.Some?
  {
    hide Written, Padded;
  }

  lemma TrapsIs(ts: seq<RawTrack>)
    requires ts != [] && ts[0].data.Some?
    ensures Traps(ts, false) <==> !forall i :: 0 <= i < |ts| ==> Guessable(ts[i])
  {
    hide Guessable;
  }

  /** A valid disk that is saved either loads again or makes the loader divide by zero; it loads if
      and only if the loops of every track, as they are written, can be told. It loads with the same
      number of tracks, the same default track, and everything that is needed to play them. It is
      the same disk if and only if its names and aliases are of the kind that is inherited, and its
      times and loop counts of the kind that is written. */
  lemma SaveLoad(version: int, d: Disk)
    requires Valid(d) && |SaveBody(d, 0)| < 0x8000_0000
    ensures var e := LoadFile(SaveFile(version, d));
            && (e.Loaded? <==> ReloadsDisk(d)) && (e.Loaded? || e.Trapped?)
            && (e.Loaded? ==>
                  && |e.value.tracks| == |d.tracks| && e.value.defMus == d.defMus
                  && (forall i :: 0 <= i < |d.tracks| ==> SamePlay(d.tracks[i], e.value.tracks[i]))
                  && (SameDisk(d, e.value) <==> KeepsDisk(d)))
  {
    hide Valid, SaveBody, SaveFile, LoadFile, Validate, Deliver, SamePlay, SameDisk, KeepsDisk, SaidAll, Written,
      ReloadsDisk;
    LoadSaved(version, d);
    DiskDelivered(d);
    ValidateSaid(d, Deliver(DiskChunks(d), NOTHING).value);
  }

  /** The same for every file that loads, whatever wrote it. */
  lemma LoadSaveLoad(file: Bytes, version: int)
    requires LoadFile(file).Loaded? && |SaveBody(LoadFile(file).value, 0)| < 0x8000_0000
    ensures var d := LoadFile(file).value;
            var e := LoadFile(SaveFile(version, d));
            && (e.Loaded? <==> ReloadsDisk(d)) && (e.Loaded? || e.Trapped?) && d.defMus < |d.tracks|
            && (e.Loaded? ==>
                  && |e.value.tracks| == |d.tracks| && e.value.defMus == d.defMus
                  && (forall i :: 0 <= i < |d.tracks| ==> SamePlay(d.tracks[i], e.value.tracks[i]))
                  && (SameDisk(d, e.value) <==> KeepsDisk(d)))
  {
    hide SaveBody, SaveFile, LoadFile, SamePlay, SameDisk, KeepsDisk, Shared, ValidTrack, ValidNames, ReloadsDisk;
    LoadedValid(file);
    SaveLoad(version, LoadFile(file).value);
  }

  // ---- Disks that do not come back.

  /** One track of one frame that loops for ever. */
  function Forever(frq: nat): Disk {
    Disk([0x41], [0x42], [], 0,
         [Track([0x41], [0x42], [], None, 0, SC68_LOADADDR, true, frq, true, 1, 0, 1, true, false, 1, Data(0, []))])
  }

  lemma ForeverParms(frq: nat)
    ensures var t := Forever(frq).tracks[0];
            SaveParms(t) == SaveNonZero(FRQ, if frq == 50 then 0 else frq)
                            + [Chunk(FRAME, Poke(1)), Chunk(LOOPFR, Poke(1)), Chunk(TYP, Poke(1))]
  {
    hide Poke;
    var t := Forever(frq).tracks[0];
    assert SaveStart(t) == [];
    assert SaveRate(t) == SaveNonZero(FRQ, if frq == 50 then 0 else frq) + [Chunk(FRAME, Poke(1))];
    assert SaveLoop(t) == [Chunk(LOOPFR, Poke(1))];
  }

  lemma ForeverChunks(frq: nat)
    ensures DiskChunks(Forever(frq))
            == [Chunk(FNAME, [0x41, 0]), Chunk(ANAME, [0x42, 0])]
               + ([Chunk(MUSIC, [])] + SaveParms(Forever(frq).tracks[0]) + [Chunk(MDATA, [])])
  {
    hide Poke, NoName, SaveParms;
    var d := Forever(frq);
    var t := d.tracks[0];
    NoNameIs();
    assert [0x41] + [0] == [0x41, 0] && [0x42] + [0] == [0x42, 0];
    assert d.tracks[1..] == [];
    assert SaveTags([]) == [];
    assert SaveAlbum(d) == [Chunk(FNAME, [0x41, 0]), Chunk(ANAME, [0x42, 0])];
    assert SaveTrack(t, [0x41], [0x42], None) == [Chunk(MUSIC, [])] + SaveParms(t) + [Chunk(MDATA, [])];
    assert SaveTracks(d.tracks, [0x41], [0x42], None) == SaveTrack(t, [0x41], [0x42], None);
  }

  lemma ForeverFits(frq: nat)
    ensures |SaveBody(Forever(frq), 0)| < 0x8000_0000
  {
    hide Poke, SaveParms, DiskChunks, Encode, EncodeAll;
    ForeverParms(frq);
    ForeverChunks(frq);
    var cs := DiskChunks(Forever(frq));
    assert |cs| <= 8 && forall i :: 0 <= i < |cs| ==> |cs[i].data| <= 4;
    EncodeLength(cs);
    assert |Encode(Chunk(EOF, []))| <= 10;
  }

  lemma ForeverValid(frq: nat)
    requires 0 < frq < 0x1_0000_0000
    ensures Valid(Forever(frq))
  {
  }

  /** The loop for ever is not written, and validation guesses a number of loops. */
  lemma ForeverLost(version: int)
    ensures var e := LoadFile(SaveFile(version, Forever(50)));
            e.Loaded? && !SameDisk(Forever(50), e.value)
  {
    hide SaveFile, LoadFile, SameDisk, Valid, SaveBody;
    var t := Forever(50).tracks[0];
    assert MsOf(1, 50) == 20;
    assert Reloads(t) && !KeepsTrack(t);
    ForeverFits(50);
    ForeverValid(50);
    SaveLoad(version, Forever(50));
  }

  /** At 2000 frames a second the loop takes no millisecond, and validation divides by it. */
  lemma ForeverTraps(version: int)
    ensures Valid(Forever(2000)) && LoadFile(SaveFile(version, Forever(2000))).Trapped?
  {
    hide SaveFile, LoadFile, SameDisk, Valid, SaveBody;
    var t := Forever(2000).tracks[0];
    assert MsOf(1, 2000) == 0;
    assert !Reloads(t);
    ForeverFits(2000);
    ForeverValid(2000);
    SaveLoad(version, Forever(2000));
  }

  lemma {:induction false} EncodeLength(cs: seq<Chunk>)
    requires forall i :: 0 <= i < |cs| ==> |cs[i].data| <= 4
    ensures |EncodeAll(cs)| <= 12 * |cs|
  {
    hide Poke, Letter0, Letter1, Encode;
    if cs != [] {
      EncodeLength(cs[1..]);
    }
  }

  // ---- Saving again.

  lemma {:induction false} EncodeAppend(xs: seq<Chunk>, ys: seq<Chunk>)
    ensures EncodeAll(xs + ys) == EncodeAll(xs) + EncodeAll(ys)
  {
    hide Encode;
    if xs == [] {
      assert xs + ys == ys;
    } else {
      assert (xs + ys)[1..] == xs[1..] + ys;
      EncodeAppend(xs[1..], ys);
    }
  }

  lemma DataAgain(x: Data, y: Data, before: Option<nat>, before': Option<nat>)
    requires y.bytes == Padded(x.bytes) && (before == Some(x.addr) <==> before' == Some(y.addr))
    ensures EncodeAll(SaveData(y, before')) == EncodeAll(SaveData(x, before))
  {
    hide Poke;
    assert Padded(y.bytes) == Padded(x.bytes);
    assert Encode(Chunk(MDATA, y.bytes)) == Encode(Chunk(MDATA, x.bytes));
    if before != Some(x.addr) {
      assert [Chunk(MDATA, x.bytes)][1..] == [] == [Chunk(MDATA, y.bytes)][1..];
    }
  }

  lemma SameLength(ts: seq<Track>, us: seq<Track>)
    requires SameTracks(ts, us)
    ensures |us| == |ts|
  {
  }

  lemma ParmsAgain(t: Track, u: Track, title: Bytes, artist: Bytes)
    requires SameTrack(t, u)
    ensures SaveNames(u, title, artist) == SaveNames(t, title, artist) && SaveParms(u) == SaveParms(t)
    ensures u.title == t.title && u.artist == t.artist
  {
  }

  lemma {:induction false} TracksAgain(ts: seq<Track>, us: seq<Track>, title: Bytes, artist: Bytes,
                                       before: Option<nat>, before': Option<nat>)
    requires SameTracks(ts, us)
    requires ts != [] ==> (before == Some(ts[0].data.addr) <==> before' == Some(us[0].data.addr))
    ensures EncodeAll(SaveTracks(us, title, artist, before')) == EncodeAll(SaveTracks(ts, title, artist, before))
    decreases |ts|
  {
    hide EncodeAll, Encode, SaveData, SaveNames, SaveParms, SameTracks, Padded;
    SameLength(ts, us);
    if ts == [] {
    } else {
      SameSplit(ts, us);
      var t, u := ts[0], us[0];
      var front := [Chunk(MUSIC, [])] + SaveNames(t, title, artist) + SaveParms(t);
      ParmsAgain(t, u, title, artist);
      DataAgain(t.data, u.data, before, before');
      TracksAgain(ts[1..], us[1..], t.title, t.artist, Some(t.data.addr), Some(u.data.addr));
      EncodeAppend(front, SaveData(t.data, before));
      EncodeAppend(front, SaveData(u.data, before'));
      EncodeAppend(SaveTrack(t, title, artist, before), SaveTracks(ts[1..], t.title, t.artist, Some(t.data.addr)));
      EncodeAppend(SaveTrack(u, title, artist, before'), SaveTracks(us[1..], t.title, t.artist, Some(u.data.addr)));
    }
  }

  /** A disk that came back is saved as the same file again. */
  lemma SaveAgain(version: int, d: Disk, e: Disk)
    requires SameDisk(d, e)
    ensures SaveFile(version, e) == SaveFile(version, d)
  {
    hide EncodeAll, Encode, SaveTracks, SameTracks;
    TracksAgain(d.tracks, e.tracks, d.title, d.artist, None, None);
    EncodeAppend(SaveAlbum(d), SaveTracks(d.tracks, d.title, d.artist, None));
    EncodeAppend(SaveAlbum(e), SaveTracks(e.tracks, d.title, d.artist, None));
    assert SaveAlbum(e) == SaveAlbum(d);
    assert EncodeAll(DiskChunks(e)) == EncodeAll(DiskChunks(d));
    forall len: nat
      ensures SaveBody(e, len) == SaveBody(d, len)
    {
    }
  }
}
