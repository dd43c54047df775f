/** What every disk that was loaded satisfies, whatever the file was (file68/src/file68.c:585-807,
    1484-1763). */
module Sc68Validity {
  import opened Options
  import opened Sc68Format
  import opened Sc68Loader

  predicate BuiltIn(key: Bytes) {
    TitleKey(key) || ArtistKey(key) || GenreKey(key)
  }

  /** Custom tags: no name twice, and none that has a place of its own. */
  ghost predicate ValidTags(tags: seq<Tag>) {
    && |tags| <= MAX_TAGS
    && (forall i :: 0 <= i < |tags| ==> IsText(tags[i].key) && IsText(tags[i].val) && !BuiltIn(tags[i].key))
    && (forall i, j :: 0 <= i < j < |tags| ==> Fold(tags[i].key) != Fold(tags[j].key))
  }

  predicate Word32(n: int) { 0 <= n < 0x1_0000_0000 }

  ghost predicate ValidNames(n: Names) {
    && (n.title.Some? ==> IsText(n.title.value))
    && (n.artist.Some? ==> IsText(n.artist.value))
    && ValidTags(n.tags)
  }

  /** The numbers of a validated track. */
  predicate ValidNumbers(t: Track) {
    && Word32(t.d0) && Word32(t.a0) && Word32(t.frq) && Word32(t.firstFr) && Word32(t.loopsFr) && Word32(t.flags)
    && (if t.pic then t.a0 == SC68_LOADADDR else t.a0 > 0) && t.frq > 0
    && (t.firstFr > 0 ==> t.hasTime)
    && 0 <= t.loops < 0x8000_0000 && (!t.hasLoop ==> t.loopsFr == t.firstFr) && (t.loopsFr == 0 ==> t.loops == 1)
    && t.flags > 0 && TypFlags(t.flags) == t.flags
  }

  ghost predicate ValidTrack(t: Track) {
    && ValidNames(Names(Some(t.title), Some(t.artist), t.tags))
    && (t.replay.Some? ==> IsText(t.replay.value))
    && ValidNumbers(t)
  }

  /** An address has only one contents. */
  ghost predicate Shared(ts: seq<Track>) {
    forall i, j :: 0 <= i < j < |ts| ==> ts[i].data.addr == ts[j].data.addr ==> ts[i].data == ts[j].data
  }

  ghost predicate Valid(d: Disk) {
    && ValidNames(Names(Some(d.title), Some(d.artist), d.tags))
    && 1 <= |d.tracks| <= SC68_MAX_TRACK && d.defMus < |d.tracks|
    && (forall i :: 0 <= i < |d.tracks| ==> ValidTrack(d.tracks[i]))
    && Shared(d.tracks)
  }

  // ---- While the chunks are read.

  ghost predicate RawNumbers(t: RawTrack) {
    && Word32(t.d0) && Word32(t.a0) && Word32(t.frq) && Word32(t.firstMs) && Word32(t.firstFr) && Word32(t.loopsFr)
    && Word32(t.flags) && -1 <= t.loops < 0x8000_0000 && TypFlags(t.flags) == t.flags
  }

  ghost predicate RawValid(t: RawTrack) {
    && ValidNames(Names(t.title, t.artist, t.tags))
    && (t.replay.Some? ==> IsText(t.replay.value))
    && RawNumbers(t)
  }

  ghost predicate Reading(st: Loader) {
    && ValidNames(Names(st.title, st.artist, st.tags))
    && -0x8000_0000 <= st.defMus < 0x8000_0000
    && |st.Tracks()| <= SC68_MAX_TRACK
    && (forall i :: 0 <= i < |st.done| ==> RawValid(st.done[i]))
    && (st.cur.Some? ==> RawValid(st.cur.value))
  }

  lemma {:induction false} CStringIsText(b: Bytes)
    ensures IsText(CString(b))
  {
    if b != [] && b[0] != 0 {
      CStringIsText(b[1..]);
    }
  }

  /** A tag that is put takes the place of one of the same name, or comes last. */
  lemma {:induction false} PutTagPlace(tags: seq<Tag>, key: Bytes, val: Bytes)
    ensures (exists k :: 0 <= k < |tags| && Fold(tags[k].key) == Fold(key)
                         && PutTag(tags, key, val) == tags[k := tags[k].(val := val)])
            || ((forall k :: 0 <= k < |tags| ==> Fold(tags[k].key) != Fold(key))
                && PutTag(tags, key, val) == tags + [Tag(key, val)])
  {
    hide Fold;
    if tags == [] {
    } else if Fold(tags[0].key) == Fold(key) {
      assert PutTag(tags, key, val) == tags[0 := tags[0].(val := val)];
    } else {
      PutTagPlace(tags[1..], key, val);
      assert tags == [tags[0]] + tags[1..];
      if k :| 0 <= k < |tags| - 1 && Fold(tags[1..][k].key) == Fold(key)
              && PutTag(tags[1..], key, val) == tags[1..][k := tags[1..][k].(val := val)] {
        assert tags[1..][k] == tags[k + 1];
        PutBehind(tags[0], tags[1..], k, tags[k + 1].(val := val));
      } else {
        Behind(tags[0], tags[1..], Tag(key, val));
      }
    }
  }

  lemma PutBehind(t: Tag, tags: seq<Tag>, k: nat, u: Tag)
    requires k < |tags|
    ensures [t] + tags[k := u] == ([t] + tags)[k + 1 := u]
  {
  }

  lemma Behind(t: Tag, tags: seq<Tag>, u: Tag)
    ensures [t] + (tags + [u]) == [t] + tags + [u]
    ensures forall k :: 0 < k < |tags| + 1 ==> ([t] + tags)[k] == tags[k - 1]
  {
  }

  lemma AddTagValid(tags: seq<Tag>, key: Bytes, val: Bytes)
    requires ValidTags(tags) && IsText(key) && IsText(val) && !BuiltIn(key)
    ensures ValidTags(AddTag(tags, key, val))
  {
    hide Fold, IsText, PutTag, TitleKey, ArtistKey, GenreKey;
    PutTagPlace(tags, key, val);
  }

  lemma SetTagValid(n: Names, key: Bytes, val: Bytes)
    requires ValidNames(n) && IsText(key) && IsText(val)
    ensures ValidNames(SetTag(n, key, val))
  {
    hide IsText, AddTag, TitleKey, ArtistKey, GenreKey, ValidTags;
    if !BuiltIn(key) {
      AddTagValid(n.tags, key, val);
    }
  }

  lemma AkaKey()
    ensures IsText(AKA_KEY) && !BuiltIn(AKA_KEY)
  {
    assert |Fold(AKA_KEY)| == 3 && |Fold(TITLE_KEY)| == |Fold(ALBUM_KEY)| == |Fold(GENRE_KEY)| == 5;
    assert |Fold(ARTIST_KEY)| == |Fold(AUTHOR_KEY)| == |Fold(FORMAT_KEY)| == 6;
  }

  lemma {:induction false} TagValueIsText(tags: seq<Tag>, key: Bytes)
    requires ValidTags(tags)
    ensures TagValue(tags, key).Some? ==> IsText(TagValue(tags, key).value)
  {
    hide Fold, IsText, BuiltIn;
    if tags != [] {
      TagValueIsText(tags[1..], key);
    }
  }

  ghost predicate ValidArtist(a: Artist) {
    IsText(a.name) && ValidTags(a.tags) && (a.alias.Some? ==> IsText(a.alias.value))
  }

  lemma DecodeArtistValid(name: Bytes, tags: seq<Tag>)
    requires IsText(name) && ValidTags(tags)
    ensures ValidArtist(DecodeArtist(name, tags))
  {
    hide ValidTags, AddTag, TagValue, Parenthesis, Unknown;
    AkaKey();
    TagValueIsText(tags, AKA_KEY);
    if Strips(name, tags) {
      var i := Parenthesis(name).value;
      var alias := name[i + 1..|name| - 1];
      AddTagValid(tags, AKA_KEY, alias);
      TagValueIsText(AddTag(tags, AKA_KEY, alias), AKA_KEY);
    }
  }

  lemma TypFlagsStable(f: nat)
    requires Word32(f)
    ensures Word32(TypFlags(f)) && TypFlags(TypFlags(f)) == TypFlags(f)
  {
  }

  lemma ApplyTrackValid(t: RawTrack, k: Kind, b: Bytes, size: nat)
    requires RawValid(t) && size <= |b|
    ensures RawValid(ApplyTrack(t, k, b, size))
  {
    hide IsText, CString, Peek, ValidNames, TypFlags;
    CStringIsText(b);
    PeekRange(b);
    TypFlagsStable(Peek(b));
  }

  lemma PeekRange(b: Bytes)
    ensures Word32(Peek(b))
  {
  }

  lemma ComposerIsText()
    ensures IsText(COMPOSER_KEY)
  {
  }

  lemma WithNamesReading(st: Loader, n: Names)
    requires Reading(st) && ValidNames(n)
    ensures Reading(WithNames(st, n))
  {
    hide ValidNames, IsText, TypFlags;
  }

  lemma NamesReading(st: Loader)
    requires Reading(st)
    ensures ValidNames(NamesOf(st))
  {
    hide ValidNames, RawNumbers;
  }

  lemma DefaultReading(st: Loader, n: int)
    requires Reading(st) && -0x8000_0000 <= n < 0x8000_0000
    ensures Reading(st.(defMus := n))
  {
    hide ValidNames, RawValid;
  }

  lemma BlankValid()
    ensures RawValid(BLANK)
  {
  }

  lemma StartReading(st: Loader)
    requires Reading(st) && |st.Tracks()| < SC68_MAX_TRACK
    ensures Reading(st.(done := st.Tracks(), cur := Some(BLANK)))
  {
    BlankValid();
    hide ValidNames, RawValid;
  }

  lemma BeyondReading(st: Loader)
    requires Reading(st)
    ensures Reading(st.(beyond := true))
  {
    hide ValidNames, RawValid;
  }

  lemma ParmReading(st: Loader, k: Kind, b: Bytes, size: nat, beyond: bool)
    requires Reading(st) && st.cur.Some? && size <= |b|
    ensures Reading(st.(cur := Some(ApplyTrack(st.cur.value, k, b, size)), beyond := beyond))
  {
    hide ValidNames, RawValid, ApplyTrack;
    ApplyTrackValid(st.cur.value, k, b, size);
  }

  lemma NameReading(st: Loader, k: Kind, b: Bytes, size: int)
    requires Reading(st) && size <= |b| && k in {FNAME, MNAME, ANAME, CNAME, TAG}
    ensures Apply(st, k, b, size).Some? && Reading(Apply(st, k, b, size).value)
  {
    hide IsText, CString, SetTag, ValidNames, Fold, WithNames, NamesOf, Reading, GenreKey;
    var n := NamesOf(st);
    NamesReading(st);
    CStringIsText(b);
    match k
    case FNAME | MNAME =>
      NewTitle(n, CString(b));
      WithNamesReading(st, n.(title := Some(CString(b))));
    case ANAME =>
      NewArtist(n, CString(b));
      WithNamesReading(st, n.(artist := Some(CString(b))));
    case CNAME =>
      ComposerIsText();
      SetTagValid(n, COMPOSER_KEY, CString(b));
      WithNamesReading(st, SetTag(n, COMPOSER_KEY, CString(b)));
    case TAG =>
      var key := CString(b);
      var rest := if |key| < |b| then b[|key| + 1..] else [];
      CStringIsText(rest);
      SetTagValid(n, key, CString(rest));
      WithNamesReading(st, SetTag(n, key, CString(rest)));
      BeyondReading(WithNames(st, SetTag(n, key, CString(rest))));
  }

  lemma ApplyReading(st: Loader, k: Kind, b: Bytes, size: int)
    requires Reading(st) && size <= |b| && !(k == MUSIC && |st.Tracks()| == SC68_MAX_TRACK)
    ensures Apply(st, k, b, size).Some? ==> Reading(Apply(st, k, b, size).value)
  {
    TracksFit(st);
    hide CString, Peek, ApplyTrack, SetTag, Fold, WithNames, NamesOf, Reading, GenreKey;
    match k
    case DEFAULT =>
      PeekRange(b);
      DefaultReading(st, Signed32(Peek(b)));
    case MUSIC => StartReading(st);
    case FNAME | MNAME | ANAME | CNAME | TAG => NameReading(st, k, b, size);
    case BASE | EOF | OTHER =>
    case _ =>
      if st.cur.Some? {
        ParmReading(st, k, b, if size < 0 then 0 else size, st.beyond || (k == MDATA && size < 0));
      }
  }

  lemma TracksFit(st: Loader)
    requires Reading(st)
    ensures |st.Tracks()| <= SC68_MAX_TRACK
  {
  }

  lemma NewTitle(n: Names, s: Bytes)
    requires ValidNames(n) && IsText(s)
    ensures ValidNames(n.(title := Some(s)))
  {
  }

  lemma NewArtist(n: Names, s: Bytes)
    requires ValidNames(n) && IsText(s)
    ensures ValidNames(n.(artist := Some(s)))
  {
  }

  lemma TurnReading(b: Bytes, pos: nat, st: Loader)
    requires pos <= |b| && Reading(st)
    ensures var t := TurnAt(b, pos, st); !t.Broken? ==> Reading(t.st)
  {
    hide Reading, Apply, KindOf, Peek;
    if TurnAt(b, pos, st).On? {
      ApplyReading(st, KindOf(b[pos + 2], b[pos + 3]), b[pos + 8..], Signed32(Peek(b[pos + 4..])));
    }
  }

  lemma {:induction false} WalkReading(b: Bytes, pos: nat, st: Loader, seen: set<nat>)
    requires pos <= |b| && Reading(st) && |st.Tracks()| <= SC68_MAX_TRACK
    ensures Walk(b, pos, st, seen).Finished? ==> Reading(Walk(b, pos, st, seen).st)
    decreases SC68_MAX_TRACK - |st.Tracks()|, UpTo(|b|) - seen
  {
    hide Reading, TurnAt;
    TurnReading(b, pos, st);
    TurnTracks(b, pos, st);
    var t := TurnAt(b, pos, st);
    if pos !in seen && t.Running() {
      WalkReading(b, t.pos, t.st, SeenAfter(seen, pos, st, t.st));
    }
  }

  // ---- When the chunks have been read.

  lemma TypOne()
    ensures TypFlags(1) == 1
  {
  }

  lemma NoNameIsText()
    ensures IsText(N_A)
  {
  }

  lemma TimingValid(t: RawTrack)
    requires RawNumbers(t)
    ensures var m := TimingOf(t); Word32(m.frq) && Word32(m.firstFr) && Word32(m.loopsFr)
    ensures Guessable(t) ==> LoopsOf(t) < 0x8000_0000 && (TimingOf(t).loopsFr == 0 ==> LoopsOf(t) == 1)
  {
    hide TypFlags, MsOf, GuessLoops;
  }

  lemma ArtistOfValid(t: RawTrack, inh: Inherited)
    requires RawValid(t) && IsText(inh.artist) && (inh.alias.Some? ==> IsText(inh.alias.value))
    ensures ValidArtist(ArtistOf(t, inh))
  {
    hide ValidTags, IsText, AddTag, DecodeArtist, RawNumbers;
    if t.artist.Some? {
      DecodeArtistValid(t.artist.value, t.tags);
    } else if inh.alias.Some? {
      AkaKey();
      AddTagValid(t.tags, AKA_KEY, inh.alias.value);
    }
  }

  lemma ValidParmsValid(t: RawTrack, inh: Inherited, data: Data)
    requires RawValid(t) && Guessable(t)
    requires IsText(inh.title) && IsText(inh.artist) && (inh.alias.Some? ==> IsText(inh.alias.value))
    ensures ValidTrack(ValidParms(t, inh, data))
    ensures IsText(ValidParms(t, inh, data).title) && ValidParms(t, inh, data).data == data
  {
    TypOne();
    TimingValid(t);
    ArtistOfValid(t, inh);
    hide IsText, ValidTags, MsOf, TypFlags, ArtistOf, LoopsOf, Guessable;
  }

  /** Data is numbered by the track that brings it. */
  ghost predicate Numbered(ts: seq<Track>, i: nat, before: Option<Data>) {
    forall j :: 0 <= j < |ts| ==> ts[j].data.addr >= i || before == Some(ts[j].data)
  }

  lemma {:induction false} ValidTracksValid(ts: seq<RawTrack>, i: nat, inh: Inherited)
    requires forall j :: 0 <= j < |ts| ==> RawValid(ts[j])
    requires IsText(inh.title) && IsText(inh.artist) && (inh.alias.Some? ==> IsText(inh.alias.value))
    requires inh.data.Some? ==> inh.data.value.addr < i
    ensures var r := ValidTracks(ts, i, inh);
            r.Loaded? ==> |r.value| == |ts| && (forall j :: 0 <= j < |ts| ==> ValidTrack(r.value[j]))
                          && Numbered(r.value, i, inh.data) && Shared(r.value)
    decreases |ts|
  {
    hide RawValid, IsText, ValidTrack, Guessable, ArtistOf, LoopsOf, TimingOf;
    if ts != [] && Guessable(ts[0]) {
      var t := ts[0];
      var data := if t.data.Some? then Some(Data(i, t.data.value)) else inh.data;
      if data.Some? {
        var valid := ValidParms(t, inh, data.value);
        ValidParmsValid(t, inh, data.value);
        ArtistOfValid(t, inh);
        ValidTracksValid(ts[1..], i + 1, Inherited(valid.title, valid.artist, ArtistOf(t, inh).alias, data));
      }
    }
  }

  lemma FirstInheritedValid(st: Loader)
    requires Reading(st)
    ensures var inh := FirstInherited(st);
            IsText(inh.title) && IsText(inh.artist) && (inh.alias.Some? ==> IsText(inh.alias.value)) && inh.data == None
    ensures ValidTags(AlbumArtist(st).tags)
  {
    hide RawValid, ValidTags, IsText, DecodeArtist, TagValue;
    NoNameIsText();
    TagValueIsText(st.tags, AKA_KEY);
    if st.artist.Some? {
      DecodeArtistValid(st.artist.value, st.tags);
    }
  }

  lemma FinishDiskValid(st: Loader, defMus: nat, ts: seq<Track>)
    requires Reading(st) && defMus < |ts| && 1 <= |ts| <= SC68_MAX_TRACK && Shared(ts)
    requires forall j :: 0 <= j < |ts| ==> ValidTrack(ts[j])
    ensures Valid(FinishDisk(st, defMus, ts))
  {
    hide ValidTags, ValidNumbers, IsText, AddTag, TagValue, FirstInherited, AlbumArtist, Shared, Reading;
    FirstInheritedValid(st);
    AlbumArtistName(st);
    AkaKey();
    var alias := TagValue(ts[defMus].tags, AKA_KEY);
    TagValueIsText(ts[defMus].tags, AKA_KEY);
    if alias.Some? {
      AddTagValid(AlbumArtist(st).tags, AKA_KEY, alias.value);
    }
  }

  lemma AlbumArtistName(st: Loader)
    ensures FirstInherited(st).artist == AlbumArtist(st).name
  {
  }

  lemma ValidateValid(st: Loader)
    requires Reading(st)
    ensures Validate(st).Loaded? ==> Valid(Validate(st).value)
  {
    hide RawValid, ValidTracks, FirstInherited, FinishDisk, Valid, IsText, ValidNames;
    FirstInheritedValid(st);
    TracksReading(st);
    ValidTracksValid(st.Tracks(), 0, FirstInherited(st));
    if Validate(st).Loaded? {
      var defMus := if st.defMus < 0 || st.defMus >= |st.Tracks()| then 0 else st.defMus;
      FinishDiskValid(st, defMus, ValidTracks(st.Tracks(), 0, FirstInherited(st)).value);
    }
  }

  lemma TracksReading(st: Loader)
    requires Reading(st)
    ensures forall j :: 0 <= j < |st.Tracks()| ==> RawValid(st.Tracks()[j])
  {
    hide RawValid, ValidNames;
  }

  /** Whatever the file, a disk that loads is valid: strings end where they should, tags have
      distinct names of their own, numbers fit, loops agree with the loop length, and the data of a
      track is found by its address. */
  lemma LoadedValid(file: Bytes)
    ensures LoadFile(file).Loaded? ==> Valid(LoadFile(file).value)
  {
    hide Walk, Validate, Valid, ReadBuffer;
    if LoadFile(file).Loaded? {
      WalkReading(ReadBuffer(file).value, 0, NOTHING, {});
      ValidateValid(Walk(ReadBuffer(file).value, 0, NOTHING, {}).st);
    }
  }

  // ---- When validation divides by zero.

  /** Some track needs a guess and has no loop length; but without data for the first track only
      that one is looked at. */
  ghost predicate Traps(ts: seq<RawTrack>, hasData: bool) {
    exists i :: 0 <= i < |ts| && !Guessable(ts[i]) && (i == 0 || hasData || ts[0].data.Some?)
  }

  lemma {:induction false} TracksTrap(ts: seq<RawTrack>, i: nat, inh: Inherited)
    ensures ValidTracks(ts, i, inh).Trapped? <==> Traps(ts, inh.data.Some?)
    ensures ValidTracks(ts, i, inh).Refused? ==> ts != [] && inh.data == None && ts[0].data == None
    decreases |ts|
  {
    hide Guessable, ArtistOf, ValidParms;
    if ts != [] && Guessable(ts[0]) && (ts[0].data.Some? || inh.data.Some?) {
      var t := ts[0];
      var data := if t.data.Some? then Some(Data(i, t.data.value)) else inh.data;
      var valid := ValidParms(t, inh, data.value);
      TracksTrap(ts[1..], i + 1, Inherited(valid.title, valid.artist, ArtistOf(t, inh).alias, data));
      if Traps(ts, inh.data.Some?) {
        var k :| 0 <= k < |ts| && !Guessable(ts[k]);
        assert ts[1..][k - 1] == ts[k];
      }
      if Traps(ts[1..], true) {
        var k :| 0 <= k < |ts| - 1 && !Guessable(ts[1..][k]);
        assert ts[k + 1] == ts[1..][k];
      }
    }
  }

  /** Validation of an album without a genre of its own divides by zero if and only if some track
      needs a guess and has a loop of no milliseconds, and is looked at. */
  lemma ValidateTraps(st: Loader)
    requires !st.beyond
    ensures Validate(st).Trapped? <==> Traps(st.Tracks(), false)
  {
    hide Traps, ValidTracks, FinishDisk, AlbumArtist;
    TracksTrap(st.Tracks(), 0, FirstInherited(st));
    NoTraps(false);
  }

  lemma NoTraps(hasData: bool)
    ensures !Traps([], hasData)
  {
  }
}
