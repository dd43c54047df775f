/** What the chunks of a saved disk say when they are read: which fields of the album and of its
    tracks come back before validation, and which are left to it (file68/src/file68.c:1834-1945,
    2048-2129 against 1579-1740). */
module Sc68Saving {
  import opened Sequences
  import opened Options
  import opened Sc68Format
  import opened Sc68Loader
  import opened Sc68Delivery
  import opened Sc68Validity

  lemma DeliverOne(c: Chunk, st: Loader)
    requires Closed(c.kind, Padded(c.data)) && !(c.kind == MUSIC && |st.Tracks()| == SC68_MAX_TRACK)
    ensures Deliver([c], st) == Apply(st, c.kind, Padded(c.data), |Padded(c.data)|)
  {
    hide Apply, Closed, Padded;
    assert [c][1..] == [];
  }

  lemma NothingDelivered(st: Loader)
    ensures Deliver([], st) == Some(st)
  {
  }

  lemma TextPayload(s: Bytes)
    requires IsText(s)
    ensures 0 in Padded(s + [0]) && CString(Padded(s + [0])) == s
  {
    hide CString;
    var pad := if |s + [0]| % 2 == 0 then [] else [0];
    assert Padded(s + [0]) == s + [0] + pad;
    assert (s + [0] + pad)[|s|] == 0;
    CStringStops(s, pad);
  }

  /** The string that a text chunk leaves; an empty one is not written. */
  function Text(s: Bytes): Option<Bytes> {
    if s == [] then None else Some(s)
  }

  function OrElse<T>(a: Option<T>, b: Option<T>): Option<T> {
    if a.Some? then a else b
  }

  lemma TitleDelivered(k: Kind, s: Bytes, st: Loader)
    requires (k == FNAME || k == MNAME) && IsText(s)
    ensures Deliver(SaveString(k, s), st)
            == Some(WithNames(st, NamesOf(st).(title := OrElse(Text(s), NamesOf(st).title))))
  {
    if s != [] {
      TextPayload(s);
      DeliverOne(Chunk(k, s + [0]), st);
    }
  }

  lemma ArtistDelivered(s: Bytes, st: Loader)
    requires IsText(s)
    ensures Deliver(SaveString(ANAME, s), st)
            == Some(WithNames(st, NamesOf(st).(artist := OrElse(Text(s), NamesOf(st).artist))))
  {
    if s != [] {
      TextPayload(s);
      DeliverOne(Chunk(ANAME, s + [0]), st);
    }
  }

  // ---- Tags.

  /** The tags that are written: those with a name and a value. */
  function Written(tags: seq<Tag>): seq<Tag> {
    if tags == [] then [] else WrittenTag(tags[0]) + Written(tags[1..])
  }

  function WrittenTag(t: Tag): (r: seq<Tag>)
    ensures |r| <= 1
  {
    if t.key == [] || t.val == [] then [] else [t]
  }

  /** Tags after those that are there: all fit, and none replaces another. */
  ghost predicate Fresh(have: seq<Tag>, tags: seq<Tag>) {
    forall i, j :: 0 <= i < |have| && 0 <= j < |tags| ==> Fold(have[i].key) != Fold(tags[j].key)
  }

  lemma {:induction false} PutTagLast(have: seq<Tag>, t: Tag)
    requires Fresh(have, [t])
    ensures PutTag(have, t.key, t.val) == have + [t]
  {
    hide Fold;
    if have != [] {
      assert Fresh(have[1..], [t]);
      PutTagLast(have[1..], t);
      assert have + [t] == [have[0]] + (have[1..] + [t]);
      assert Fold(have[0].key) != Fold([t][0].key);
    }
  }

  lemma TagPayload(t: Tag)
    requires IsText(t.key) && IsText(t.val)
    ensures var p := Padded(t.key + [0] + t.val + [0]);
            Closed(TAG, p) && CString(p) == t.key && |t.key| < |p| && CString(p[|t.key| + 1..]) == t.val
  {
    hide CString;
    var all := t.key + [0] + t.val + [0];
    var pad := if |all| % 2 == 0 then [] else [0];
    var p, rest := Padded(all), t.val + [0] + pad;
    assert p == t.key + [0] + rest;
    assert p[|t.key|] == 0;
    assert p[|t.key| + 1..] == rest;
    assert rest[|t.val|] == 0;
    CStringStops(t.key, rest);
    CStringStops(t.val, pad);
  }

  lemma NamesWritten(st: Loader, n: Names, m: Names)
    ensures NamesOf(WithNames(st, n)) == n && WithNames(WithNames(st, n), m) == WithNames(st, m)
    ensures WithNames(st, NamesOf(st)) == st
  {
  }

  lemma TagDelivered(t: Tag, st: Loader)
    requires IsText(t.key) && IsText(t.val) && !BuiltIn(t.key)
    requires Fresh(NamesOf(st).tags, [t]) && |NamesOf(st).tags| < MAX_TAGS
    ensures Deliver(SaveTag(t), st) == Some(WithNames(st, NamesOf(st).(tags := NamesOf(st).tags + WrittenTag(t))))
  {
    hide CString, Fold, Padded, PutTag, WithNames, NamesOf, Deliver;
    var n := NamesOf(st);
    if t.key == [] || t.val == [] {
      assert n.(tags := n.tags + []) == n;
      NamesWritten(st, n, n);
      NothingDelivered(st);
    } else {
      TagPayload(t);
      DeliverOne(Chunk(TAG, t.key + [0] + t.val + [0]), st);
      PutTagLast(n.tags, t);
    }
  }

  lemma TagsFit(tags: seq<Tag>)
    requires ValidTags(tags)
    ensures |tags| <= MAX_TAGS
  {
  }

  lemma FreshStep(have: seq<Tag>, tags: seq<Tag>)
    requires tags != [] && ValidTags(tags) && Fresh(have, tags)
    ensures ValidTags(tags[1..]) && Fresh(have, [tags[0]]) && Fresh(have + WrittenTag(tags[0]), tags[1..])
    ensures IsText(tags[0].key) && IsText(tags[0].val) && !BuiltIn(tags[0].key)
  {
    hide Fold, IsText, BuiltIn;
    var more := have + WrittenTag(tags[0]);
    forall i, j | 0 <= i < |more| && 0 <= j < |tags[1..]|
      ensures Fold(more[i].key) != Fold(tags[1..][j].key)
    {
      assert tags[1..][j] == tags[j + 1];
      if i == |have| {
        assert Fold(tags[0].key) != Fold(tags[j + 1].key);
      } else {
        assert more[i] == have[i];
      }
    }
  }

  lemma TagsAfter(n: Names, xs: seq<Tag>, ys: seq<Tag>)
    ensures n.(tags := n.tags + xs).(tags := n.tags + xs + ys) == n.(tags := n.tags + (xs + ys))
  {
    assert n.tags + xs + ys == n.tags + (xs + ys);
  }

  lemma {:induction false} TagsDelivered(tags: seq<Tag>, st: Loader)
    requires ValidTags(tags) && Fresh(NamesOf(st).tags, tags) && |NamesOf(st).tags| + |tags| <= MAX_TAGS
    ensures Deliver(SaveTags(tags), st) == Some(WithNames(st, NamesOf(st).(tags := NamesOf(st).tags + Written(tags))))
    decreases |tags|
  {
    hide Fold, Deliver, IsText, BuiltIn, WithNames, NamesOf, Fresh, ValidTags, SaveTag, WrittenTag;
    var n := NamesOf(st);
    NamesWritten(st, n, n);
    if tags == [] {
      assert n.(tags := n.tags + []) == n;
      NothingDelivered(st);
    } else {
      var t := tags[0];
      var one := n.(tags := n.tags + WrittenTag(t));
      var all := n.(tags := n.tags + Written(tags));
      FreshStep(n.tags, tags);
      TagDelivered(t, st);
      NamesWritten(st, one, all);
      TagsDelivered(tags[1..], WithNames(st, one));
      TagsAfter(n, WrittenTag(t), Written(tags[1..]));
      DeliverThen(SaveTag(t), SaveTags(tags[1..]), st, WithNames(st, one), WithNames(st, all));
    }
  }

  // ---- Track parameters.

  predicate NumberKind(k: Kind) {
    k.D0? || k.AT? || k.FRQ? || k.FRAME? || k.LOOP? || k.LOOPFR? || k.TYP?
  }

  /** A number in its chunk. */
  function WithNumber(t: RawTrack, k: Kind, n: int): RawTrack
    requires Word32(n)
  {
    match k
    case D0 => t.(d0 := n)
    case AT => t.(a0 := n)
    case FRQ => t.(frq := n)
    case FRAME => t.(firstFr := if n >= 0x100_0000 then 0 else n)
    case LOOP => t.(loops := n)
    case LOOPFR => t.(loopsFr := n, hasLoop := true)
    case TYP => t.(flags := TypFlags(n))
    case _ => t
  }

  ghost predicate Current(st: Loader, t: RawTrack) { st.cur == Some(t) }

  lemma NumberDelivered(k: Kind, n: int, t: RawTrack, st: Loader)
    requires NumberKind(k) && Word32(n) && (k == LOOP ==> n < 0x8000_0000)
    requires Current(st, t)
    ensures Deliver(SaveNumber(k, n), st) == Some(st.(cur := Some(WithNumber(t, k, n))))
  {
    hide Peek, Poke, TypFlags, WithNames, NamesOf;
    PeekPoke(n, []);
    assert Padded(Poke(n)) == Poke(n) + [] == Poke(n);
    DeliverOne(Chunk(k, Poke(n)), st);
  }

  lemma NonZeroDelivered(k: Kind, n: int, t: RawTrack, st: Loader)
    requires NumberKind(k) && Word32(n) && (k == LOOP ==> n < 0x8000_0000)
    requires Current(st, t)
    ensures Deliver(SaveNonZero(k, n), st) == Some(st.(cur := Some(if n == 0 then t else WithNumber(t, k, n))))
  {
    hide SaveNumber, WithNumber;
    if n != 0 {
      NumberDelivered(k, n, t, st);
    }
  }

  lemma ReplayDelivered(s: Option<Bytes>, t: RawTrack, st: Loader)
    requires Current(st, t) && (s.Some? ==> IsText(s.value)) && t.replay == None
    ensures Deliver(SaveReplay(s), st) == Some(st.(cur := Some(t.(replay := if s == Some([]) then None else s))))
  {
    if s.Some? && s != Some([]) {
      TextPayload(s.value);
      DeliverOne(Chunk(REPLAY, s.value + [0]), st);
    }
  }

  lemma SfxDelivered(t: RawTrack, st: Loader)
    requires Current(st, t)
    ensures Deliver([Chunk(SFX, [])], st) == Some(st.(cur := Some(t.(sfx := true))))
  {
    DeliverOne(Chunk(SFX, []), st);
  }

  lemma DataDelivered(data: Data, before: Option<nat>, t: RawTrack, st: Loader)
    requires Current(st, t) && t.data == None
    ensures Deliver(SaveData(data, before), st)
            == Some(st.(cur := Some(t.(data := if before == Some(data.addr) then None else Some(Padded(data.bytes))))))
  {
    hide Padded;
    if before != Some(data.addr) {
      var p := Padded(data.bytes);
      DeliverOne(Chunk(MDATA, data.bytes), st);
      assert p[..|p|] == p;
    }
  }

  // ---- Whole tracks.

  /** What the chunks of a track say of it, after those of a track of this name, artist and data. */
  function Said(t: Track, title: Bytes, artist: Bytes, before: Option<nat>): RawTrack {
    RawTrack(if t.title == title then None else Text(t.title), if t.artist == artist then None else Text(t.artist),
             Written(t.tags), if t.replay == Some([]) then None else t.replay,
             t.d0, if t.pic then 0 else t.a0, if t.frq == 50 then 0 else t.frq,
             0, if t.hasTime && t.firstFr < 0x100_0000 then t.firstFr else 0,
             if t.hasLoop then t.loops else 0, if t.hasLoop then t.loopsFr else 0, t.hasLoop, t.sfx, t.flags,
             if before == Some(t.data.addr) then None else Some(Padded(t.data.bytes)))
  }

  lemma NamesDelivered(t: Track, title: Bytes, artist: Bytes, st: Loader)
    requires ValidTrack(t) && Current(st, BLANK)
    ensures var said := Said(t, title, artist, None);
            Deliver(SaveNames(t, title, artist), st)
            == Some(WithNames(st, Names(said.title, said.artist, Written(t.tags))))
  {
    hide ValidTags, ValidNumbers, IsText, Deliver, SaveString, SaveTags, WithNames, Written;
    var said := Said(t, title, artist, None);
    var n0 := NamesOf(st);
    var n1 := Names(said.title, None, []);
    var n2 := Names(said.title, said.artist, []);
    var n3 := Names(said.title, said.artist, Written(t.tags));
    var st1, st2 := WithNames(st, n1), WithNames(st, n2);
    assert n0 == Names(None, None, []);
    NamesWritten(st, n0, n0);
    NamesWritten(st, n1, n2);
    NamesWritten(st, n2, n3);
    NothingDelivered(st);
    NothingDelivered(st1);
    TitleDelivered(MNAME, t.title, st);
    ArtistDelivered(t.artist, st1);
    DeliverThen(SaveDiffer(MNAME, t.title, title), SaveDiffer(ANAME, t.artist, artist), st, st1, st2);
    TagsFit(t.tags);
    TagsDelivered(t.tags, st2);
    assert [] + Written(t.tags) == Written(t.tags);
    DeliverThen(SaveDiffer(MNAME, t.title, title) + SaveDiffer(ANAME, t.artist, artist), SaveTags(t.tags), st, st2,
                WithNames(st, n3));
  }

  lemma LoopDelivered(t: Track, r: RawTrack, st: Loader)
    requires ValidNumbers(t) && Current(st, r) && r.loops == 0 && r.loopsFr == 0 && !r.hasLoop
    ensures Deliver(SaveLoop(t), st)
            == Some(st.(cur := Some(SaidLoop(t, r))))
  {
    hide Deliver, TypFlags, SaveNonZero, SaveNumber;
    NothingDelivered(st);
    if t.hasLoop {
      NonZeroDelivered(LOOP, t.loops, r, st);
      var r1 := r.(loops := t.loops);
      var st1 := st.(cur := Some(r1));
      NumberDelivered(LOOPFR, t.loopsFr, r1, st1);
      DeliverThen(SaveNonZero(LOOP, t.loops), SaveNumber(LOOPFR, t.loopsFr), st, st1,
                  st.(cur := Some(r1.(loopsFr := t.loopsFr, hasLoop := true))));
    }
  }

  lemma StartDelivered(t: Track, r: RawTrack, st: Loader)
    requires ValidTrack(t) && Current(st, r) && r.replay == None && r.d0 == r.a0 == 0
    ensures Deliver(SaveStart(t), st)
            == Some(st.(cur := Some(r.(replay := if t.replay == Some([]) then None else t.replay, d0 := t.d0,
                                       a0 := if t.pic then 0 else t.a0))))
  {
    hide Deliver, ValidNames, IsText, SaveNonZero, SaveReplay, TypFlags;
    var a0 := if t.pic then 0 else t.a0;
    var r1 := r.(replay := if t.replay == Some([]) then None else t.replay);
    var r2 := r1.(d0 := t.d0);
    var st1, st2 := st.(cur := Some(r1)), st.(cur := Some(r2));
    ReplayDelivered(t.replay, r, st);
    NonZeroDelivered(D0, t.d0, r1, st1);
    DeliverThen(SaveReplay(t.replay), SaveNonZero(D0, t.d0), st, st1, st2);
    NonZeroDelivered(AT, a0, r2, st2);
    DeliverThen(SaveReplay(t.replay) + SaveNonZero(D0, t.d0), SaveNonZero(AT, a0), st, st2,
                st.(cur := Some(r2.(a0 := a0))));
  }

  lemma RateDelivered(t: Track, r: RawTrack, st: Loader)
    requires ValidTrack(t) && Current(st, r) && r.frq == r.firstFr == 0
    ensures Deliver(SaveRate(t), st)
            == Some(st.(cur := Some(r.(frq := if t.frq == 50 then 0 else t.frq,
                                       firstFr := if t.hasTime && t.firstFr < 0x100_0000 then t.firstFr else 0))))
  {
    hide Deliver, ValidNames, IsText, SaveNonZero, TypFlags;
    var frq := if t.frq == 50 then 0 else t.frq;
    var fr := if t.hasTime then t.firstFr else 0;
    var r4 := r.(frq := frq);
    var st4 := st.(cur := Some(r4));
    NonZeroDelivered(FRQ, frq, r, st);
    NonZeroDelivered(FRAME, fr, r4, st4);
    DeliverThen(SaveNonZero(FRQ, frq), SaveNonZero(FRAME, fr), st, st4,
                st.(cur := Some(r4.(firstFr := if fr >= 0x100_0000 then 0 else fr))));
  }

  /** A track when the chunks of its start and its rate have been read, and then those of its loop. */
  function SaidPlay(t: Track, r: RawTrack): RawTrack {
    r.(replay := if t.replay == Some([]) then None else t.replay, d0 := t.d0, a0 := if t.pic then 0 else t.a0,
       frq := if t.frq == 50 then 0 else t.frq,
       firstFr := if t.hasTime && t.firstFr < 0x100_0000 then t.firstFr else 0)
  }

  function SaidLoop(t: Track, r: RawTrack): RawTrack {
    if t.hasLoop then r.(loops := t.loops, loopsFr := t.loopsFr, hasLoop := true) else r
  }

  lemma PlayDelivered(t: Track, r: RawTrack, st: Loader)
    requires ValidTrack(t) && Current(st, r) && r.replay == None && r.d0 == r.a0 == r.frq == r.firstFr == 0
    ensures Deliver(SaveStart(t) + SaveRate(t), st) == Some(st.(cur := Some(SaidPlay(t, r))))
  {
    hide Deliver, ValidTrack, SaveStart, SaveRate;
    var r3 := r.(replay := if t.replay == Some([]) then None else t.replay, d0 := t.d0, a0 := if t.pic then 0
        else t.a0);
    var st3 := st.(cur := Some(r3));
    StartDelivered(t, r, st);
    RateDelivered(t, r3, st3);
    DeliverThen(SaveStart(t), SaveRate(t), st, st3, st.(cur := Some(SaidPlay(t, r))));
  }

  lemma FlagsDelivered(t: Track, r: RawTrack, st: Loader)
    requires ValidTrack(t) && Current(st, r)
    ensures Deliver(SaveNumber(TYP, t.flags), st) == Some(st.(cur := Some(r.(flags := t.flags))))
  {
    hide Deliver, ValidNames, IsText, SaveNumber, TypFlags;
    NumberDelivered(TYP, t.flags, r, st);
  }

  lemma ParmsDelivered(t: Track, r: RawTrack, st: Loader)
    requires ValidTrack(t) && Current(st, r) && r == BLANK.(title := r.title, artist := r.artist, tags := r.tags)
    ensures Deliver(SaveParms(t), st)
            == Some(st.(cur := Some(Said(t, [], [], Some(t.data.addr)).(title := r.title, artist := r.artist,
              tags := r.tags))))
  {
    ValidParts(t);
    hide Deliver, ValidTrack, ValidNumbers, SaveStart, SaveRate, SaveNumber, SaveLoop, Said, SaidPlay, SaidLoop;
    var r5 := SaidPlay(t, r);
    var r6 := SaidLoop(t, r5);
    var r7 := r6.(flags := t.flags);
    var st5, st6, st7 := st.(cur := Some(r5)), st.(cur := Some(r6)), st.(cur := Some(r7));
    SaidInTurn(t, r);
    PlayDelivered(t, r, st);
    LoopDelivered(t, r5, st5);
    DeliverThen(SaveStart(t) + SaveRate(t), SaveLoop(t), st, st5, st6);
    var c6 := SaveStart(t) + SaveRate(t) + SaveLoop(t);
    FlagsDelivered(t, r6, st6);
    DeliverThen(c6, SaveNumber(TYP, t.flags), st, st6, st7);
    var sfx: seq<Chunk> := if t.sfx then [Chunk(SFX, [])] else [];
    SfxDelivered(r7, st7);
    NothingDelivered(st7);
    DeliverThen(c6 + SaveNumber(TYP, t.flags), sfx, st, st7, st.(cur := Some(r7.(sfx := t.sfx))));
  }

  lemma ValidParts(t: Track)
    requires ValidTrack(t)
    ensures ValidNumbers(t)
  {
    hide ValidNames, ValidNumbers, IsText;
  }

  lemma SaidInTurn(t: Track, r: RawTrack)
    requires r == BLANK.(title := r.title, artist := r.artist, tags := r.tags)
    ensures var r5 := SaidPlay(t, r);
            && r5.loops == 0 && r5.loopsFr == 0 && !r5.hasLoop && !r5.sfx
            && SaidLoop(t, r5).(flags := t.flags, sfx := t.sfx)
               == Said(t, [], [], Some(t.data.addr)).(title := r.title, artist := r.artist, tags := r.tags)
    ensures !SaidLoop(t, SaidPlay(t, r)).sfx
  {
    hide Written, Padded;
  }

  /** A track from its first chunk to its last. */
  lemma TrackDelivered(t: Track, title: Bytes, artist: Bytes, before: Option<nat>, st: Loader)
    requires ValidTrack(t) && |st.Tracks()| < SC68_MAX_TRACK
    ensures Deliver(SaveTrack(t, title, artist, before), st)
            == Some(st.(done := st.Tracks(), cur := Some(Said(t, title, artist, before))))
  {
    hide Deliver, ValidTrack, SaveNames, SaveParms, SaveData, Written;
    var st1 := st.(done := st.Tracks(), cur := Some(BLANK));
    DeliverOne(Chunk(MUSIC, []), st);
    NamesDelivered(t, title, artist, st1);
    var said := Said(t, title, artist, before);
    var r2 := BLANK.(title := said.title, artist := said.artist, tags := said.tags);
    var st2 := st1.(cur := Some(r2));
    DeliverThen([Chunk(MUSIC, [])], SaveNames(t, title, artist), st, st1, st2);
    ParmsDelivered(t, r2, st2);
    var r3 := said.(data := None);
    var st3 := st1.(cur := Some(r3));
    DeliverThen([Chunk(MUSIC, [])] + SaveNames(t, title, artist), SaveParms(t), st, st2, st3);
    DataDelivered(t.data, before, r3, st3);
    DeliverThen([Chunk(MUSIC, [])] + SaveNames(t, title, artist) + SaveParms(t), SaveData(t.data, before), st, st3,
                st1.(cur := Some(said)));
  }

  function SaidAll(ts: seq<Track>, title: Bytes, artist: Bytes, before: Option<nat>): (r: seq<RawTrack>)
    ensures |r| == |ts|
    decreases |ts|
  {
    if ts == [] then [] else
    [Said(ts[0], title, artist, before)] + SaidAll(ts[1..], ts[0].title, ts[0].artist, Some(ts[0].data.addr))
  }

  lemma {:induction false} TracksDelivered(ts: seq<Track>, title: Bytes, artist: Bytes, before: Option<nat>, st: Loader)
    requires forall i :: 0 <= i < |ts| ==> ValidTrack(ts[i])
    requires |st.Tracks()| + |ts| <= SC68_MAX_TRACK
    ensures var end := Deliver(SaveTracks(ts, title, artist, before), st);
            end.Some? && end.value.Tracks() == st.Tracks() + SaidAll(ts, title, artist, before)
            && end.value == st.(done := end.value.done, cur := end.value.cur)
    decreases |ts|
  {
    hide Deliver, ValidTrack, SaveTrack, Said;
    if ts == [] {
      NothingDelivered(st);
    } else {
      var said := Said(ts[0], title, artist, before);
      var next := st.(done := st.Tracks(), cur := Some(said));
      var rest := SaveTracks(ts[1..], ts[0].title, ts[0].artist, Some(ts[0].data.addr));
      TrackDelivered(ts[0], title, artist, before, st);
      TracksDelivered(ts[1..], ts[0].title, ts[0].artist, Some(ts[0].data.addr), next);
      Joined(st.Tracks(), [said], SaidAll(ts[1..], ts[0].title, ts[0].artist, Some(ts[0].data.addr)));
      DeliverThen(SaveTrack(ts[0], title, artist, before), rest, st, next, Deliver(rest, next).value);
    }
  }

  // ---- The album, and everything.

  /** A name that is written: not empty, and not 'n/a'. */
  function Named(s: Bytes): Option<Bytes> {
    if NoName(s) then None else Text(s)
  }

  lemma AlbumNamesDelivered(d: Disk)
    requires IsText(d.title) && IsText(d.artist)
    ensures Deliver(SaveNoName(FNAME, d.title) + SaveNoName(ANAME, d.artist), NOTHING)
            == Some(NOTHING.(title := Named(d.title), artist := Named(d.artist)))
  {
    hide Deliver, IsText, SaveString, NoName;
    var st1 := NOTHING.(title := Named(d.title));
    NothingDelivered(NOTHING);
    NothingDelivered(st1);
    TitleDelivered(FNAME, d.title, NOTHING);
    ArtistDelivered(d.artist, st1);
    DeliverThen(SaveNoName(FNAME, d.title), SaveNoName(ANAME, d.artist), NOTHING, st1, st1.(artist := Named(d.artist)));
  }

  lemma DefaultDelivered(n: nat, st: Loader)
    requires n < 0x8000_0000 && st.defMus == 0
    ensures Deliver(SaveNonZero(DEFAULT, n), st) == Some(st.(defMus := n))
  {
    hide Deliver, Peek, Poke;
    NothingDelivered(st);
    if n != 0 {
      PeekPoke(n, []);
      assert Padded(Poke(n)) == Poke(n) + [] == Poke(n);
      DeliverOne(Chunk(DEFAULT, Poke(n)), st);
    }
  }

  lemma AlbumDelivered(d: Disk)
    requires Valid(d)
    ensures Deliver(SaveAlbum(d), NOTHING)
            == Some(Loader(Named(d.title), Named(d.artist), Written(d.tags), false, d.defMus, [], None))
  {
    hide Deliver, ValidTags, ValidTrack, Shared, IsText, SaveNoName, SaveNonZero, SaveTags, Named, Written;
    var st2 := NOTHING.(title := Named(d.title), artist := Named(d.artist));
    var st3 := st2.(defMus := d.defMus);
    AlbumNamesDelivered(d);
    DefaultDelivered(d.defMus, st2);
    var c2, c3 := SaveNoName(FNAME, d.title) + SaveNoName(ANAME, d.artist), SaveNonZero(DEFAULT, d.defMus);
    DeliverThen(c2, c3, NOTHING, st2, st3);
    TagsFit(d.tags);
    TagsDelivered(d.tags, st3);
    assert [] + Written(d.tags) == Written(d.tags);
    DeliverThen(c2 + c3, SaveTags(d.tags), NOTHING, st3, st3.(tags := Written(d.tags)));
  }

  /** All chunks of a disk. */
  lemma DiskDelivered(d: Disk)
    requires Valid(d)
    ensures var end := Deliver(DiskChunks(d), NOTHING);
            end.Some? && end.value.title == Named(d.title) && end.value.artist == Named(d.artist)
            && end.value.tags == Written(d.tags) && end.value.defMus == d.defMus && !end.value.beyond
            && end.value.Tracks() == SaidAll(d.tracks, d.title, d.artist, None)
  {
    hide Deliver, ValidNames, ValidTrack, Shared, SaveAlbum, SaveTracks, Named, Written, SaidAll;
    AlbumDelivered(d);
    var st := Deliver(SaveAlbum(d), NOTHING).value;
    TracksDelivered(d.tracks, d.title, d.artist, None, st);
    var chunks := SaveTracks(d.tracks, d.title, d.artist, None);
    DeliverThen(SaveAlbum(d), chunks, NOTHING, st, Deliver(chunks, st).value);
    assert [] + SaidAll(d.tracks, d.title, d.artist, None) == SaidAll(d.tracks, d.title, d.artist, None);
  }
}
