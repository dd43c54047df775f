/** The writer and the reader of sc68 files as they work: one writes chunks to a stream, the other
    fills a disk in (file68/src/file68.c:1805-2129, 1484-1763, 585-807). */
module Sc68Files {
  import opened Sequences
  import opened Options
  import opened Sc68Format
  import opened Sc68Loader
  import Sc68RoundTrip

  /** An output stream; the null stream only counts. */
  class Stream {
    const counting: bool
    var length: nat
    var bytes: Bytes

    constructor (counting: bool)
      ensures length == 0 && bytes == [] && this.counting == counting
    {
      this.counting := counting;
      length, bytes := 0, [];
    }

    /** What has been written since. */
    twostate predicate Wrote(data: Bytes)
      reads this
    {
      && length == old(length) + |data|
      && bytes == if counting then old(bytes) else old(bytes) + data
    }

    method Write(data: Bytes)
      modifies this
      ensures Wrote(data)
    {
      length := length + |data|;
      if !counting {
        bytes := bytes + data;
      }
    }

    /** save_chunk; the base chunk is the one that has a size but no data. */
    method SaveChunk(k: Kind, data: Bytes)
      modifies this
      ensures Wrote(EncodeAll([Chunk(k, data)]))
    {
      hide Poke, Letter0, Letter1, EncodeAll;
      EncodeOne(Chunk(k, data));
      var align := |data| % 2;
      Write([0x53, 0x43, Letter0(k), Letter1(k)] + Poke(|data| + align));
      if |data| > 0 {
        Write(data);
        if align == 1 {
          Write([0]);
        }
      }
    }

    /** save_string. */
    method SaveText(k: Kind, s: Bytes)
      modifies this
      ensures Wrote(EncodeAll(SaveString(k, s)))
    {
      hide EncodeAll;
      EncodeNothing();
      if |s| > 0 {
        SaveChunk(k, s + [0]);
      }
    }

    /** save_noname. */
    method SaveNamed(k: Kind, s: Bytes)
      modifies this
      ensures Wrote(EncodeAll(SaveNoName(k, s)))
    {
      hide EncodeAll, SaveString, NoName;
      EncodeNothing();
      if !NoName(s) {
        SaveText(k, s);
      }
    }

    /** save_differstr. */
    method SaveDifferent(k: Kind, s: Bytes, before: Bytes)
      modifies this
      ensures Wrote(EncodeAll(SaveDiffer(k, s, before)))
    {
      hide EncodeAll, SaveString;
      EncodeNothing();
      if s != before {
        SaveText(k, s);
      }
    }

    /** save_nonzero. */
    method SaveNonZeroNumber(k: Kind, n: int)
      modifies this
      ensures Wrote(EncodeAll(SaveNonZero(k, n)))
    {
      hide EncodeAll, Poke;
      EncodeNothing();
      if n != 0 {
        SaveChunk(k, Poke(n));
      }
    }

    method SaveOneTag(t: Tag)
      modifies this
      ensures Wrote(EncodeAll(SaveTag(t)))
    {
      hide EncodeAll;
      EncodeNothing();
      if |t.key| > 0 && |t.val| > 0 {
        SaveChunk(TAG, t.key + [0] + t.val + [0]);
      }
    }

    /** save_tags. */
    method SaveAllTags(tags: seq<Tag>)
      modifies this
      ensures Wrote(EncodeAll(SaveTags(tags)))
    {
      hide EncodeAll, SaveTag;
      ghost var sent: Bytes := [];
      var i := 0;
      while i < |tags|
        invariant 0 <= i <= |tags|
        invariant Wrote(sent)
        invariant EncodeAll(SaveTags(tags)) == sent + EncodeAll(SaveTags(tags[i..]))
      {
        ghost var here := EncodeAll(SaveTag(tags[i]));
        TagsFrom(tags, i);
        SaveOneTag(tags[i]);
        Joined(old(bytes), sent, here);
        Joined(sent, here, EncodeAll(SaveTags(tags[i + 1..])));
        sent := sent + here;
        i := i + 1;
      }
      EncodeNothing();
    }

    method SaveTrackReplay(s: Option<Bytes>)
      modifies this
      ensures Wrote(EncodeAll(SaveReplay(s)))
    {
      hide EncodeAll, SaveString;
      EncodeNothing();
      if s.Some? {
        SaveText(REPLAY, s.value);
      }
    }

    /** The first play parameters of a track: replay, d0 and load address. */
    method SaveTrackStart(t: Track)
      modifies this
      ensures Wrote(EncodeAll(SaveStart(t)))
    {
      hide EncodeAll, SaveReplay, SaveNonZero;
      var a0 := if t.pic then 0 else t.a0;
      ghost var e1, e2 := EncodeAll(SaveReplay(t.replay)), EncodeAll(SaveNonZero(D0, t.d0));
      ghost var e3 := EncodeAll(SaveNonZero(AT, a0));
      SaveTrackReplay(t.replay);
      SaveNonZeroNumber(D0, t.d0);
      Joined(old(bytes), e1, e2);
      SaveNonZeroNumber(AT, a0);
      Joined(old(bytes), e1 + e2, e3);
      Encoded3(SaveReplay(t.replay), SaveNonZero(D0, t.d0), SaveNonZero(AT, a0));
    }

    /** Its rate and time. */
    method SaveTrackRate(t: Track)
      modifies this
      ensures Wrote(EncodeAll(SaveRate(t)))
    {
      hide EncodeAll, Poke, SaveNonZero;
      var frq, fr := if t.frq == 50 then 0 else t.frq, if t.hasTime then t.firstFr else 0;
      SaveNonZeroNumber(FRQ, frq);
      SaveNonZeroNumber(FRAME, fr);
      Joined(old(bytes), EncodeAll(SaveNonZero(FRQ, frq)), EncodeAll(SaveNonZero(FRAME, fr)));
      Sc68RoundTrip.EncodeAppend(SaveNonZero(FRQ, frq), SaveNonZero(FRAME, fr));
    }

    /** Its loop. */
    method SaveTrackLoop(t: Track)
      modifies this
      ensures Wrote(EncodeAll(SaveLoop(t)))
    {
      hide EncodeAll, Poke, SaveNonZero;
      EncodeNothing();
      if t.hasLoop {
        SaveNonZeroNumber(LOOP, t.loops);
        SaveChunk(LOOPFR, Poke(t.loopsFr));
        Joined(old(bytes), EncodeAll(SaveNonZero(LOOP, t.loops)), EncodeAll(SaveNumber(LOOPFR, t.loopsFr)));
        Sc68RoundTrip.EncodeAppend(SaveNonZero(LOOP, t.loops), SaveNumber(LOOPFR, t.loopsFr));
      }
    }

    /** All of its play parameters. */
    method SaveTrackParms(t: Track)
      modifies this
      ensures Wrote(EncodeAll(SaveParms(t)))
    {
      hide EncodeAll, Poke, SaveStart, SaveRate, SaveLoop;
      ghost var e1, e2, e3 := EncodeAll(SaveStart(t)), EncodeAll(SaveRate(t)), EncodeAll(SaveLoop(t));
      ghost var sfx: seq<Chunk> := if t.sfx then [Chunk(SFX, [])] else [];
      ghost var e4, e5 := EncodeAll(SaveNumber(TYP, t.flags)), EncodeAll(sfx);
      EncodeNothing();
      SaveTrackStart(t);
      SaveTrackRate(t);
      Joined(old(bytes), e1, e2);
      SaveTrackLoop(t);
      Joined(old(bytes), e1 + e2, e3);
      SaveChunk(TYP, Poke(t.flags));
      Joined(old(bytes), e1 + e2 + e3, e4);
      if t.sfx {
        SaveChunk(SFX, []);
      }
      Joined(old(bytes), e1 + e2 + e3 + e4, e5);
      Encoded3(SaveStart(t), SaveRate(t), SaveLoop(t));
      Encoded3(SaveStart(t) + SaveRate(t) + SaveLoop(t), SaveNumber(TYP, t.flags), sfx);
    }

    /** The names and tags of a track. */
    method SaveTrackNames(t: Track, title: Bytes, artist: Bytes)
      modifies this
      ensures Wrote(EncodeAll(SaveNames(t, title, artist)))
    {
      hide EncodeAll, SaveTags, SaveDiffer;
      ghost var e1, e2 := EncodeAll(SaveDiffer(MNAME, t.title, title)), EncodeAll(SaveDiffer(ANAME, t.artist, artist));
      SaveDifferent(MNAME, t.title, title);
      SaveDifferent(ANAME, t.artist, artist);
      Joined(old(bytes), e1, e2);
      SaveAllTags(t.tags);
      Joined(old(bytes), e1 + e2, EncodeAll(SaveTags(t.tags)));
      Encoded3(SaveDiffer(MNAME, t.title, title), SaveDiffer(ANAME, t.artist, artist), SaveTags(t.tags));
    }

    /** One turn of the loop over the tracks. */
    method SaveOneTrack(t: Track, title: Bytes, artist: Bytes, data: Option<nat>)
      modifies this
      ensures Wrote(EncodeAll(SaveTrack(t, title, artist, data)))
    {
      hide EncodeAll, SaveNames, SaveParms;
      ghost var e1, e2 := EncodeAll([Chunk(MUSIC, [])]), EncodeAll(SaveNames(t, title, artist));
      ghost var e3, e4 := EncodeAll(SaveParms(t)), EncodeAll(SaveData(t.data, data));
      EncodeNothing();
      SaveChunk(MUSIC, []);
      SaveTrackNames(t, title, artist);
      Joined(old(bytes), e1, e2);
      SaveTrackParms(t);
      Joined(old(bytes), e1 + e2, e3);
      if data != Some(t.data.addr) {
        SaveChunk(MDATA, t.data.bytes);
      }
      Joined(old(bytes), e1 + e2 + e3, e4);
      Encoded3([Chunk(MUSIC, [])], SaveNames(t, title, artist), SaveParms(t));
      Sc68RoundTrip.EncodeAppend([Chunk(MUSIC, [])] + SaveNames(t, title, artist) + SaveParms(t),
        SaveData(t.data, data));
    }

    /** The album. */
    method SaveDiskNames(d: Disk)
      modifies this
      ensures Wrote(EncodeAll(SaveAlbum(d)))
    {
      hide EncodeAll, SaveTags, SaveNoName, SaveNonZero;
      ghost var c1, c2, c3 := SaveNoName(FNAME, d.title), SaveNoName(ANAME, d.artist), SaveNonZero(DEFAULT, d.defMus);
      SaveNamed(FNAME, d.title);
      SaveNamed(ANAME, d.artist);
      Joined(old(bytes), EncodeAll(c1), EncodeAll(c2));
      SaveNonZeroNumber(DEFAULT, d.defMus);
      Joined(old(bytes), EncodeAll(c1) + EncodeAll(c2), EncodeAll(c3));
      SaveAllTags(d.tags);
      Joined(old(bytes), EncodeAll(c1) + EncodeAll(c2) + EncodeAll(c3), EncodeAll(SaveTags(d.tags)));
      Encoded3(c1, c2, c3);
      Sc68RoundTrip.EncodeAppend(c1 + c2 + c3, SaveTags(d.tags));
    }

    /** The loop over the tracks. */
    method SaveAllTracks(ts: seq<Track>, title0: Bytes, artist0: Bytes)
      modifies this
      ensures Wrote(EncodeAll(SaveTracks(ts, title0, artist0, None)))
    {
      hide EncodeAll, SaveTrack;
      var title, artist, data, i := title0, artist0, None, 0;
      ghost var sent: Bytes := [];
      while i < |ts|
        invariant 0 <= i <= |ts|
        invariant Wrote(sent)
        invariant EncodeAll(SaveTracks(ts, title0, artist0, None))
                  == sent + EncodeAll(SaveTracks(ts[i..], title, artist, data))
      {
        var t := ts[i];
        ghost var here := EncodeAll(SaveTrack(t, title, artist, data));
        TracksFrom(ts, i, title, artist, data);
        SaveOneTrack(t, title, artist, data);
        Joined(old(bytes), sent, here);
        Joined(sent, here, EncodeAll(SaveTracks(ts[i + 1..], t.title, t.artist, Some(t.data.addr))));
        sent := sent + here;
        title, artist, data := t.title, t.artist, Some(t.data.addr);
        i := i + 1;
      }
      EncodeNothing();
    }

    /** save_sc68: `len` is what the base chunk announces. */
    method SaveDisk(version: int, d: Disk, len: nat)
      modifies this
      ensures Wrote(HeaderOf(version) + SaveBody(d, len))
    {
      hide EncodeAll, SaveAlbum, SaveTracks, Ascii, HeaderOf;
      ghost var e0, e1 := HeaderOf(version), BaseChunk(len);
      ghost var e2, e3 := EncodeAll(SaveAlbum(d)), EncodeAll(SaveTracks(d.tracks, d.title, d.artist, None));
      ghost var e4 := EncodeAll([Chunk(EOF, [])]);
      Write(HeaderOf(version));
      Write(BaseChunk(len));
      Joined(old(bytes), e0, e1);
      SaveDiskNames(d);
      Joined(old(bytes), e0 + e1, e2);
      SaveAllTracks(d.tracks, d.title, d.artist);
      Joined(old(bytes), e0 + e1 + e2, e3);
      SaveChunk(EOF, []);
      Joined(old(bytes), e0 + e1 + e2 + e3, e4);
      EncodeOne(Chunk(EOF, []));
      Sc68RoundTrip.EncodeAppend(SaveAlbum(d), SaveTracks(d.tracks, d.title, d.artist, None));
      BodyParts(e0, e1, e2, e3, e4);
    }
  }

  /** file68_save: the null stream measures what the second pass announces. A disk with a wrong
      number of tracks is refused before anything is written. */
  method Save(version: int, d: Disk) returns (ok: bool, os: Stream)
    ensures fresh(os) && os.length == |os.bytes|
    ensures ok <==> 1 <= |d.tracks| <= SC68_MAX_TRACK
    ensures os.bytes == if ok then SaveFile(version, d) else []
  {
    hide SaveBody, HeaderOf;
    os := new Stream(false);
    ok := 1 <= |d.tracks| <= SC68_MAX_TRACK;
    if ok {
      var counter := new Stream(true);
      counter.SaveDisk(version, d, 0);
      os.SaveDisk(version, d, counter.length - |HeaderOf(version)|);
    }
  }

  // ---- Reading.

  /** A disk that is being read: the current track is the last, if there is one. */
  class Reader {
    var title: Option<Bytes>
    var artist: Option<Bytes>
    var tags: seq<Tag>
    var beyond: bool
    var defMus: int
    var mus: seq<RawTrack>

    function State(): Loader
      reads this
    {
      if mus == [] then Loader(title, artist, tags, beyond, defMus, [], None)
      else Loader(title, artist, tags, beyond, defMus, mus[..|mus| - 1], Some(mus[|mus| - 1]))
    }

    constructor ()
      ensures State() == NOTHING
    {
      title, artist, tags, beyond, defMus, mus := None, None, [], false, 0, [];
    }

    method SetNames(n: Names)
      modifies this
      ensures State() == WithNames(old(State()), n)
    {
      if mus == [] {
        title, artist, tags := n.title, n.artist, n.tags;
      } else {
        var cur := mus[|mus| - 1];
        mus := mus[..|mus| - 1] + [cur.(title := n.title, artist := n.artist, tags := n.tags)];
      }
    }

    method GetNames() returns (n: Names)
      ensures n == NamesOf(State())
    {
      if mus == [] {
        n := Names(title, artist, tags);
      } else {
        n := Names(mus[|mus| - 1].title, mus[|mus| - 1].artist, mus[|mus| - 1].tags);
      }
    }

    method GoBeyond()
      modifies `beyond
      ensures State() == old(State()).(beyond := true)
    {
      beyond := true;
    }

    /** A tag chunk: a name and a value, one behind the other. */
    method SetCustomTag(n: Names, b: Bytes)
      requires n == NamesOf(State())
      modifies this
      ensures Some(State()) == Apply(old(State()), TAG, b, 0)
    {
      hide CString, SetTag, WithNames, NamesOf, GenreKey;
      var key, album := CString(b), mus == [];
      SetNames(SetTag(n, key, CString(if |key| < |b| then b[|key| + 1..] else [])));
      if album && GenreKey(key) {
        GoBeyond();
      }
    }

    method StartTrack()
      modifies this
      ensures State() == old(State()).(done := old(State()).Tracks(), cur := Some(BLANK))
    {
      mus := mus + [BLANK];
      assert mus[..|mus| - 1] == old(mus);
    }

    /** A parameter of the current track. */
    method SetParm(k: Kind, b: Bytes, size: int) returns (ok: bool)
      requires size <= |b|
      modifies this
      ensures ok <==> old(State()).cur.Some?
      ensures State() == if !ok then old(State()) else
                         var t := ApplyTrack(old(State()).cur.value, k, b, if size < 0 then 0 else size);
                         old(State()).(cur := Some(t), beyond := old(beyond) || (k == MDATA && size < 0))
    {
      hide ApplyTrack;
      ok := mus != [];
      if ok {
        mus := mus[..|mus| - 1] + [ApplyTrack(mus[|mus| - 1], k, b, if size < 0 then 0 else size)];
        assert mus[..|mus| - 1] == old(mus[..|mus| - 1]);
        if k == MDATA && size < 0 {
          beyond := true;
        }
      }
    }

    /** The chunk of a name. */
    method AcceptName(k: Kind, b: Bytes, size: int)
      requires k in {FNAME, MNAME, ANAME, CNAME} && size <= |b|
      modifies this
      ensures Some(State()) == Apply(old(State()), k, b, size)
    {
      hide CString, SetTag, WithNames, NamesOf, Fold;
      var n := GetNames();
      if k == ANAME {
        SetNames(n.(artist := Some(CString(b))));
      } else if k != CNAME {
        SetNames(n.(title := Some(CString(b))));
      } else if n.artist.None? || Fold(CString(b)) != Fold(n.artist.value) {
        SetNames(SetTag(n, COMPOSER_KEY, CString(b)));
      }
    }

    /** One chunk whose data is at the start of `b`. */
    method Accept(k: Kind, b: Bytes, size: int) returns (ok: bool)
      requires size <= |b|
      modifies this
      ensures ok <==> Apply(old(State()), k, b, size).Some?
      ensures State() == if ok then Apply(old(State()), k, b, size).value else old(State())
    {
      hide Peek, CString, SetTag, ApplyTrack, WithNames, NamesOf, Fold, GenreKey;
      ok := true;
      if k == DEFAULT {
        defMus := Signed32(Peek(b));
      } else if k in {FNAME, MNAME, ANAME, CNAME} {
        AcceptName(k, b, size);
      } else if k == MUSIC {
        StartTrack();
      } else if k == TAG {
        var n := GetNames();
        SetCustomTag(n, b);
      } else if k != BASE && k != EOF && k != OTHER {
        ok := SetParm(k, b, size);
      }
    }

    /** One turn of the chunk loop, at a place with room for the start of a chunk. */
    method ReadTurn(buffer: Bytes, at: nat) returns (t: Turn)
      requires at + 8 <= |buffer|
      modifies this
      ensures t == TurnAt(buffer, at, old(State()))
      ensures !t.Broken? ==> State() == t.st
    {
      hide Peek, KindOf, Apply;
      if buffer[at] != 0x53 || buffer[at + 1] != 0x43 { return Broken; }
      var k, size := KindOf(buffer[at + 2], buffer[at + 3]), Signed32(Peek(buffer[at + 4..]));
      if k == EOF || (k == MUSIC && |mus| == SC68_MAX_TRACK) { return Done(State()); }
      var b := buffer[at + 8..];
      if size > |b| { return Broken; }
      var ok := Accept(k, b, size);
      t := if ok then On(at + 8 + size, State()) else Broken;
    }

    /** The chunk loop of file68_load, for a buffer on which it does not go on for ever. */
    method ReadChunks(buffer: Bytes) returns (r: Walked)
      requires |mus| <= SC68_MAX_TRACK && !Walk(buffer, 0, State(), {}).Endless?
      modifies this
      ensures r == Walk(buffer, 0, old(State()), {})
      ensures r.Finished? ==> State() == r.st
    {
      var b := 0;
      ghost var seen: set<nat> := {};
      while |buffer| - b >= 8
        invariant 0 <= b <= |buffer| && |State().Tracks()| <= SC68_MAX_TRACK
        invariant Walk(buffer, 0, old(State()), {}) == Walk(buffer, b, State(), seen)
        decreases SC68_MAX_TRACK - |State().Tracks()|, UpTo(|buffer|) - seen
      {
        hide TurnAt, State, UpTo;
        ghost var was := State();
        TurnTracks(buffer, b, was);
        var t := ReadTurn(buffer, b);
        match t {
          case Done(st) => return Finished(st);
          case Broken => return Wrong;
          case On(next, _) =>
            if next < 0 { return Outside; }
            seen := SeenAfter(seen, b, was, State());
            b := next;
        }
      }
      r := if b == |buffer| then Finished(State()) else Wrong;
    }

    /** The loop over the tracks in valid: what a track does not say comes from the one before. */
    method ValidateTracks(inh0: Inherited) returns (tracks: Outcome<seq<Track>>)
      ensures tracks == ValidTracks(State().Tracks(), 0, inh0)
    {
      hide ValidParms, Guessable, ArtistOf;
      assert State().Tracks() == mus == mus[0..];
      FurtherFirst(ValidTracks(mus, 0, inh0));
      var done: seq<Track>, inh, i := [], inh0, 0;
      while i < |mus|
        invariant 0 <= i <= |mus|
        invariant ValidTracks(mus, 0, inh0) == Further(done, ValidTracks(mus[i..], i, inh))
      {
        var t := mus[i];
        assert mus[i..][1..] == mus[i + 1..];
        if !Guessable(t) {
          return Trapped;
        }
        var data := if t.data.Some? then Some(Data(i, t.data.value)) else inh.data;
        if data.None? {
          return Refused;
        }
        var valid := ValidParms(t, inh, data.value);
        var artist := TrackArtist(t, inh);
        inh := Inherited(valid.title, valid.artist, artist.alias, data);
        FurtherOn(done, valid, ValidTracks(mus[i + 1..], i + 1, inh));
        done := done + [valid];
        i := i + 1;
      }
      assert done + [] == done;
      tracks := Loaded(done);
    }

    method TrackArtist(t: RawTrack, inh: Inherited) returns (a: Artist)
      ensures a == ArtistOf(t, inh)
    {
      hide DecodeArtist, AddTag;
      if t.artist.Some? {
        a := Decode(t.artist.value, t.tags);
      } else if inh.alias.Some? {
        a := Artist(inh.artist, AddTag(t.tags, AKA_KEY, inh.alias.value), inh.alias);
      } else {
        a := Artist(inh.artist, t.tags, None);
      }
    }

    /** valid. */
    method ValidateDisk() returns (r: Outcome<Disk>)
      ensures r == Validate(State())
    {
      hide ValidTracks, DecodeArtist, AddTag, TagValue;
      if mus == [] {
        return Refused;
      }
      if beyond {
        return Elsewhere;
      }
      var def := if defMus < 0 || defMus >= |mus| then 0 else defMus;
      var album := if title.Some? then title.value else N_A;
      var author := Artist(N_A, tags, TagValue(tags, AKA_KEY));
      if artist.Some? {
        author := Decode(artist.value, tags);
      }
      var tracks := ValidateTracks(Inherited(album, author.name, author.alias, None));
      if !tracks.Loaded? || |tracks.value| <= def {
        return if tracks.Trapped? then Trapped else Refused;
      }
      var t := tracks.value[def];
      var alias := TagValue(t.tags, AKA_KEY);
      if artist.None? {
        author := Artist(t.artist, if alias.Some? then AddTag(tags, AKA_KEY, alias.value) else tags, alias);
      }
      r := Loaded(Disk(album, author.name, author.tags, def, tracks.value));
    }
  }

  /** has_parenthesis: the loop runs down from the end of the name. */
  method FindParenthesis(name: Bytes) returns (found: Option<nat>)
    ensures found == Parenthesis(name)
  {
    if |name| < 5 || name[|name| - 1] != 0x29 {
      return None;
    }
    var i := |name| - 2;
    while i > 1 && name[i] != 0x28
      invariant 1 <= i <= |name| - 2 && Opening(name, |name| - 2) == Opening(name, i)
    {
      if !AkaChar(name[i]) {
        return None;
      }
      i := i - 1;
    }
    if i < 2 || i == |name| - 2 || name[i - 1] != 0x20 {
      return None;
    }
    found := Some(i);
  }

  /** decode_artist. */
  method Decode(name: Bytes, tags: seq<Tag>) returns (a: Artist)
    ensures a == DecodeArtist(name, tags)
  {
    hide AddTag, TagValue, Parenthesis, Unknown;
    var aka := TagValue(tags, AKA_KEY);
    if aka.Some? {
      return Artist(name, tags, aka);
    }
    var i := FindParenthesis(name);
    if i.None? || Unknown(name) {
      return Artist(name, tags, aka);
    }
    var more := AddTag(tags, AKA_KEY, name[i.value + 1..|name| - 1]);
    a := Artist(name[..i.value - 1], more, TagValue(more, AKA_KEY));
  }

  /** file68_load, for a file on which it ends. */
  method Load(file: Bytes) returns (r: Outcome<Disk>)
    requires !LoadFile(file).Unending?
    ensures r == LoadFile(file)
  {
    hide Walk, Validate, Peek, IDSTR_V1, IDSTR_V2;
    var head := ReadHeader(file);
    if head.None? {
      return Refused;
    }
    var b := file[head.value..];
    if |b| < 8 || b[..4] != [0x53, 0x43, Letter0(BASE), Letter1(BASE)] {
      return Refused;
    }
    var len := Signed32(Peek(b[4..])) - 8;
    if len <= 0 || len > |b| - 8 {
      return Refused;
    }
    var disk := new Reader();
    var walked := disk.ReadChunks(b[8..8 + len]);
    match walked {
      case Finished(_) => r := disk.ValidateDisk();
      case Wrong => r := Refused;
      case Outside => r := Elsewhere;
    }
  }

  /** Tracks that are done, and those to come. */
  function Further(done: seq<Track>, rest: Outcome<seq<Track>>): Outcome<seq<Track>> {
    if rest.Loaded? then Loaded(done + rest.value) else rest
  }

  lemma FurtherFirst(rest: Outcome<seq<Track>>)
    ensures Further([], rest) == rest
  {
    if rest.Loaded? {
      assert [] + rest.value == rest.value;
    }
  }

  lemma FurtherOn(done: seq<Track>, t: Track, rest: Outcome<seq<Track>>)
    ensures Further(done, Further([t], rest)) == Further(done + [t], rest)
  {
    if rest.Loaded? {
      assert done + ([t] + rest.value) == done + [t] + rest.value;
    }
  }

  lemma EncodeNothing()
    ensures EncodeAll([]) == []
  {
  }

  lemma EncodeOne(c: Chunk)
    ensures EncodeAll([c]) == Encode(c)
  {
    assert [c][1..] == [];
  }

  lemma TagsFrom(tags: seq<Tag>, i: nat)
    requires i < |tags|
    ensures EncodeAll(SaveTags(tags[i..])) == EncodeAll(SaveTag(tags[i])) + EncodeAll(SaveTags(tags[i + 1..]))
    ensures EncodeAll([]) == []
  {
    hide EncodeAll, SaveTag;
    assert tags[i..][1..] == tags[i + 1..];
    Sc68RoundTrip.EncodeAppend(SaveTag(tags[i]), SaveTags(tags[i + 1..]));
    EncodeNothing();
  }

  lemma Encoded3(a: seq<Chunk>, b: seq<Chunk>, c: seq<Chunk>)
    ensures EncodeAll(a + b + c) == EncodeAll(a) + EncodeAll(b) + EncodeAll(c)
  {
    Sc68RoundTrip.EncodeAppend(a, b);
    Sc68RoundTrip.EncodeAppend(a + b, c);
  }

  lemma BodyParts(a: Bytes, b: Bytes, c: Bytes, d: Bytes, e: Bytes)
    ensures a + b + c + d + e == a + (b + (c + d) + e)
  {
  }

  lemma TracksFrom(ts: seq<Track>, i: nat, title: Bytes, artist: Bytes, data: Option<nat>)
    requires i < |ts|
    ensures EncodeAll(SaveTracks(ts[i..], title, artist, data))
            == EncodeAll(SaveTrack(ts[i], title, artist, data))
               + EncodeAll(SaveTracks(ts[i + 1..], ts[i].title, ts[i].artist, Some(ts[i].data.addr)))
  {
    hide EncodeAll, SaveTrack;
    assert ts[i..][1..] == ts[i + 1..];
    Sc68RoundTrip.EncodeAppend(SaveTrack(ts[i], title, artist, data),
                               SaveTracks(ts[i + 1..], ts[i].title, ts[i].artist, Some(ts[i].data.addr)));
  }
}
