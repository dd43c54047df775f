/** How an sc68 file is read: the walk over its chunks and the validation that follows
    (file68/src/file68.c:457-508, 554-625, 631-807, 1484-1763). */
module Sc68Loader {
  import opened Options
  import opened BitStacks
  import opened Powers
  import opened Sc68Format

  /** A track as the chunks leave it, everything else zero. */
  datatype RawTrack = RawTrack(title: Option<Bytes>, artist: Option<Bytes>, tags: seq<Tag>, replay: Option<Bytes>,
                               d0: nat, a0: nat, frq: nat, firstMs: nat, firstFr: nat,
                               loops: int, loopsFr: nat, hasLoop: bool, sfx: bool, flags: nat, data: Option<Bytes>)

  const BLANK := RawTrack(None, None, [], None, 0, 0, 0, 0, 0, 0, 0, false, false, 0, None)

  /** What has been read: the album, the finished tracks, and the current one. `beyond` is set by
      what validation is not followed for here: a tag that gives the album a genre of its own in
      place of the one of sc68 files, and music data of negative size. */
  datatype Loader = Loader(title: Option<Bytes>, artist: Option<Bytes>, tags: seq<Tag>, beyond: bool, defMus: int,
                           done: seq<RawTrack>, cur: Option<RawTrack>) {
    function Tracks(): seq<RawTrack> {
      if cur.Some? then done + [cur.value] else done
    }
  }

  const NOTHING := Loader(None, None, [], false, 0, [], None)

  /** A byte of the disk's buffer, which is cleared when it is allocated. */
  function At(b: Bytes, i: nat): Byte {
    if i < |b| then b[i] else 0
  }

  /** LPeek, as an unsigned number and as a signed one. */
  function Peek(b: Bytes): nat {
    At(b, 0) as int + At(b, 1) as int * 256 + At(b, 2) as int * 0x1_0000 + At(b, 3) as int * 0x100_0000
  }

  function Signed32(n: nat): int {
    if n < 0x8000_0000 then n else n - 0x1_0000_0000
  }

  /** The string that starts at `b`. */
  function CString(b: Bytes): Bytes {
    if b == [] || b[0] == 0 then [] else [b[0]] + CString(b[1..])
  }

  function KindOf(b0: Byte, b1: Byte): Kind {
    if b0 == 0x36 && b1 == 0x38 then BASE
    else if b0 == 0x44 && b1 == 0x46 then DEFAULT
    else if b0 == 0x46 && b1 == 0x4e then FNAME
    else if b0 == 0x4d && b1 == 0x4e then MNAME
    else if b0 == 0x4d && b1 == 0x55 then MUSIC
    else if b0 == 0x41 && b1 == 0x4e then ANAME
    else if b0 == 0x43 && b1 == 0x4e then CNAME
    else if b0 == 0x52 && b1 == 0x45 then REPLAY
    else if b0 == 0x44 && b1 == 0x30 then D0
    else if b0 == 0x41 && b1 == 0x54 then AT
    else if b0 == 0x54 && b1 == 0x49 then TIME
    else if b0 == 0x46 && b1 == 0x52 then FRAME
    else if b0 == 0x46 && b1 == 0x51 then FRQ
    else if b0 == 0x4c && b1 == 0x50 then LOOP
    else if b0 == 0x4c && b1 == 0x46 then LOOPFR
    else if b0 == 0x46 && b1 == 0x58 then SFX
    else if b0 == 0x54 && b1 == 0x59 then TYP
    else if b0 == 0x54 && b1 == 0x47 then TAG
    else if b0 == 0x44 && b1 == 0x41 then MDATA
    else if b0 == 0x45 && b1 == 0x46 then EOF
    else OTHER
  }

  // The names of the tags that have a place of their own.
  const TITLE_KEY: Bytes := [0x74, 0x69, 0x74, 0x6c, 0x65]
  const ALBUM_KEY: Bytes := [0x61, 0x6c, 0x62, 0x75, 0x6d]
  const ARTIST_KEY: Bytes := [0x61, 0x72, 0x74, 0x69, 0x73, 0x74]
  const AUTHOR_KEY: Bytes := [0x61, 0x75, 0x74, 0x68, 0x6f, 0x72]
  const GENRE_KEY: Bytes := [0x67, 0x65, 0x6e, 0x72, 0x65]
  const FORMAT_KEY: Bytes := [0x66, 0x6f, 0x72, 0x6d, 0x61, 0x74]
  const AKA_KEY: Bytes := [0x61, 0x6b, 0x61]
  const COMPOSER_KEY: Bytes := [0x63, 0x6f, 0x6d, 0x70, 0x6f, 0x73, 0x65, 0x72]

  predicate TitleKey(key: Bytes) { Fold(key) in [Fold(TITLE_KEY), Fold(ALBUM_KEY)] }
  predicate ArtistKey(key: Bytes) { Fold(key) in [Fold(ARTIST_KEY), Fold(AUTHOR_KEY)] }
  predicate GenreKey(key: Bytes) { Fold(key) in [Fold(GENRE_KEY), Fold(FORMAT_KEY)] }

  /** The names and tags of the album or of the current track. */
  datatype Names = Names(title: Option<Bytes>, artist: Option<Bytes>, tags: seq<Tag>)

  /** set_customtag among the tags that are not built in: replace, or use the first free place. */
  function PutTag(tags: seq<Tag>, key: Bytes, val: Bytes): seq<Tag> {
    if tags == [] then [Tag(key, val)]
    else if Fold(tags[0].key) == Fold(key) then [tags[0].(val := val)] + tags[1..]
    else [tags[0]] + PutTag(tags[1..], key, val)
  }

  /** There is only so much room. */
  function AddTag(tags: seq<Tag>, key: Bytes, val: Bytes): seq<Tag> {
    var more := PutTag(tags, key, val);
    if |more| <= MAX_TAGS then more else tags
  }

  function SetTag(n: Names, key: Bytes, val: Bytes): Names {
    if TitleKey(key) then n.(title := Some(val))
    else if ArtistKey(key) then n.(artist := Some(val))
    else if GenreKey(key) then n
    else n.(tags := AddTag(n.tags, key, val))
  }

  /** get_customtag: the value of a custom tag. */
  function TagValue(tags: seq<Tag>, key: Bytes): Option<Bytes> {
    if tags == [] then None
    else if Fold(tags[0].key) == Fold(key) then Some(tags[0].val)
    else TagValue(tags[1..], key)
  }

  function NamesOf(st: Loader): Names {
    if st.cur.Some? then Names(st.cur.value.title, st.cur.value.artist, st.cur.value.tags)
    else Names(st.title, st.artist, st.tags)
  }

  function WithNames(st: Loader, n: Names): Loader {
    if st.cur.Some? then st.(cur := Some(st.cur.value.(title := n.title, artist := n.artist, tags := n.tags)))
    else st.(title := n.title, artist := n.artist, tags := n.tags)
  }

  /** Extra information is implied by any flag above it. */
  function TypFlags(f: nat): nat {
    if f >= 8 && f / 8 % 2 == 0 then f + 8 else f
  }

  /** What a chunk of track parameters does to its track; `b` starts at its data. */
  function ApplyTrack(t: RawTrack, k: Kind, b: Bytes, size: nat): RawTrack
    requires size <= |b|
  {
    match k
    case REPLAY => t.(replay := Some(CString(b)))
    case D0 => t.(d0 := Peek(b))
    case AT => t.(a0 := Peek(b))
    case TIME => t.(firstMs := if Signed32(Peek(b)) < 0 || Peek(b) > 86400 then 0 else Peek(b) * 1000)
    case FRAME => t.(firstFr := if Peek(b) >= 0x100_0000 then 0 else Peek(b))
    case FRQ => t.(frq := Peek(b))
    case LOOP => t.(loops := if Signed32(Peek(b)) < -1 then 0 else Signed32(Peek(b)))
    case LOOPFR => t.(loopsFr := Peek(b), hasLoop := true)
    case SFX => t.(sfx := true)
    case TYP => t.(flags := TypFlags(Peek(b)))
    case MDATA => t.(data := Some(b[..size]))
    case _ => t
  }

  /** One chunk, whose size may be negative; None is an error: parameters of no track. */
  function Apply(st: Loader, k: Kind, b: Bytes, size: int): Option<Loader>
    requires size <= |b|
  {
    var n := NamesOf(st);
    match k
    case DEFAULT => Some(st.(defMus := Signed32(Peek(b))))
    case FNAME => Some(WithNames(st, n.(title := Some(CString(b)))))
    case MNAME => Some(WithNames(st, n.(title := Some(CString(b)))))
    case MUSIC => Some(st.(done := st.Tracks(), cur := Some(BLANK)))
    case ANAME => Some(WithNames(st, n.(artist := Some(CString(b)))))
    case CNAME =>
      Some(if n.artist.Some? && Fold(n.artist.value) == Fold(CString(b)) then st
           else WithNames(st, SetTag(n, COMPOSER_KEY, CString(b))))
    case TAG =>
      var key := CString(b);
      var st' := WithNames(st, SetTag(n, key, CString(if |key| < |b| then b[|key| + 1..] else [])));
      Some(if st.cur.None? && GenreKey(key) then st'.(beyond := true) else st')
    case BASE | EOF | OTHER => Some(st)
    case _ =>
      if st.cur.None? then None
      else Some(st.(cur := Some(ApplyTrack(st.cur.value, k, b, if size < 0 then 0 else size)),
                    beyond := st.beyond || (k == MDATA && size < 0)))
  }

  /** A track is only added by its first chunk, and then there is a current one. */
  lemma ApplyTracks(st: Loader, k: Kind, b: Bytes, size: int)
    requires size <= |b|
    ensures var st' := Apply(st, k, b, size);
            st'.Some? ==> |st'.value.Tracks()| == |st.Tracks()| + (if k == MUSIC then 1 else 0)
                          && (st'.value.cur.None? <==> st.cur.None? && k != MUSIC)
  {
    hide CString, Peek, SetTag, ApplyTrack, GenreKey, Fold;
  }

  // ---- The chunk loop.

  /** The loop is at a place in the buffer, or it has ended. */
  datatype Turn = On(pos: int, st: Loader) | Done(st: Loader) | Broken {
    /** A place before the buffer is outside the model. */
    predicate Running() { On? && 0 <= pos }
  }

  /** One turn at `pos`. A chunk that does not fit in what is left is an error; one of negative size
      takes the loop back. */
  function TurnAt(b: Bytes, pos: nat, st: Loader): (r: Turn)
    requires pos <= |b|
    ensures r.On? ==> r.pos <= |b|
  {
    if |b| - pos < 8 then if pos == |b| then Done(st) else Broken
    else if b[pos] != 0x53 || b[pos + 1] != 0x43 then Broken
    else
      var k, size := KindOf(b[pos + 2], b[pos + 3]), Signed32(Peek(b[pos + 4..]));
      if k == EOF || (k == MUSIC && |st.Tracks()| == SC68_MAX_TRACK) then Done(st)
      else if size > |b| - pos - 8 then Broken
      else
        var st' := Apply(st, k, b[pos + 8..], size);
        if st'.None? then Broken else On(pos + 8 + size, st'.value)
  }

  /** What becomes of the loop: it ends with what it has read, or with an error; it goes on for ever;
      or it leaves the buffer. */
  datatype Walked = Finished(st: Loader) | Wrong | Endless | Outside

  function UpTo(n: nat): (r: set<nat>)
    ensures forall i: nat :: i in r <==> i <= n
  {
    if n == 0 then {0} else UpTo(n - 1) + {n}
  }

  lemma TurnTracks(b: Bytes, pos: nat, st: Loader)
    requires pos <= |b| && |st.Tracks()| <= SC68_MAX_TRACK
    ensures var t := TurnAt(b, pos, st);
            t.On? ==> |st.Tracks()| <= |t.st.Tracks()| <= SC68_MAX_TRACK
                      && (|t.st.Tracks()| == |st.Tracks()| ==> t.st.cur.None? == st.cur.None?)
  {
    hide KindOf, Peek, Apply;
    if TurnAt(b, pos, st).On? {
      ApplyTracks(st, KindOf(b[pos + 2], b[pos + 3]), b[pos + 8..], Signed32(Peek(b[pos + 4..])));
    }
  }

  /** The chunk loop from `pos` on, told to the end. `seen` are the places where it has been since it
      last found a new track: when it comes back to one of them it does all the same again. */
  function Walk(b: Bytes, pos: nat, st: Loader, seen: set<nat>): Walked
    requires pos <= |b| && |st.Tracks()| <= SC68_MAX_TRACK
    decreases SC68_MAX_TRACK - |st.Tracks()|, UpTo(|b|) - seen
  {
    if pos in seen then Endless else
    var t := TurnAt(b, pos, st);
    TurnTracks(b, pos, st);
    match t
    case Done(st') => Finished(st')
    case Broken => Wrong
    case On(next, st') => if next < 0 then Outside else Walk(b, next, st', SeenAfter(seen, pos, st, st'))
  }

  function SeenAfter(seen: set<nat>, pos: nat, st: Loader, next: Loader): set<nat> {
    if |next.Tracks()| > |st.Tracks()| then {} else seen + {pos}
  }

  // ---- Aliases.

  /** is_aka_char; `char` is signed. */
  predicate AkaChar(c: Byte) { 32 <= c < 128 && c != 0x29 }

  /** The loop of has_parenthesis from index `i` down: where the parenthesis opens. */
  function Opening(name: Bytes, i: nat): (r: Option<nat>)
    requires i < |name|
    ensures r.Some? ==> 2 <= r.value <= i && name[r.value] == 0x28
  {
    if i <= 1 then None
    else if name[i] == 0x28 then Some(i)
    else if !AkaChar(name[i]) then None
    else Opening(name, i - 1)
  }

  /** has_parenthesis: the place of the parenthesis in `name (alias)`. */
  function Parenthesis(name: Bytes): (r: Option<nat>)
    ensures r.Some? ==> 2 <= r.value < |name| - 2
  {
    if |name| < 5 || name[|name| - 1] != 0x29 then None else
    var i := Opening(name, |name| - 2);
    if i.Some? && i.value != |name| - 2 && name[i.value - 1] == 0x20 then i else None
  }

  // 'unknow': strncmp68 compares one character less than it is told to.
  const UNKNOWN: Bytes := [0x75, 0x6e, 0x6b, 0x6e, 0x6f, 0x77]

  predicate Unknown(name: Bytes) { |name| >= 6 && Fold(name[..6]) == Fold(UNKNOWN) }

  /** An artist without an alias tag gives up the alias in parentheses. */
  predicate Strips(artist: Bytes, tags: seq<Tag>) {
    TagValue(tags, AKA_KEY).None? && Parenthesis(artist).Some? && !Unknown(artist)
  }

  /** An artist, the tags that go with it, and the alias they say. */
  datatype Artist = Artist(name: Bytes, tags: seq<Tag>, alias: Option<Bytes>)

  /** decode_artist for an sc68 file. */
  function DecodeArtist(name: Bytes, tags: seq<Tag>): Artist {
    if Strips(name, tags) then
      var i := Parenthesis(name).value;
      var more := AddTag(tags, AKA_KEY, name[i + 1..|name| - 1]);
      Artist(name[..i - 1], more, TagValue(more, AKA_KEY))
    else Artist(name, tags, TagValue(tags, AKA_KEY))
  }

  // ---- Validation.

  /** What validation has seen of the tracks so far: the names, the alias and the data to inherit. */
  datatype Inherited = Inherited(title: Bytes, artist: Bytes, alias: Option<Bytes>, data: Option<Data>)

  /** ms_to_fr. */
  function FramesOf(ms: nat, hz: nat): nat {
    ms * hz / 1000 % 0x1_0000_0000
  }

  /** fr_to_ms. */
  function MsOf(fr: nat, hz: nat): nat
    requires hz > 0
  {
    fr * 1000 / hz % 0x1_0000_0000
  }

  const MIN_TRACK_MS := 45000
  const MAX_TRACK_LP := 4

  /** The number of loops for a track that names none, from the lengths in milliseconds of the track
      and of its loop: enough for the minimal time, but not more than the maximum. */
  function GuessLoops(firstMs: nat, loopsMs: nat): (r: nat)
    requires firstMs < MIN_TRACK_MS ==> loopsMs > 0
    ensures 1 <= r <= MAX_TRACK_LP
  {
    var more := if firstMs < MIN_TRACK_MS then (MIN_TRACK_MS - firstMs + loopsMs / 2) / loopsMs else 0;
    if 1 + more > MAX_TRACK_LP then MAX_TRACK_LP else 1 + more
  }

  /** The time that a track is played with `loops` loops. */
  function TotalMs(firstMs: nat, loopsMs: nat, loops: nat): int {
    firstMs + (loops - 1) * loopsMs
  }

  /** The quotient is rounded to the nearest, so the minimal time is missed by up to half a loop. It is
      reached exactly when what is missing rounds up, unless that takes more than the maximum. */
  lemma GuessReaches(firstMs: nat, loopsMs: nat)
    requires firstMs < MIN_TRACK_MS && loopsMs > 0
    ensures var r, x := GuessLoops(firstMs, loopsMs), MIN_TRACK_MS - firstMs;
            (x + loopsMs / 2) / loopsMs < MAX_TRACK_LP ==>
              && TotalMs(firstMs, loopsMs, r) > MIN_TRACK_MS - (loopsMs - loopsMs / 2)
              && (TotalMs(firstMs, loopsMs, r) >= MIN_TRACK_MS
                  <==> x % loopsMs == 0 || x % loopsMs + loopsMs / 2 >= loopsMs)
  {
    var x, h := MIN_TRACK_MS - firstMs, loopsMs / 2;
    var q, m := x / loopsMs, x % loopsMs;
    assert x == q * loopsMs + m;
    if m + h >= loopsMs {
      DivUnique(x + h, loopsMs, q + 1, m + h - loopsMs);
      assert (q + 1) * loopsMs == q * loopsMs + loopsMs;
    } else {
      DivUnique(x + h, loopsMs, q, m + h);
    }
  }

  /** 40 seconds with a loop of 20 are played once. */
  lemma GuessMisses()
    ensures GuessLoops(40000, 20000) == 1 && TotalMs(40000, 20000, 1) < MIN_TRACK_MS
  {
  }

  /** The rate, the time and the loop of a track after validation. */
  datatype Timing = Timing(frq: nat, firstFr: nat, firstMs: nat, loopsFr: nat, loopsMs: nat)

  function TimingOf(t: RawTrack): (r: Timing)
    ensures r.frq > 0
  {
    var frq := if t.frq == 0 then 50 else t.frq;
    var firstFr := if t.firstFr > 0 then t.firstFr else FramesOf(t.firstMs, frq);
    var firstMs := if t.firstFr > 0 then MsOf(t.firstFr, frq) else t.firstMs;
    if t.hasLoop then Timing(frq, firstFr, firstMs, t.loopsFr, MsOf(t.loopsFr, frq))
    else Timing(frq, firstFr, firstMs, firstFr, firstMs)
  }

  /** The number of loops can be told: it is given, or not needed, or the guess does not divide by a
      loop length of zero. */
  predicate Guessable(t: RawTrack) {
    var m := TimingOf(t);
    m.loopsFr == 0 || t.loops != 0 || m.firstMs >= MIN_TRACK_MS || m.loopsMs > 0
  }

  function LoopsOf(t: RawTrack): (r: nat)
    requires Guessable(t)
  {
    var m := TimingOf(t);
    var loops := if m.loopsFr == 0 then 1 else if t.loops == 0 then GuessLoops(m.firstMs, m.loopsMs) else t.loops;
    if loops > 0 then loops else 0
  }

  /** The artist of a track: its own, or the one before with the alias that goes with it. */
  function ArtistOf(t: RawTrack, inh: Inherited): Artist {
    if t.artist.Some? then DecodeArtist(t.artist.value, t.tags)
    else Artist(inh.artist, if inh.alias.Some? then AddTag(t.tags, AKA_KEY, inh.alias.value) else t.tags, inh.alias)
  }

  /** A track after validation. */
  function ValidParms(t: RawTrack, inh: Inherited, data: Data): Track
    requires Guessable(t)
  {
    var m, a := TimingOf(t), ArtistOf(t, inh);
    Track(if t.title.Some? then t.title.value else inh.title, a.name, a.tags, t.replay, t.d0,
          if t.a0 == 0 then SC68_LOADADDR else t.a0, t.a0 == 0, m.frq,
          t.firstFr > 0 || t.firstMs > 0, m.firstFr, LoopsOf(t), m.loopsFr, t.hasLoop, t.sfx,
          if t.flags == 0 then 1 else t.flags, data)
  }

  /** How validation or loading ends: with a result, with an error, with a division by zero, not at
      all, or outside the model. */
  datatype Outcome<T> = Loaded(value: T) | Refused | Trapped | Unending | Elsewhere

  /** The tracks from number `i` on; refused when one has no data. */
  function ValidTracks(ts: seq<RawTrack>, i: nat, inh: Inherited): (r: Outcome<seq<Track>>)
    ensures !r.Unending? && !r.Elsewhere?
    decreases |ts|
  {
    if ts == [] then Loaded([]) else
    var t := ts[0];
    if !Guessable(t) then Trapped else
    var data := if t.data.Some? then Some(Data(i, t.data.value)) else inh.data;
    if data.None? then Refused else
    var valid := ValidParms(t, inh, data.value);
    var rest := ValidTracks(ts[1..], i + 1, Inherited(valid.title, valid.artist, ArtistOf(t, inh).alias, data));
    if rest.Loaded? then Loaded([valid] + rest.value) else rest
  }

  /** The album's own artist, or none. */
  function AlbumArtist(st: Loader): Artist {
    if st.artist.Some? then DecodeArtist(st.artist.value, st.tags)
    else Artist(N_A, st.tags, TagValue(st.tags, AKA_KEY))
  }

  /** What the first track inherits. */
  function FirstInherited(st: Loader): Inherited {
    var a := AlbumArtist(st);
    Inherited(if st.title.Some? then st.title.value else N_A, a.name, a.alias, None)
  }

  /** The album when its tracks are validated: without an artist it takes that of the default track,
      with its alias. */
  function FinishDisk(st: Loader, defMus: nat, tracks: seq<Track>): Disk
    requires defMus < |tracks|
  {
    var inh, a, t := FirstInherited(st), AlbumArtist(st), tracks[defMus];
    var alias := TagValue(t.tags, AKA_KEY);
    if st.artist.Some? then Disk(inh.title, a.name, a.tags, defMus, tracks)
    else Disk(inh.title, t.artist, if alias.Some? then AddTag(a.tags, AKA_KEY, alias.value) else a.tags, defMus, tracks)
  }

  /** valid. When a tag has given the album a genre, validation looks for a year instead of an
      alias, which is not part of this model; nor is music data of negative size. */
  function Validate(st: Loader): (r: Outcome<Disk>)
    ensures !r.Unending?
  {
    var raw := st.Tracks();
    if raw == [] then Refused
    else if st.beyond then Elsewhere else
    var defMus := if st.defMus < 0 || st.defMus >= |raw| then 0 else st.defMus;
    var tracks := ValidTracks(raw, 0, FirstInherited(st));
    match tracks
    case Refused => Refused
    case Trapped => Trapped
    case Loaded(ts) => if defMus < |ts| then Loaded(FinishDisk(st, defMus, ts)) else Refused
  }

  /** read_header as far as the identification string: its length, if there is one. */
  function ReadHeader(file: Bytes): (r: Option<nat>)
    ensures r.Some? ==> r.value <= |file|
  {
    if |file| < 8 then None
    else if file[..8] == IDSTR_V1[..8] then
      if |file| >= 56 && file[..56] == IDSTR_V1 then Some(56) else None
    else if file[..8] == IDSTR_V2 then Some(8)
    else None
  }

  /** What is read into the buffer: the base chunk behind the identification string tells how much
      follows it. */
  function ReadBuffer(file: Bytes): Option<Bytes> {
    var head := ReadHeader(file);
    if head.None? then None else
    var b := file[head.value..];
    if |b| < 8 || b[..4] != [0x53, 0x43, Letter0(BASE), Letter1(BASE)] then None else
    var len := Signed32(Peek(b[4..])) - 8;
    if len <= 0 || len > |b| - 8 then None else Some(b[8..8 + len])
  }

  /** file68_load. */
  function LoadFile(file: Bytes): Outcome<Disk> {
    var b := ReadBuffer(file);
    if b.None? then Refused else
    match Walk(b.value, 0, NOTHING, {})
    case Finished(st) => Validate(st)
    case Wrong => Refused
    case Endless => Unending
    case Outside => Elsewhere
  }
}
