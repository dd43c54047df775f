/** The sc68 file format: chunks, the disk that they describe, and how a disk is written
    (file68/src/file68.c:1805-2129). */
module Sc68Format {
  import opened BitStacks
  import opened Options

  /** Text is bytes before a zero. */
  type Bytes = seq<Byte>

  ghost predicate IsText(s: Bytes) {
    forall i :: 0 <= i < |s| ==> s[i] != 0
  }

  // 'n/a', and the track limits.
  const N_A: Bytes := [0x6e, 0x2f, 0x61]
  const SC68_MAX_TRACK := 63
  const SC68_LOADADDR := 0x10000
  const MAX_TAGS := 9

  function Upper(c: Byte): Byte {
    if 0x61 <= c <= 0x7a then c - 0x20 else c
  }

  /** A string without regard to case. */
  function Fold(s: Bytes): Bytes {
    seq(|s|, i requires 0 <= i < |s| => Upper(s[i]))
  }

  predicate NoName(s: Bytes) { Fold(s) == Fold(N_A) }

  // ---- Chunks.

  datatype Kind = BASE | FNAME | DEFAULT | MUSIC | MNAME | ANAME | CNAME | D0 | AT | TIME | FRAME | FRQ
                | LOOP | LOOPFR | TYP | TAG | REPLAY | SFX | MDATA | EOF | OTHER

  /** The two letters of a chunk. */
  function Letter0(k: Kind): Byte {
    match k
    case BASE => 0x36 case FNAME => 0x46 case DEFAULT => 0x44 case MUSIC => 0x4d case MNAME => 0x4d case ANAME => 0x41
    case CNAME => 0x43 case D0 => 0x44 case AT => 0x41 case TIME => 0x54 case FRAME => 0x46 case FRQ => 0x46
    case LOOP => 0x4c case LOOPFR => 0x4c case TYP => 0x54 case TAG => 0x54 case REPLAY => 0x52 case SFX => 0x46
    case MDATA => 0x44 case EOF => 0x45 case OTHER => 0
  }

  function Letter1(k: Kind): Byte {
    match k
    case BASE => 0x38 case FNAME => 0x4e case DEFAULT => 0x46 case MUSIC => 0x55 case MNAME => 0x4e case ANAME => 0x4e
    case CNAME => 0x4e case D0 => 0x30 case AT => 0x54 case TIME => 0x49 case FRAME => 0x52 case FRQ => 0x51
    case LOOP => 0x50 case LOOPFR => 0x46 case TYP => 0x59 case TAG => 0x47 case REPLAY => 0x45 case SFX => 0x58
    case MDATA => 0x41 case EOF => 0x46 case OTHER => 0
  }

  /** The four bytes that LPoke writes. */
  function Poke(n: int): (r: Bytes)
    ensures |r| == 4
  {
    [n % 256, n / 256 % 256, n / 0x1_0000 % 256, n / 0x100_0000 % 256]
  }

  datatype Chunk = Chunk(kind: Kind, data: Bytes)

  /** Chunk data is padded to an even size. */
  function Padded(data: Bytes): (r: Bytes)
    ensures |r| % 2 == 0
  {
    if |data| % 2 == 0 then data else data + [0]
  }

  /** save_chunk. */
  function Encode(c: Chunk): (r: Bytes)
    ensures |r| == 8 + |Padded(c.data)|
  {
    [0x53, 0x43, Letter0(c.kind), Letter1(c.kind)] + Poke(|Padded(c.data)|) + Padded(c.data)
  }

  function EncodeAll(cs: seq<Chunk>): (r: Bytes)
    ensures |r| % 2 == 0
  {
    if cs == [] then [] else Encode(cs[0]) + EncodeAll(cs[1..])
  }

  // ---- Disks.

  datatype Tag = Tag(key: Bytes, val: Bytes)

  /** Music data with the address it stands at: tracks share data when the addresses are equal. */
  datatype Data = Data(addr: nat, bytes: Bytes)

  /** A track of a validated disk; numbers are 32 bits wide. */
  datatype Track = Track(title: Bytes, artist: Bytes, tags: seq<Tag>, replay: Option<Bytes>,
                         d0: nat, a0: nat, pic: bool, frq: nat, hasTime: bool, firstFr: nat,
                         loops: int, loopsFr: nat, hasLoop: bool, sfx: bool, flags: nat, data: Data)

  datatype Disk = Disk(title: Bytes, artist: Bytes, tags: seq<Tag>, defMus: nat, tracks: seq<Track>)

  // ---- Saving.

  /** save_string: only if the string is there and not empty. */
  function SaveString(k: Kind, s: Bytes): seq<Chunk> {
    if s == [] then [] else [Chunk(k, s + [0])]
  }

  function SaveNoName(k: Kind, s: Bytes): seq<Chunk> {
    if NoName(s) then [] else SaveString(k, s)
  }

  /** save_differstr: only what differs from the previous string. */
  function SaveDiffer(k: Kind, s: Bytes, before: Bytes): seq<Chunk> {
    if s == before then [] else SaveString(k, s)
  }

  function SaveNumber(k: Kind, n: int): seq<Chunk> {
    [Chunk(k, Poke(n))]
  }

  function SaveNonZero(k: Kind, n: int): seq<Chunk> {
    if n == 0 then [] else SaveNumber(k, n)
  }

  /** A tag is written when it has a name and a value. */
  function SaveTag(t: Tag): seq<Chunk> {
    if t.key == [] || t.val == [] then [] else [Chunk(TAG, t.key + [0] + t.val + [0])]
  }

  function SaveTags(tags: seq<Tag>): seq<Chunk> {
    if tags == [] then [] else SaveTag(tags[0]) + SaveTags(tags[1..])
  }

  function SaveReplay(s: Option<Bytes>): seq<Chunk> {
    if s.Some? then SaveString(REPLAY, s.value) else []
  }

  function SaveLoop(t: Track): seq<Chunk> {
    if t.hasLoop then SaveNonZero(LOOP, t.loops) + SaveNumber(LOOPFR, t.loopsFr) else []
  }

  /** Data is written when it is not that of the track before. */
  function SaveData(data: Data, before: Option<nat>): seq<Chunk> {
    if before == Some(data.addr) then [] else [Chunk(MDATA, data.bytes)]
  }

  function SaveNames(t: Track, title: Bytes, artist: Bytes): seq<Chunk> {
    SaveDiffer(MNAME, t.title, title) + SaveDiffer(ANAME, t.artist, artist) + SaveTags(t.tags)
  }

  function SaveStart(t: Track): seq<Chunk> {
    SaveReplay(t.replay) + SaveNonZero(D0, t.d0) + SaveNonZero(AT, if t.pic then 0 else t.a0)
  }

  function SaveRate(t: Track): seq<Chunk> {
    SaveNonZero(FRQ, if t.frq == 50 then 0 else t.frq) + SaveNonZero(FRAME, if t.hasTime then t.firstFr else 0)
  }

  function SaveParms(t: Track): seq<Chunk> {
    SaveStart(t) + SaveRate(t) + SaveLoop(t) + SaveNumber(TYP, t.flags) + (if t.sfx then [Chunk(SFX, [])] else [])
  }

  function SaveTrack(t: Track, title: Bytes, artist: Bytes, data: Option<nat>): seq<Chunk> {
    [Chunk(MUSIC, [])] + SaveNames(t, title, artist) + SaveParms(t) + SaveData(t.data, data)
  }

  function SaveTracks(ts: seq<Track>, title: Bytes, artist: Bytes, data: Option<nat>): seq<Chunk>
    decreases |ts|
  {
    if ts == [] then [] else
    SaveTrack(ts[0], title, artist, data) + SaveTracks(ts[1..], ts[0].title, ts[0].artist, Some(ts[0].data.addr))
  }

  function SaveAlbum(d: Disk): seq<Chunk> {
    SaveNoName(FNAME, d.title) + SaveNoName(ANAME, d.artist) + SaveNonZero(DEFAULT, d.defMus) + SaveTags(d.tags)
  }

  /** The chunks of a disk, between the first and the last. */
  function DiskChunks(d: Disk): seq<Chunk> {
    SaveAlbum(d) + SaveTracks(d.tracks, d.title, d.artist, None)
  }

  /** The base chunk announces `len` bytes, rounded up to an even number. */
  function BaseChunk(len: nat): (r: Bytes)
    ensures |r| == 8
  {
    [0x53, 0x43, Letter0(BASE), Letter1(BASE)] + Poke(len + len % 2)
  }

  /** save_sc68 after the identification string, with `len` in the base chunk. */
  function SaveBody(d: Disk, len: nat): Bytes {
    BaseChunk(len) + EncodeAll(DiskChunks(d)) + Encode(Chunk(EOF, []))
  }

  // ---- Identification strings.

  function Ascii(s: string): (r: Bytes)
    ensures |r| == |s|
  {
    seq(|s|, i requires 0 <= i < |s| => s[i] as int % 256)
  }

  const IDSTR_V1 := Ascii("SC68 Music-file ") + Ascii("/ (c) (BeN)jamin Gerard / SasHipA-Dev  ") + [0]
  const IDSTR_V2 := Ascii("SC68 M2") + [0]

  /** get_header: any version but 2 is the first. */
  function HeaderOf(version: int): Bytes {
    if version == 2 then IDSTR_V2 else IDSTR_V1
  }

  /** file68_save: a first pass to a null stream measures the length for the second. */
  function SaveFile(version: int, d: Disk): Bytes {
    var header := HeaderOf(version);
    header + SaveBody(d, |header + SaveBody(d, 0)| - |header|)
  }
}
