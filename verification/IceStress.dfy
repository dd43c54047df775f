/** Packing and depacking together: the stress run of unice68/unice68.c:579-641. */
module IceStress {
  import opened BitStacks
  import opened IcePack
  import opened IcePacker
  import opened IceDepack
  import opened IceDepacker
  import opened IceRoundTrip

  /** Depacking the packed form of any source of at least three bytes that the packer accepts
      rebuilds exactly that source, and the sizes in the header are the real ones. */
  lemma DepackUndoesPack(src: seq<Byte>, mem: int -> Byte, above: int -> Byte, dst: seq<Byte>)
    requires 3 <= |src| && |src| + |src| / 8 + 14 < 0x8000_0000 && |src| <= |dst|
    requires Pack(src).PackedFile? && Stores(mem, Pack(src).data)
    ensures MagicOk(mem) && GetInfo(mem, 4) == |Pack(src).data| && GetInfo(mem, 8) == |src|
    ensures Depack(mem, above, dst) == DepackResult(Returned(0), src + dst[|src|..])
    ensures DepackedSize(mem, 0) == DepackedSize(mem, |Pack(src).data|) == |src|
  {
    SegmentsSound(src);
    PackedSize(src, Segments(src));
    DepackPacked(mem, above, src, Segments(src), dst);
  }

  /** The stress run: pack, check the sizes, depack. `past` is the byte after the source,
      `outside` and `above` what lies around the packed data and above the destination. */
  method Stress(src: seq<Byte>, past: Byte, outside: int -> Byte, above: int -> Byte)
    returns (size: int, outcome: Outcome, back: array<Byte>)
    requires 3 <= |src| && |src| + |src| / 2 + 1000 < 0x8000_0000
    ensures match Pack(src)
            case PackError => size == -1
            case PackedFile(data) => size == |data| && outcome == Returned(0) && back[..] == src
  {
    hide Pack, Depack, MagicOk, GetInfo, DepackedSize;
    var buffer := new Byte[|src| + |src| / 2 + 1000];
    var packer := new Packer(src, past, buffer);
    size := packer.UnicePacker();
    back := new Byte[|src|];
    if size == -1 {
      outcome := Returned(-1);
      return;
    }
    var packed := buffer[..size];
    var mem := (i: int) => if 0 <= i < |packed| then packed[i] else outside(i);
    PackFits(src);
    DepackUndoesPack(src, mem, above, back[..]);
    var depacker := new Depacker(mem, above, back);
    outcome := depacker.IceDecrunch();
  }
}
