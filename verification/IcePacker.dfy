/** The packer as the source writes it (unice68/unice68_pack.c): registers, search loops and a
    buffer filled upwards. Every routine is proved to do what IceFormat and IcePack say. */
module IcePacker {
  import opened Powers
  import opened BitStacks
  import opened IceFormat
  import opened IcePack

  class Packer {
    const src: seq<Byte>
    // What a read of the byte just past the source answers.
    const past: Byte
    const dst: array<Byte>
    var srcend: nat
    var a0: nat
    var a1: nat
    var d1: int
    var d4: int
    var d5: nat
    var d6: int
    var d7: int
    var error: int
    var maxlength: nat
    var maxgleich: nat
    var maxoffset: nat

    constructor (src: seq<Byte>, past: Byte, dst: array<Byte>)
      ensures this.src == src && this.past == past && this.dst == dst
      ensures srcend == |src| && a0 == 0 && a1 == 0 && error == 0
    {
      this.src, this.past, this.dst := src, past, dst;
      srcend, a0, a1 := |src|, 0, 0;
      d1, d4, d5, d6, d7 := 0, 0, 0, 0, 0;
      error, maxlength, maxgleich, maxoffset := 0, 0, 0, 0;
    }

    /** The stream written so far. */
    ghost function Stream(): BitStack
      requires 12 <= a1 <= dst.Length
      reads this, dst
    {
      BitStack(dst[12..a1], d7, d6)
    }

    /** The stream is well formed and `n` more bits fit in the buffer. */
    ghost predicate Room(n: int)
      reads this, dst
    {
      12 <= a1 <= dst.Length && Stream().Valid() && 8 * a1 + 7 - d6 + n <= 8 * dst.Length
    }

    ghost function Header(): seq<Byte>
      requires 12 <= dst.Length
      reads this, dst
    {
      dst[..12]
    }

    /** Store the 32-bit value in `d7`, high byte first. */
    method LongwordStore()
      requires 0 <= d7 < 0x8000_0000 && a1 + 4 <= dst.Length
      modifies `a1, dst
      ensures a1 == old(a1) + 4
      ensures dst[..] == old(dst[..])[..old(a1)] + Big32(d7) + old(dst[..])[a1..]
    {
      dst[a1] := d7 / 0x100_0000 % 256;
      dst[a1 + 1] := d7 / 0x1_0000 % 256;
      dst[a1 + 2] := d7 / 256 % 256;
      dst[a1 + 3] := d7 % 256;
      a1 := a1 + 4;
    }

    /** One turn of put_bits: the low bit of `d1` enters the accumulator at the top. */
    method PutBit()
      requires Room(1)
      modifies `a1, `d1, `d6, `d7, dst
      ensures Room(0) && 8 * a1 - d6 == old(8 * a1 - d6) + 1
      ensures Stream() == PushBit(old(Stream()), old(d1) % 2) && d1 == old(d1) / 2
      ensures Header() == old(Header())
    {
      PushBitValid(Stream(), d1 % 2);
      d7 := d7 + 256 * (d1 % 2);
      d1 := d1 / 2;
      d7 := d7 / 2;
      d6 := d6 - 1;
      if d6 < 0 {
        dst[a1] := d7;
        a1 := a1 + 1;
        d7 := 0;
        d6 := 7;
      }
      assert Stream() == PushBit(old(Stream()), old(d1) % 2);
    }

    /** Store the low `d4 + 1` bits of `d1`. */
    method PutBits()
      requires 0 <= d4 < 32 && Room(d4 + 1)
      modifies `a1, `d1, `d4, `d6, `d7, dst
      ensures Room(0) && Stream() == PushBits(old(Stream()), old(d1), old(d4) + 1)
      ensures Header() == old(Header())
    {
      while true
        invariant 0 <= d4 <= old(d4) && Room(d4 + 1)
        invariant PushBits(Stream(), d1, d4 + 1) == PushBits(old(Stream()), old(d1), old(d4) + 1)
        invariant Header() == old(Header())
        decreases d4
      {
        PushBitsCons(Stream(), d1, d4);
        PutBit();
        d4 := d4 - 1;
        if d4 < 0 { break; }
      }
    }

    /** Store a code whose value is in `d1`. */
    method PutCode(ghost c: Code)
      requires c.width == d4 + 1 <= 32 && c.value == d1 && 0 <= d4 && Room(c.width)
      modifies `a1, `d1, `d4, `d6, `d7, dst
      ensures Room(0) && Stream() == PushCode(old(Stream()), c)
      ensures Stream().Size() == old(Stream()).Size() + c.width
      ensures Header() == old(Header())
    {
      PushBitsSize(Stream(), d1, d4 + 1);
      PutBits();
    }

    method MakeNormalBytes()
      requires Room(LitCode(d5).width)
      modifies `a1, `d1, `d4, `d5, `d6, `d7, `error, `srcend, dst
      ensures Room(0) && Stream() == PushCode(old(Stream()), LitCode(old(d5))) && d5 == 0
      ensures Stream().Size() == old(Stream()).Size() + LitCode(old(d5)).width
      ensures if old(d5) > MAX_LITS then error == -1 && srcend == a0 else error == old(error) && srcend == old(srcend)
      ensures Header() == old(Header())
    {
      hide PushCode, LitCode, OnesAbove;
      if d5 > MAX_LITS {
        error := -1;
        srcend := a0;
      }
      ghost var c := LitCode(d5);
      var d3 := 6;
      while d5 < T1A[d3]
        invariant 0 <= d3 <= 6 && ClassOf(T1A, d5, d3) == ClassOf(T1A, d5, 6)
      {
        d3 := d3 - 1;
      }
      LitCodeCost(d5);
      LitCodeIs(d5, d3);
      d5 := d5 - T1A[d3];
      d1 := OnesAbove(TIB0[d3], d5);
      d5 := 0;
      d4 := TIB1[d3] - 1;
      PutCode(c);
    }

    method MakeOffset2(d0: nat)
      requires d0 <= MAX_OFF2 && Room(Offset2Code(d0).width)
      modifies `a1, `d1, `d4, `d6, `d7, dst
      ensures Room(0) && Stream() == PushCode(old(Stream()), Offset2Code(d0))
      ensures Stream().Size() == old(Stream()).Size() + Offset2Code(d0).width
      ensures Header() == old(Header())
    {
      d1 := d0;
      if d1 > 0x3f {
        d4 := 9;
        d1 := SetBit(d1 - 0x40, 9);
      } else {
        d4 := 6;
      }
      PutCode(Offset2Code(d0));
    }

    method MakeOffsetMehr(d0: nat)
      requires Room(OffsetMoreCode(d0).width)
      modifies `a1, `d1, `d4, `d6, `d7, dst
      ensures Room(0) && Stream() == PushCode(old(Stream()), OffsetMoreCode(d0))
      ensures Stream().Size() == old(Stream()).Size() + OffsetMoreCode(d0).width
      ensures Header() == old(Header())
    {
      var d3 := 2;
      while d0 < TABLE3[d3]
        invariant 0 <= d3 <= 2 && ClassOf(TABLE3, d0, d3) == ClassOf(TABLE3, d0, 2)
      {
        d3 := d3 - 1;
      }
      d1 := OnesAbove(TABLE3[3 + d3] / 256, d0 - TABLE3[d3]);
      d4 := TABLE3[3 + d3] % 16;
      PutCode(OffsetMoreCode(d0));
    }

    method MakeStringlength()
      requires 2 <= maxlength && Room(LenCode(maxlength).width)
      modifies `a1, `d1, `d4, `d6, `d7, dst
      ensures Room(0) && Stream() == PushCode(old(Stream()), LenCode(maxlength))
      ensures Stream().Size() == old(Stream()).Size() + LenCode(maxlength).width
      ensures Header() == old(Header())
    {
      var i := 4;
      while maxlength < TA[i]
        invariant 0 <= i <= 4 && ClassOf(TA, maxlength, i) == ClassOf(TA, maxlength, 4)
      {
        i := i - 1;
      }
      d1 := OnesAbove(TB[i], maxlength - TA[i]);
      d4 := TB[i] + i - 1;
      PutCode(LenCode(maxlength));
    }

    /** `*p` for `p` up to one past the source. */
    function Peek(p: nat): Byte {
      if p < |src| then src[p] else past
    }

    /** The run of identical bytes at `a0`. */
    method FindRun()
      requires InSource(src, a0) && srcend == |src|
      modifies `maxgleich
      ensures maxgleich == RunLen(src, a0)
    {
      var a4 := a0 + 0x409;
      if a4 > srcend { a4 := srcend; }
      var a3 := a0 + 1;
      var d0 := src[a0];
      ghost var differs := false;
      while true
        invariant a0 < a3 < a4 && !differs
        invariant forall i :: a0 <= i < a3 ==> src[i] == d0
        decreases a4 - a3
      {
        a3 := a3 + 1;
        if src[a3 - 1] != d0 { differs := true; break; }
        if !(a3 < a4) { break; }
      }
      maxgleich := a3 - a0 - 2;
      CommonLenIs(src, a0, a0 + 1, a4 - a0 - 2, maxgleich);
    }

    /** The length of the match of `a0` at `c`, where the first two bytes are known to agree. */
    method CompareStrings(c: nat, a3: nat) returns (d1: nat, d2: nat)
      requires InSource(src, a0) && a0 + 2 <= c < a3 == SearchEnd(src, a0)
      requires src[c] == src[a0]
      ensures d1 == CommonLen(src, a0, c, Min(c - a0, a3 - c - 1)) && d2 == c - a0 - d1 + 1
    {
      var a6, a5 := c, a0;
      ghost var k := 0;
      while true
        invariant a5 == a0 + k && a6 == c + k && a6 < a3 && k <= c - a0
        invariant SameBytes(src, a0, c, k)
        decreases a3 - a6
      {
        a5 := a5 + 1;
        a6 := a6 + 1;
        if src[a5 - 1] != src[a6 - 1] { break; }
        if a5 > c { break; }
        if !(a6 < a3) { break; }
        k := k + 1;
      }
      d1 := a5 - a0 - 1;
      d2 := a6 - a5 - d1 + 1;
      CommonLenIs(src, a0, c, Min(c - a0, a3 - c - 1), d1);
    }

    /** `d4`, `maxlength` and `maxoffset` hold the best match below `c`. */
    ghost predicate Best(d4: nat, c: nat)
      requires InSource(src, a0) && a0 + 2 <= c <= SearchEnd(src, a0)
      reads this
    {
      d4 == BestUpTo(src, a0, c).len && (d4 > 1 ==> Match(maxlength, maxoffset) == BestUpTo(src, a0, c))
    }

    /** From string_start_found to string_lohnt_nicht: the candidate `c` against the best so far,
        of length `best`. */
    method TryString(c: nat, a3: nat, best: nat) returns (d4: nat)
      requires InSource(src, a0) && a0 + 2 <= c < a3 == SearchEnd(src, a0)
      requires src[c] == src[a0] && best < MAX_LEN && Best(best, c)
      modifies `maxlength, `maxoffset
      ensures Best(d4, c + 1)
    {
      hide CommonLen, BestUpTo;
      BestNext(src, a0, c);
      var len, off := CompareStrings(c, a3);
      CommonLenCap(src, a0, c, Min(c - a0, a3 - c - 1), MAX_LEN);
      if len > 0x409 {
        off := off + (len - 0x409);
        len := 0x409;
      }
      d4 := best;
      if d4 < len && (len <= 2 || off <= 0x111f) {
        d4 := len;
        maxlength := len;
        maxoffset := off;
      }
    }

    /** One turn of the search: a candidate is only looked at when its first two bytes agree, and
        none is once the best is as long as it can be. */
    method SearchTurn(c: nat, a3: nat, best: nat) returns (d4: nat, settled: bool)
      requires InSource(src, a0) && a0 + 2 <= c < a3 == SearchEnd(src, a0) && srcend == |src| && Best(best, c)
      modifies `maxlength, `maxoffset
      ensures Best(d4, if settled then a3 else c + 1)
    {
      hide BestUpTo;
      BestInRange(src, a0, c);
      d4, settled := best, false;
      if Peek(c) == src[a0] && Peek(c + 1) == src[a0 + 1] {
        if best == 0x409 {
          BestSettled(src, a0, c, a3);
          settled := true;
        } else {
          d4 := TryString(c, a3, best);
        }
      } else {
        MatchShort(src, a0, c);
      }
    }

    /** The best match in the window: the search of weiter_mit_string. */
    method FindString() returns (d4: nat)
      requires InSource(src, a0) && srcend == |src|
      modifies `maxlength, `maxoffset
      ensures Best(d4, SearchEnd(src, a0))
    {
      var a3 := a0 + OPTIMIZE;
      if a3 > srcend { a3 := srcend; }
      d4 := 1;
      var a4, settled := a0 + 2, false;
      assert Best(d4, a4);
      hide BestUpTo;
      while true
        invariant a0 + 2 <= a4 < a3 == SearchEnd(src, a0)
        invariant Best(d4, a4)
        decreases a3 - a4
      {
        a4 := a4 + 1;
        d4, settled := SearchTurn(a4 - 1, a3, d4);
        if settled || !(a4 < a3) { break; }
      }
    }

    /** ein_byte_ablegen: a byte is stored as it is. */
    method StoreLiteral()
      requires a0 < |src| && Room(8)
      modifies `a0, `a1, `d5, dst
      ensures a0 == old(a0) + 1 && d5 == old(d5) + 1
      ensures 8 * a1 - d6 == old(8 * a1 - d6) + 8
      ensures Room(0) && Stream() == PushBytes(old(Stream()), [src[old(a0)]])
      ensures Header() == old(Header())
    {
      dst[a1] := src[a0];
      a1 := a1 + 1;
      a0 := a0 + 1;
      d5 := d5 + 1;
    }

    /** The offset code of a copy of `maxlength` bytes. */
    method MakeOffset(d0: nat)
      requires maxlength == 2 ==> d0 <= MAX_OFF2
      requires Room(Segment(0, maxlength, d0).OffCode().width)
      modifies `a1, `d1, `d4, `d6, `d7, dst
      ensures Room(0) && Stream() == PushCode(old(Stream()), Segment(0, maxlength, d0).OffCode())
      ensures Stream().Size() == old(Stream()).Size() + Segment(0, maxlength, d0).OffCode().width
      ensures Header() == old(Header())
    {
      hide PushCode, Offset2Code, OffsetMoreCode;
      if maxlength == 2 {
        MakeOffset2(d0);
      } else {
        MakeOffsetMehr(d0);
      }
    }

    /** The codes of a copy of `maxlength` bytes with offset `d0`, after the count of the pending
        literals. */
    method StoreCopy(d0: nat)
      requires Segment(d5, maxlength, d0).Codable() && Room(d5 + 8 * maxlength - 3) && srcend == |src|
      modifies `a0, `a1, `d1, `d4, `d5, `d6, `d7, `error, `srcend, dst
      ensures d5 == 0 && a0 == old(a0) + maxlength
      ensures Room(0) && Stream() == PushCodes(old(Stream()), Segment(old(d5), maxlength, d0))
      ensures Stream().Size() <= old(Stream()).Size() + old(d5) + 8 * maxlength - 3
      ensures if old(d5) > MAX_LITS then error == -1 && srcend == old(a0) else error == old(error) && srcend == |src|
      ensures Header() == old(Header())
    {
      hide PushCode, LitCode, LenCode, Offset2Code, OffsetMoreCode;
      ghost var s := Segment(d5, maxlength, d0);
      LitCodeCost(d5);
      CopyCodesCost(s);
      MakeNormalBytes();
      MakeOffset(d0);
      MakeStringlength();
      a0 := a0 + maxlength;
    }

    /** Where the main loop stands: `done` are the segments stored, and `d5` literals after them. */
    ghost predicate Crunching(done: seq<Segment>)
      reads this, dst
    {
      && Room(0) && 8 * dst.Length >= 9 * |src| + 105
      && Span(done) + d5 == a0 <= |src|
      && Stream() == PushBytes(Written(src, done), src[Span(done)..a0])
      && Stream().Size() + d5 <= 9 * a0 + 1
      && Segments(src) == done + SegmentsFrom(src, a0, d5)
      && error == 0 && srcend == |src| && forall s <- done :: s.lits <= MAX_LITS
    }

    /** After a literal run too long to be counted: `src_ende` has been pulled below `a0`, so the
        packer only closes the stream and reports the error. */
    ghost predicate Failed()
      reads this, dst
    {
      && Room(0) && d5 == 0 && srcend <= a0 && error == -1
      && Stream().Size() <= 9 * |src| + 1 && 8 * dst.Length >= 9 * |src| + 105
      && !Countable(src, Segments(src))
    }

    /** A copy is stored and the loop goes on, or the run before it was too long. */
    method CrunchCopy(ghost done: seq<Segment>, d0: nat) returns (ghost done': seq<Segment>)
      requires InSource(src, a0) && Crunching(done) && maxlength > 1
      requires Choose(src, a0) == Match(maxlength, d0)
      modifies `a0, `a1, `d1, `d4, `d5, `d6, `d7, `error, `srcend, dst
      ensures a0 > old(a0)
      ensures if error == 0 then Crunching(done') else Failed()
      ensures Header() == old(Header())
    {
      hide Choose, Written, PushCodes, Segments, SegmentsFrom;
      ChooseSound(src, a0, d5);
      CopyStep(src, done, a0, Segment(d5, maxlength, d0));
      CopyWritten(src, done, a0, Segment(d5, maxlength, d0));
      done' := done + [Segment(d5, maxlength, d0)];
      StoreCopy(d0);
    }

    /** A literal is stored. */
    method CrunchLiteral(ghost done: seq<Segment>)
      requires a0 < |src| && Crunching(done) && (InSource(src, a0) ==> Choose(src, a0).len == 1)
      modifies `a0, `a1, `d5, dst
      ensures a0 == old(a0) + 1 && Crunching(done)
      ensures Header() == old(Header())
    {
      hide Written, Segments, SegmentsFrom, Choose, Span;
      LiteralStep(src, done, a0, d5);
      StoreLiteral();
    }

    /** The choice of a copy or a literal at `a0`: the length and the offset of the copy. */
    method PickMatch(ghost done: seq<Segment>) returns (d4: nat, d0: nat)
      requires InSource(src, a0) && Crunching(done)
      modifies `maxlength, `maxgleich, `maxoffset
      ensures Crunching(done)
      ensures if d4 == 1 || (d4 == 2 && d0 > 0x23f) then Choose(src, a0).len == 1
              else maxlength > 1 && Choose(src, a0) == Match(maxlength, d0)
    {
      hide Written, Segments, SegmentsFrom, Span, BestUpTo, RunLen;
      FindRun();
      BestSound(src, a0, SearchEnd(src, a0));
      d4 := FindString();
      if maxgleich > 1 && maxgleich >= d4 {
        d4 := maxgleich;
        maxlength := d4;
        d0 := 0;
      } else {
        d0 := maxoffset;
      }
    }

    /** One turn of the main loop. */
    method CrunchTurn(ghost done: seq<Segment>) returns (ghost done': seq<Segment>)
      requires InSource(src, a0) && Crunching(done)
      modifies `a0, `a1, `d1, `d4, `d5, `d6, `d7, `error, `srcend, `maxlength, `maxgleich, `maxoffset, dst
      ensures a0 > old(a0)
      ensures if error == 0 then Crunching(done') else Failed()
      ensures Header() == old(Header())
    {
      hide Choose, Written, Segments, SegmentsFrom, Span;
      done' := done;
      var d4, d0 := PickMatch(done);
      if d4 == 1 || (d4 == 2 && d0 > 0x23f) {
        CrunchLiteral(done);
      } else {
        done' := CrunchCopy(done, d0);
      }
    }

    /** ice_crunch up to the closing byte. */
    method CrunchBody()
      requires InSource(src, 0) && Crunching([]) && a0 == 0
      modifies `a0, `a1, `d1, `d4, `d5, `d6, `d7, `error, `srcend, `maxlength, `maxgleich, `maxoffset, dst
      ensures Room(0) && 8 * a1 <= 9 * |src| + 99 && a1 < dst.Length
      ensures error == 0 || error == -1
      ensures error == 0 <==> Countable(src, Segments(src))
      ensures error == 0 ==> Span(Segments(src)) <= |src| && Stream() == Payload(src, Segments(src))
      ensures Header() == old(Header())
    {
      ghost var done: seq<Segment> := [];
      while true
        invariant InSource(src, a0) && Crunching(done)
        invariant Header() == old(Header())
        decreases |src| - a0
      {
        done := CrunchTurn(done);
        if srcend - a0 - 3 < 0 { break; }
      }
      CrunchEnd(done);
    }

    /** still_packing and all_packed: what is left of the source, and its count. */
    method CrunchEnd(ghost done: seq<Segment>)
      requires if error == 0 then Crunching(done) && !InSource(src, a0) else Failed()
      modifies `a0, `a1, `d1, `d4, `d5, `d6, `d7, `error, `srcend, dst
      ensures Room(0) && 8 * a1 <= 9 * |src| + 99 && a1 < dst.Length
      ensures error == 0 || error == -1
      ensures error == 0 <==> Countable(src, Segments(src))
      ensures error == 0 ==> Span(Segments(src)) <= |src| && Stream() == Payload(src, Segments(src))
      ensures Header() == old(Header())
    {
      while a0 < srcend
        invariant if error == 0 then Crunching(done) && !InSource(src, a0) else Failed()
        invariant Header() == old(Header())
        decreases srcend - a0
      {
        CrunchLiteral(done);
      }
      LitCodeCost(d5);
      if error == 0 { AllPacked(src, done, a0, d5); }
      MakeNormalBytes();
    }

    /** The end of ice_crunch: the sentinel, the closing byte and the packed size. */
    method CloseFile() returns (size: int)
      requires Room(0) && a1 < dst.Length < 0x8000_0000
      modifies `a1, `d7, dst
      ensures size == old(a1) + 1 && a1 <= dst.Length
      ensures 0 < old(Stream()).Closed() < 256
      ensures dst[..size] == old(Header())[..4] + Big32(size) + old(Header())[8..] + old(Stream()).bytes
              + [old(Stream()).Closed()]
    {
      ClosedByte(Stream());
      SentinelBit(Stream());
      ghost var st, header := Stream(), Header();
      d7 := SetBit(d7, d6);
      dst[a1] := d7;
      a1 := a1 + 1;
      size := a1;
      assert dst[..size] == header + st.bytes + [st.Closed()];
      d7 := size;
      a1 := 4;
      LongwordStore();
    }

    /** unice68_packer on a fresh object. */
    method UnicePacker() returns (r: int)
      requires InSource(src, 0) && srcend == |src| && a0 == 0 && a1 == 0 && error == 0
      requires |src| + |src| / 8 + 14 <= dst.Length < 0x8000_0000
      modifies this, dst
      ensures match Pack(src)
              case PackError => r == -1
              case PackedFile(data) => r == |data| <= dst.Length && dst[..r] == data
    {
      hide Pack, Packed, Payload, Written, Segments, SegmentsFrom, Span, Countable;
      StartStream();
      PackIs(src);
      SegmentsSound(src);
      CrunchBody();
      if error != 0 {
        return -1;
      }
      ghost var st, header := Stream(), Header();
      r := CloseFile();
      FilePieces(src, Segments(src), st, header, dst[..r]);
    }

    /** The header, and the clear picture flag behind it. */
    method StartStream()
      requires InSource(src, 0) && srcend == |src| && a0 == 0 && a1 == 0 && error == 0
      requires |src| + |src| / 8 + 14 <= dst.Length < 0x8000_0000
      modifies this, dst
      ensures Crunching([]) && a0 == 0
      ensures Header()[..4] == MAGIC && Header()[8..] == Big32(|src|)
    {
      hide SegmentsFrom;
      WriteHeader();
      FlagBit();
      PutBits();
    }

    /** The magic and the source size, and the registers put_bits starts from. */
    method WriteHeader()
      requires a1 == 0 && 12 <= dst.Length && |src| < 0x8000_0000
      modifies `a1, `d1, `d4, `d5, `d6, `d7, dst
      ensures a1 == 12 && Stream() == EMPTY && d1 == d4 == d5 == 0
      ensures Header()[..4] == MAGIC && Header()[8..] == Big32(|src|)
    {
      d7 := 0x49636521;
      LongwordStore();
      assert dst[..4] == MAGIC;
      a1 := a1 + 4;
      d7 := |src|;
      LongwordStore();
      assert dst[..4] == MAGIC && dst[8..12] == Big32(|src|);
      d1, d4, d5, d7 := 0, 0, 0, 0;
      d6 := 7;
    }
  }

  lemma BestInRange(src: seq<Byte>, a0: nat, c: nat)
    requires InSource(src, a0) && a0 + 2 <= c <= SearchEnd(src, a0)
    ensures BestUpTo(src, a0, c).len <= MAX_LEN
  {
    BestSound(src, a0, c);
  }

  lemma LitCodeIs(n: nat, i: nat)
    requires i <= 6 && T1A[i] <= n && ClassOf(T1A, n, i) == ClassOf(T1A, n, 6)
    ensures LitCode(n) == Code(OnesAbove(TIB0[i], n - T1A[i]), TIB1[i]) && 1 <= TIB1[i] <= 32
  {}

  /** The pieces of a packed file. */
  lemma FilePieces(src: seq<Byte>, segs: seq<Segment>, st: BitStack, header: seq<Byte>, file: seq<Byte>)
    requires Span(segs) <= |src| && st == Payload(src, segs) && 0 < st.Closed() < 256
    requires |header| == 12 && header[..4] == MAGIC && header[8..] == Big32(|src|)
    requires file == header[..4] + Big32(|file|) + header[8..] + st.bytes + [st.Closed()]
    ensures file == Packed(src, segs)
  {
    assert |file| == 13 + |st.bytes|;
  }

  lemma PackIs(src: seq<Byte>)
    ensures Span(Segments(src)) <= |src|
    ensures Pack(src)
            == if Countable(src, Segments(src)) then PackedFile(Packed(src, Segments(src))) else PackError
  {
    hide Packed, Segments, Countable, Span;
    SegmentsSound(src);
  }

  /** One clear bit on the empty stream. */
  lemma FlagBit()
    ensures PushBits(EMPTY, 0, 1) == FLAGGED
  {
    assert PushBits(EMPTY, 0, 1) == PushBit(PushBits(EMPTY, 0, 0), BitOf(0, 0));
  }

  /** The sentinel goes into a free bit. */
  lemma SentinelBit(st: BitStack)
    requires st.Valid()
    ensures SetBit(st.d7, st.d6) == st.Closed()
  {
    SplitMod(st.d7, Pow2(st.d6));
    assert st.d7 / Pow2(st.d6) % 2 == 0;
  }

  /** A copy takes the first of the segments still to come. */
  lemma CopyStep(src: seq<Byte>, done: seq<Segment>, a0: nat, s: Segment)
    requires InSource(src, a0) && Span(done) + s.lits == a0 && a0 + s.len <= |src|
    requires s.len > 1 && Choose(src, a0) == Match(s.len, s.off)
    ensures done + SegmentsFrom(src, a0, s.lits) == done + [s] + SegmentsFrom(src, a0 + s.len, 0)
    ensures s in done + SegmentsFrom(src, a0, s.lits)
  {
    SegmentsCons(src, done, a0, s.lits, s);
    assert (done + [s] + SegmentsFrom(src, a0 + s.len, 0))[|done|] == s;
  }

  lemma CopyWritten(src: seq<Byte>, done: seq<Segment>, a0: nat, s: Segment)
    requires Span(done) + s.lits == a0 && a0 + s.len <= |src|
    ensures Span(done + [s]) == a0 + s.len
    ensures PushBytes(Written(src, done + [s]), src[Span(done + [s])..a0 + s.len])
         == PushCodes(PushBytes(Written(src, done), src[Span(done)..a0]), s)
  {
    hide PushCodes;
    SpanSnoc(done, s);
    assert (done + [s])[..|done|] == done;
    var st := Written(src, done + [s]);
    assert st.bytes + [] == st.bytes;
  }

  /** A literal moves the segments still to come one byte on. */
  lemma LiteralStep(src: seq<Byte>, done: seq<Segment>, a0: nat, d5: nat)
    requires Span(done) <= a0 < |src| && (InSource(src, a0) ==> Choose(src, a0).len == 1)
    ensures SegmentsFrom(src, a0, d5) == SegmentsFrom(src, a0 + 1, d5 + 1)
    ensures PushBytes(PushBytes(Written(src, done), src[Span(done)..a0]), [src[a0]])
         == PushBytes(Written(src, done), src[Span(done)..a0 + 1])
  {
    hide Written, Choose, Span;
    assert src[Span(done)..a0] + [src[a0]] == src[Span(done)..a0 + 1];
    var bs, x, y := Written(src, done).bytes, src[Span(done)..a0], [src[a0]];
    assert bs + x + y == bs + (x + y);
  }

  /** At the end of the source all its segments are stored, and the count of the last literals
      completes the stream. */
  lemma AllPacked(src: seq<Byte>, done: seq<Segment>, a0: nat, d5: nat)
    requires a0 == |src| && Span(done) + d5 == a0 && Segments(src) == done + SegmentsFrom(src, a0, d5)
    requires forall s <- done :: s.lits <= MAX_LITS
    ensures Span(Segments(src)) <= |src| && (Countable(src, Segments(src)) <==> d5 <= MAX_LITS)
    ensures Payload(src, Segments(src)) == PushCode(PushBytes(Written(src, done), src[Span(done)..a0]), LitCode(d5))
  {
    hide Written, LitCode, Choose, PushCode;
    assert done == Segments(src) && src[Span(done)..a0] == src[Span(done)..];
  }
}
