/** The depacker as the source writes it: registers, loops and a buffer filled downwards.
    Every routine is proved to do what its function in IceDepack says. */
module IceDepacker {
  import opened BitStacks
  import opened IceDepack

  /** The addresses from just below `top` downwards, none below 0. */
  ghost predicate Downwards(addresses: seq<int>, top: int) {
    forall i :: 0 <= i < |addresses| ==> addresses[i] == top - 1 - i >= 0
  }

  lemma CopyLitsCons(env: Env, m: Machine, n: nat)
    requires 0 < n <= m.a6 <= |m.dst|
    ensures var m' := m.(dst := m.dst[m.a6 - 1 := env.mem(m.a5 - 1)], a6 := m.a6 - 1, a5 := m.a5 - 1);
            CopyLits(env, m, n) == CopyLits(env, m', n - 1) && (n == 1 ==> CopyLits(env, m, n) == m')
  {}

  lemma NothingCopied(env: Env, m: Machine, a1: int)
    requires 0 <= m.a6 <= |m.dst|
    ensures CopyBack(env, m, a1, 0) == m
  {}

  class Depacker {
    const mem: int -> Byte
    const above: int -> Byte
    const dst: array<Byte>
    var srcend: int
    var dstend: int
    var d7: Byte
    var a5: int
    var a6: int
    var overflow: Overflow
    // The addresses stored to so far, in order.
    ghost var stores: seq<int>

    constructor (mem: int -> Byte, above: int -> Byte, dst: array<Byte>)
      ensures this.mem == mem && this.above == above && this.dst == dst && stores == []
    {
      this.mem, this.above, this.dst := mem, above, dst;
      srcend, dstend, d7, a5, a6 := 0, 0, 0, 0, 0;
      overflow := NO_OVERFLOW;
      stores := [];
    }

    ghost function EnvNow(): Env
      reads this
    {
      Env(mem, above, srcend, dstend)
    }

    ghost function Now(): Machine
      reads this, dst
    {
      Machine(d7, a5, a6, overflow, dst[..])
    }

    /** What has been stored is exactly the part of the destination from `a6` up, downwards. */
    ghost predicate StoredDown()
      reads this
    {
      && |stores| == (if dstend > a6 then dstend - a6 else 0)
      && forall i :: 0 <= i < |stores| ==> stores[i] == dstend - 1 - i
    }

    method ChkDstRange(a: int, b: int) returns (bad: bool)
      modifies `overflow
      ensures overflow == ChkDst(EnvNow(), old(overflow), a, b) && bad == overflow.Any()
    {
      if a < 0 { overflow := overflow.(dstLow := true); }
      if b >= dstend { overflow := overflow.(dstHigh := true); }
      bad := overflow.Any();
    }

    method ChkSrcRange(a: int, b: int) returns (bad: bool)
      modifies `overflow
      ensures overflow == ChkSrc(EnvNow(), old(overflow), a, b) && bad == overflow.Any()
    {
      if a < 0 { overflow := overflow.(srcLow := true); }
      if b >= srcend { overflow := overflow.(srcHigh := true); }
      bad := overflow.Any();
    }

    method GetBit() returns (bit: Bit)
      modifies `d7, `a5, `overflow
      ensures BitRead(bit, Now()) == Get1Bit(EnvNow(), old(Now()))
    {
      var r := d7 * 2;
      if Low8(r) == 0 {
        var _ := ChkSrcRange(a5 - 1, a5 - 1);
        a5 := a5 - 1;
        r := Carry(r) + mem(a5) * 2;
      }
      d7 := Low8(r);
      bit := Carry(r);
    }

    method GetBits(r0: nat) returns (r1: int)
      modifies `d7, `a5, `overflow
      ensures NumRead(r1, Now()) == GetD0Bits(EnvNow(), old(Now()), r0)
    {
      r1 := 0;
      if r0 > 15 {
        overflow := overflow.(count := true);
        return;
      }
      var left: int := r0;
      while true
        invariant 0 <= left <= r0
        invariant ReadBits(EnvNow(), Now(), left + 1, r1) == ReadBits(EnvNow(), old(Now()), r0 + 1, 0)
        invariant srcend == old(srcend) && dstend == old(dstend) && dst[..] == old(dst[..]) && a6 == old(a6)
        decreases left
      {
        var bit := GetBit();
        r1 := r1 + r1 + bit;
        left := left - 1;
        if left < 0 { break; }
      }
    }

    /** `*--a6 = b`. */
    method Store(b: Byte)
      requires 0 < a6 <= dst.Length
      requires StoredDown() && a6 <= dstend
      modifies `a6, `stores, dst
      ensures a6 == old(a6) - 1 && dst[..] == old(dst[..])[a6 := b]
      ensures StoredDown()
    {
      a6 := a6 - 1;
      dst[a6] := b;
      stores := stores + [a6];
    }

    /** The literals of a turn, copied down from the stream. */
    method CopyDirekt(n: nat)
      requires 0 < n <= a6 <= dst.Length && StoredDown() && a6 <= dstend
      modifies `a5, `a6, `stores, dst
      ensures Now() == CopyLits(EnvNow(), old(Now()), n)
      ensures StoredDown()
    {
      hide CopyLits;
      var d1: int := n - 1;
      while true
        invariant 0 <= d1 < n && a6 == old(a6) - (n - 1 - d1)
        invariant CopyLits(EnvNow(), Now(), d1 + 1) == CopyLits(EnvNow(), old(Now()), n)
        invariant StoredDown() && a6 <= dst.Length && a6 <= dstend
        decreases d1
      {
        CopyLitsCons(EnvNow(), Now(), d1 + 1);
        a5 := a5 - 1;
        Store(mem(a5));
        d1 := d1 - 1;
        if d1 < 0 { break; }
      }
    }

    method LiteralCount() returns (d1: int)
      modifies `d7, `a5, `overflow
      ensures NumRead(d1, Now()) == LitCount(EnvNow(), old(Now()))
    {
      var bit := GetBit();
      if bit == 0 { return 0; }
      var d3 := 4;
      while true
        invariant 0 <= d3 <= 4
        invariant NextGb(EnvNow(), Now(), d3) == LitCount(EnvNow(), old(Now()))
        invariant srcend == old(srcend) && dstend == old(dstend) && dst[..] == old(dst[..]) && a6 == old(a6)
        decreases d3
      {
        d1 := GetBits(DirektLow(d3));
        if d1 != DirektHigh(d3) || d3 == 0 { break; }
        d3 := d3 - 1;
      }
      d1 := d1 + DirektAdd(d3);
    }

    method CountOnes(top: nat) returns (d2: int)
      modifies `d7, `a5, `overflow
      ensures NumRead(d2, Now()) == CountDown(EnvNow(), old(Now()), top)
    {
      d2 := top;
      while true
        invariant 0 <= d2 <= top
        invariant CountDown(EnvNow(), Now(), d2) == CountDown(EnvNow(), old(Now()), top)
        invariant srcend == old(srcend) && dstend == old(dstend) && dst[..] == old(dst[..]) && a6 == old(a6)
        decreases d2
      {
        var bit := GetBit();
        if bit == 0 { break; }
        d2 := d2 - 1;
        if d2 < 0 { break; }
      }
    }

    method StringLength() returns (d4: int)
      modifies `d7, `a5, `overflow
      ensures NumRead(d4, Now()) == CopyLength(EnvNow(), old(Now()))
    {
      var d2 := CountOnes(3);
      CountDownProgress(EnvNow(), old(Now()), 3);
      var d1, d0 := 0, LengthBits(d2);
      if d0 >= 0 { d1 := GetBits(d0); }
      d4 := LengthBase(d2) + d1;
    }

    method StringOffset(d4: nat) returns (d1: int)
      modifies `d7, `a5, `overflow
      ensures NumRead(d1, Now()) == CopyOffset(EnvNow(), old(Now()), d4)
    {
      if d4 == 0 {
        var d0, d2 := 5, -1;
        var bit := GetBit();
        if bit != 0 { d0, d2 := 8, 0x3f; }
        d1 := GetBits(d0);
        d1 := d1 + d2;
      } else {
        var d2 := CountOnes(1);
        CountDownProgress(EnvNow(), old(Now()), 1);
        d1 := GetBits(MoreOffset(d2));
        d1 := d1 + MoreOffsetWord(d2);
        if d1 < 0 { d1 := d1 - d4; }
      }
    }

    /** One byte of a string, if there is room below `a6`; `n` bytes are still to come. */
    method CopyByte(a1: int, ghost n: nat) returns (next: int)
      requires 0 < n && 0 <= a6 <= dst.Length && StoredDown() && a6 <= dstend
      modifies `a6, `stores, dst
      ensures 0 <= a6 <= dst.Length && a6 <= dstend && StoredDown()
      ensures CopyBack(EnvNow(), Now(), next, n - 1) == CopyBack(old(EnvNow()), old(Now()), a1, n)
    {
      next := a1;
      if a6 > 0 {
        next := a1 - 1;
        Store(if 0 <= next < dst.Length then dst[next] else above(next));
      }
    }

    method CopyString(start: int, n: nat)
      requires 0 < n && 0 <= a6 <= dst.Length && StoredDown() && a6 <= dstend
      modifies `a6, `stores, dst
      ensures Now() == CopyBack(EnvNow(), old(Now()), start, n)
      ensures StoredDown()
    {
      hide CopyBack;
      var d4, a1: int := n - 1, start;
      while true
        invariant 0 <= d4 < n && 0 <= a6 <= dst.Length && a6 <= dstend && StoredDown()
        invariant CopyBack(EnvNow(), Now(), a1, d4 + 1) == CopyBack(EnvNow(), old(Now()), start, n)
        decreases d4
      {
        a1 := CopyByte(a1, d4 + 1);
        d4 := d4 - 1;
        if d4 < 0 { break; }
      }
      NothingCopied(EnvNow(), Now(), a1);
    }

    method CopyStrings()
      requires 0 < a6 <= dst.Length && StoredDown() && a6 <= dstend
      modifies `d7, `a5, `a6, `overflow, `stores, dst
      ensures Now() == Strings(EnvNow(), old(Now())) && a6 <= dstend
      ensures StoredDown()
    {
      hide CopyLength, CopyOffset, CopyBack;
      var d4 := StringLength();
      CopyLengthKeeps(EnvNow(), old(Now()));
      ghost var m1 := Now();
      var d1 := StringOffset(d4);
      CopyOffsetKeeps(EnvNow(), m1, d4);
      var a1 := a6 + 2 + d4 + d1;
      var _ := ChkDstRange(a6 - (d4 + 1) - 1, a6 - 1);
      CopyString(a1, d4 + 2);
    }

    /** The literals of a turn; false when a range check stops the loop. */
    method CopyLiterals() returns (go: bool)
      requires a6 <= dst.Length && a6 <= dstend && StoredDown()
      modifies `d7, `a5, `a6, `overflow, `stores, dst
      ensures (if go then GoOn(Now()) else Stop(Now())) == Literals(EnvNow(), old(Now()))
      ensures StoredDown() && a6 <= dstend
    {
      hide Get1Bit, LitCount, CopyLits;
      var bit := GetBit();
      if bit == 0 { return true; }
      LitCountKeeps(EnvNow(), Now());
      var d1 := LiteralCount();
      var cnt := d1 + 1;
      var bad := ChkDstRange(a6 - cnt, a6 - 1);
      bad := ChkSrcRange(a5 - cnt, a5 - 1);
      if bad { return false; }
      CopyDirekt(cnt);
      go := true;
    }

    method RunNormalBytes()
      requires a6 <= dst.Length && a6 <= dstend && StoredDown()
      modifies `d7, `a5, `a6, `overflow, `stores, dst
      ensures Now() == NormalBytes(EnvNow(), old(Now()))
      ensures StoredDown() && a6 <= dstend
    {
      while true
        invariant a6 <= dst.Length && a6 <= dstend && StoredDown()
        invariant NormalBytes(EnvNow(), Now()) == NormalBytes(EnvNow(), old(Now()))
        invariant srcend == old(srcend) && dstend == old(dstend)
        decreases if a6 > 0 then a6 else 0
      {
        var go := CopyLiterals();
        if !go { return; }
        if a6 <= 0 {
          if a6 < 0 { var _ := ChkDstRange(a6, a6); }
          return;
        }
        CopyStrings();
      }
    }

    /** Everything after the header. The bytes stored are the top of the announced destination
        downwards, each once; on success all of it. */
    method DecrunchStream() returns (outcome: Outcome)
      requires dstend <= dst.Length && stores == []
      modifies `d7, `a5, `a6, `overflow, `stores, dst
      ensures DepackResult(outcome, dst[..]) == DepackFrom(EnvNow(), old(dst[..]))
      ensures |stores| <= dst.Length && Downwards(stores, dstend)
      ensures outcome == Returned(0) ==> |stores| == dstend
    {
      a5, a6, overflow := srcend, dstend, NO_OVERFLOW;
      a5 := a5 - 1;
      d7 := mem(a5);
      assert Now() == Start(EnvNow(), dst[..]);
      RunNormalBytes();
      NormalBytesEnd(EnvNow(), Start(EnvNow(), old(dst[..])));
      Get1BitKeeps(EnvNow(), Now());
      var bit := GetBit();
      if bit == 1 { return PicturePass; }
      outcome := Returned(if overflow.Any() then -1 else 0);
    }

    /** unice68_depacker, up to the picture pass. */
    method IceDecrunch() returns (outcome: Outcome)
      requires MagicOk(mem) ==> GetInfo(mem, 8) <= dst.Length
      requires stores == []
      modifies this, dst
      ensures DepackResult(outcome, dst[..]) == Depack(mem, above, old(dst[..]))
      ensures |stores| <= dst.Length && Downwards(stores, GetInfo(mem, 8))
      ensures outcome == Returned(0) ==> |stores| == GetInfo(mem, 8)
    {
      hide DepackFrom, GetInfo;
      if !MagicOk(mem) { return Returned(-1); }
      srcend, dstend := GetInfo(mem, 4), GetInfo(mem, 8);
      outcome := DecrunchStream();
    }
  }
}
