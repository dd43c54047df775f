/** What the checks of the ICE! depacker find in any packed bytes (unice68/unice68_unpack.c:86-127,
    487-515): which files it takes, and that a file it depacks without complaint is read only where it
    says it is and fills the destination to the byte. */
module IceChecks {
  import opened Powers
  import opened BitStacks
  import opened IceDepack

  // ---- The header.

  /** A letter of either case. */
  predicate Letter(b: Byte, upper: Byte) {
    b == upper || b == upper + 0x20
  }

  function Upper(b: Byte): Byte {
    if b / 32 % 2 == 1 then b - 32 else b
  }

  lemma ClearSecond(high: int, b: Byte, low: nat)
    requires low < 0x1_0000
    ensures ClearBit(high * 0x100_0000 + b * 0x1_0000 + low, 21) == high * 0x100_0000 + Upper(b) * 0x1_0000 + low
  {
    TwoPowers();
    hide Pow2;
    var x := high * 0x100_0000 + b * 0x1_0000 + low;
    DivUnique(x, 0x20_0000, high * 8 + b / 32, b % 32 * 0x1_0000 + low);
    AddMultiple(b / 32, high * 4, 2);
  }

  lemma ClearThird(high: int, b: Byte, low: nat)
    requires low < 0x100
    ensures ClearBit(high * 0x1_0000 + b * 0x100 + low, 13) == high * 0x1_0000 + Upper(b) * 0x100 + low
  {
    TwoPowers();
    hide Pow2;
    var x := high * 0x1_0000 + b * 0x100 + low;
    DivUnique(x, 0x2000, high * 8 + b / 32, b % 32 * 0x100 + low);
    AddMultiple(b / 32, high * 4, 2);
  }

  lemma TwoPowers()
    ensures Pow2(13) == 0x2000 && Pow2(21) == 0x20_0000
  {
    Pow2Small();
    Pow2Wide();
    Pow2Double(22);
  }

  /** The magic number, with its second and third letter in either case. */
  lemma MagicExact(mem: int -> Byte)
    ensures MagicOk(mem) <==> mem(0) == 0x49 && Letter(mem(1), 0x43) && Letter(mem(2), 0x45) && mem(3) == 0x21
  {
    hide ClearBit;
    var a: int, b, c: int, d: int := mem(0), mem(1), mem(2), mem(3);
    var high := if a < 128 then a else a - 256;
    assert GetInfo(mem, 0) == high * 0x100_0000 + b * 0x1_0000 + (c * 0x100 + d);
    ClearSecond(high, b, c * 0x100 + d);
    ClearThird(high * 0x100 + Upper(b), c, d);
    UpperIs(b, 0x43);
    UpperIs(c, 0x45);
    MagicBytes(high, Upper(b), Upper(c), d);
  }

  lemma UpperIs(b: Byte, upper: Byte)
    requires upper == 0x43 || upper == 0x45
    ensures Upper(b) == upper <==> Letter(b, upper)
  {}

  lemma MagicBytes(high: int, b: Byte, c: Byte, d: Byte)
    ensures high * 0x100_0000 + b * 0x1_0000 + c * 0x100 + d == ICE_MAGIC
            <==> high == 0x49 && b == 0x43 && c == 0x45 && d == 0x21
  {}

  /** A number in the header: four bytes, the highest first, in two's complement. */
  lemma InfoIs(mem: int -> Byte, at: int)
    ensures var v := GetInfo(mem, at);
            && -0x8000_0000 <= v < 0x8000_0000
            && v % 0x1_0000_0000
               == ((mem(at) * 0x100 + mem(at + 1)) * 0x100 + mem(at + 2)) * 0x100 + mem(at + 3)
  {}

  /** The size of the depacked data is told for a file whose header says a possible size; a caller who
      knows another size gets its complement, and nobody a size for anything else. */
  lemma SizeTold(mem: int -> Byte, known: int)
    requires known == 0 || known >= 12
    ensures var size := DepackedSize(mem, known);
            && (MagicOk(mem) && GetInfo(mem, 4) >= 12 && (known == 0 || known == GetInfo(mem, 4)) ==>
                  size == GetInfo(mem, 8))
            && (MagicOk(mem) && GetInfo(mem, 4) >= 12 && known != 0 && known != GetInfo(mem, 4) ==>
                  size + GetInfo(mem, 8) == -1)
            && (!MagicOk(mem) ==> size == -1)
            && (MagicOk(mem) && GetInfo(mem, 4) < 12 ==> size == -2)
  {}

  // ---- The numbers in the stream add up.

  /** What the turns of the main loop announce: the literals and the bytes of the copies. */
  function Lengths(env: Env, m: Machine): nat
    requires m.a6 <= |m.dst|
    decreases if m.a6 > 0 then m.a6 else 0
  {
    var BitRead(b, m1) := Get1Bit(env, m);
    LitCountKeeps(env, m1);
    var n := if b == 0 then 0 else LitCount(env, m1).num + 1;
    var lits := Literals(env, m);
    if lits.Stop? || lits.m.a6 <= 0 then n
    else n + CopyLength(env, lits.m).num + 2 + Lengths(env, Strings(env, lits.m))
  }

  lemma LiteralsAnnounced(env: Env, m: Machine)
    requires m.a6 <= |m.dst|
    ensures var BitRead(b, m1) := Get1Bit(env, m);
            var n := if b == 0 then 0 else LitCount(env, m1).num + 1;
            var lits := Literals(env, m);
            && n >= 0 && (lits.Stop? ==> lits.m.a6 == m.a6 && n > 0) && (lits.GoOn? ==> lits.m.a6 == m.a6 - n)
            && (lits.m.overflow.dstLow <==> m.overflow.dstLow || (n > 0 && n > m.a6))
            && (n > 0 && n > m.a6 ==> lits.Stop?)
  {
    var BitRead(b, m1) := Get1Bit(env, m);
    Get1BitKeeps(env, m);
    LitCountKeeps(env, m1);
  }

  lemma CopyAnnounced(env: Env, m: Machine)
    requires 0 < m.a6 <= |m.dst|
    ensures var r, n := Strings(env, m), CopyLength(env, m).num + 2;
            && r.a6 == (if n <= m.a6 then m.a6 - n else 0)
            && (r.overflow.dstLow <==> m.overflow.dstLow || n > m.a6)
  {
    var NumRead(d4, m1) := CopyLength(env, m);
    CopyLengthKeeps(env, m);
    CopyOffsetKeeps(env, m1, d4);
  }

  /** The check below the destination fires exactly when the turns announce more bytes than are left; and a
      run that ends without complaint has been announced exactly those. */
  lemma {:induction false} LengthsAddUp(env: Env, m: Machine)
    requires 0 <= m.a6 <= |m.dst| && m.a6 <= env.dstend
    ensures var r := NormalBytes(env, m);
            && (r.overflow.dstLow <==> m.overflow.dstLow || Lengths(env, m) > m.a6)
            && (!r.overflow.Any() ==> Lengths(env, m) == m.a6)
    decreases if m.a6 > 0 then m.a6 else 0
  {
    hide Literals, Strings, LitCount, CopyLength, Get1Bit;
    NormalBytesEnd(env, m);
    LiteralsAnnounced(env, m);
    LiteralsEnd(env, m);
    var lits := Literals(env, m);
    if lits.GoOn? && lits.m.a6 > 0 {
      CopyAnnounced(env, lits.m);
      LengthsAddUp(env, Strings(env, lits.m));
    }
  }

  // ---- Only what was announced is read.

  /** The same packed file: the same bytes in the announced range, and the one before its end. */
  ghost predicate SameFile(env: Env, env': Env) {
    && env' == env.(mem := env'.mem) && env'.mem(env.srcend - 1) == env.mem(env.srcend - 1)
    && forall i :: 0 <= i < env.srcend ==> env'.mem(i) == env.mem(i)
  }

  lemma BitSame(env: Env, env': Env, m: Machine)
    requires SameFile(env, env') && !Get1Bit(env, m).m.overflow.Any()
    ensures Get1Bit(env', m) == Get1Bit(env, m)
  {}

  lemma {:induction false} BitsSame(env: Env, env': Env, m: Machine, n: nat, acc: nat)
    requires SameFile(env, env') && !ReadBits(env, m, n, acc).m.overflow.Any()
    ensures ReadBits(env', m, n, acc) == ReadBits(env, m, n, acc)
    decreases n
  {
    hide Get1Bit, SameFile;
    if n > 0 {
      var BitRead(b, m') := Get1Bit(env, m);
      ReadBitsProgress(env, m', n - 1, acc + acc + b);
      BitSame(env, env', m);
      BitsSame(env, env', m', n - 1, acc + acc + b);
    }
  }

  lemma FieldSame(env: Env, env': Env, m: Machine, r0: nat)
    requires SameFile(env, env') && !GetD0Bits(env, m, r0).m.overflow.Any()
    ensures GetD0Bits(env', m, r0) == GetD0Bits(env, m, r0)
  {
    if r0 <= 15 { BitsSame(env, env', m, r0 + 1, 0); }
  }

  lemma {:induction false} NextSame(env: Env, env': Env, m: Machine, d3: nat)
    requires d3 < 5 && SameFile(env, env') && !NextGb(env, m, d3).m.overflow.Any()
    ensures NextGb(env', m, d3) == NextGb(env, m, d3)
    decreases d3
  {
    hide GetD0Bits, SameFile;
    var NumRead(d1, m') := GetD0Bits(env, m, DirektLow(d3));
    if d1 == DirektHigh(d3) && d3 > 0 {
      NextGbKeeps(env, m', d3 - 1);
      FieldSame(env, env', m, DirektLow(d3));
      NextSame(env, env', m', d3 - 1);
    } else {
      FieldSame(env, env', m, DirektLow(d3));
    }
  }

  lemma LitCountSame(env: Env, env': Env, m: Machine)
    requires SameFile(env, env') && !LitCount(env, m).m.overflow.Any()
    ensures LitCount(env', m) == LitCount(env, m)
  {
    hide Get1Bit, NextGb, SameFile;
    var BitRead(b, m') := Get1Bit(env, m);
    NextGbKeeps(env, m', 4);
    BitSame(env, env', m);
    if b != 0 { NextSame(env, env', m', 4); }
  }

  lemma {:induction false} LitsSame(env: Env, env': Env, m: Machine, n: nat)
    requires n <= m.a6 <= |m.dst| && SameFile(env, env') && (n > 0 ==> 0 <= m.a5 - n && m.a5 - 1 < env.srcend)
    ensures CopyLits(env', m, n) == CopyLits(env, m, n)
    decreases n
  {
    if n > 0 {
      LitsSame(env, env', m.(dst := m.dst[m.a6 - 1 := env.mem(m.a5 - 1)], a6 := m.a6 - 1, a5 := m.a5 - 1), n - 1);
    }
  }

  lemma {:induction false} CountSame(env: Env, env': Env, m: Machine, d2: nat)
    requires SameFile(env, env') && !CountDown(env, m, d2).m.overflow.Any()
    ensures CountDown(env', m, d2) == CountDown(env, m, d2)
    decreases d2
  {
    hide Get1Bit, SameFile;
    var BitRead(b, m') := Get1Bit(env, m);
    if b != 0 && d2 > 0 {
      CountDownProgress(env, m', d2 - 1);
      BitSame(env, env', m);
      CountSame(env, env', m', d2 - 1);
    } else {
      BitSame(env, env', m);
    }
  }

  lemma LengthSame(env: Env, env': Env, m: Machine)
    requires SameFile(env, env') && !CopyLength(env, m).m.overflow.Any()
    ensures CopyLength(env', m) == CopyLength(env, m)
  {
    hide CountDown, GetD0Bits, SameFile;
    CountDownProgress(env, m, 3);
    var NumRead(d2, m1) := CountDown(env, m, 3);
    var d0 := LengthBits(d2);
    if d0 >= 0 {
      GetD0Range(env, m1, d0);
      CountSame(env, env', m, 3);
      FieldSame(env, env', m1, d0);
    } else {
      CountSame(env, env', m, 3);
    }
  }

  lemma OffsetSame(env: Env, env': Env, m: Machine, d4: nat)
    requires SameFile(env, env') && !CopyOffset(env, m, d4).m.overflow.Any()
    ensures CopyOffset(env', m, d4) == CopyOffset(env, m, d4)
  {
    hide Get1Bit, CountDown, GetD0Bits, SameFile;
    if d4 == 0 {
      var BitRead(b, m1) := Get1Bit(env, m);
      var d0 := if b == 0 then 5 else 8;
      GetD0Range(env, m1, d0);
      BitSame(env, env', m);
      FieldSame(env, env', m1, d0);
    } else {
      CountDownProgress(env, m, 1);
      var NumRead(d2, m1) := CountDown(env, m, 1);
      GetD0Range(env, m1, MoreOffset(d2));
      CountSame(env, env', m, 1);
      FieldSame(env, env', m1, MoreOffset(d2));
    }
  }

  lemma {:induction false} CopyBackSame(env: Env, env': Env, m: Machine, a1: int, n: nat)
    requires 0 <= m.a6 <= |m.dst| && SameFile(env, env')
    ensures CopyBack(env', m, a1, n) == CopyBack(env, m, a1, n)
    decreases n
  {
    if n > 0 && m.a6 > 0 {
      CopyBackSame(env, env', m.(dst := m.dst[m.a6 - 1 := Read(env, m.dst, a1 - 1)], a6 := m.a6 - 1), a1 - 1, n - 1);
    }
  }

  lemma StringsSame(env: Env, env': Env, m: Machine)
    requires 0 < m.a6 <= |m.dst| && SameFile(env, env') && !Strings(env, m).overflow.Any()
    ensures Strings(env', m) == Strings(env, m)
  {
    hide CopyLength, CopyOffset, CopyBack;
    var NumRead(d4, m1) := CopyLength(env, m);
    CopyLengthKeeps(env, m);
    CopyOffsetKeeps(env, m1, d4);
    var NumRead(d1, m2) := CopyOffset(env, m1, d4);
    LengthSame(env, env', m);
    OffsetSame(env, env', m1, d4);
    var m3 := m2.(overflow := ChkDst(env, m2.overflow, m2.a6 - (d4 + 1) - 1, m2.a6 - 1));
    CopyBackSame(env, env', m3, m3.a6 + 2 + d4 + d1, d4 + 2);
  }

  lemma LiteralsSame(env: Env, env': Env, m: Machine)
    requires m.a6 <= |m.dst| && SameFile(env, env') && !Literals(env, m).m.overflow.Any()
    ensures Literals(env', m) == Literals(env, m)
  {
    hide Get1Bit, LitCount, CopyLits;
    var BitRead(b, m1) := Get1Bit(env, m);
    Get1BitKeeps(env, m);
    LitCountKeeps(env, m1);
    if b != 0 {
      var NumRead(d1, m2) := LitCount(env, m1);
      LitCountSame(env, env', m1);
      BitSame(env, env', m);
      var cnt := d1 + 1;
      var ov := ChkSrc(env, ChkDst(env, m2.overflow, m2.a6 - cnt, m2.a6 - 1), m2.a5 - cnt, m2.a5 - 1);
      if !ov.Any() { LitsSame(env, env', m2.(overflow := ov), cnt); }
    } else {
      BitSame(env, env', m);
    }
  }

  lemma {:induction false} TurnsSame(env: Env, env': Env, m: Machine)
    requires m.a6 <= |m.dst| && SameFile(env, env') && !NormalBytes(env, m).overflow.Any()
    ensures NormalBytes(env', m) == NormalBytes(env, m)
    decreases if m.a6 > 0 then m.a6 else 0
  {
    hide Literals, Strings, SameFile;
    var lits := Literals(env, m);
    if lits.GoOn? && lits.m.a6 > 0 {
      OverflowStays(env, Strings(env, lits.m));
      OverflowKept(env, lits.m);
      LiteralsSame(env, env', m);
      StringsSame(env, env', lits.m);
      TurnsSame(env, env', Strings(env, lits.m));
    } else {
      LiteralsSame(env, env', m);
    }
  }

  lemma OverflowKept(env: Env, m: Machine)
    requires 0 < m.a6 <= |m.dst|
    ensures m.overflow.Any() ==> Strings(env, m).overflow.Any()
  {
    var NumRead(d4, m1) := CopyLength(env, m);
    CopyLengthKeeps(env, m);
    CopyOffsetKeeps(env, m1, d4);
  }

  lemma {:induction false} OverflowStays(env: Env, m: Machine)
    requires m.a6 <= |m.dst|
    ensures m.overflow.Any() ==> NormalBytes(env, m).overflow.Any()
    decreases if m.a6 > 0 then m.a6 else 0
  {
    hide Strings;
    LitCountKeeps(env, Get1Bit(env, m).m);
    var lits := Literals(env, m);
    if lits.GoOn? && lits.m.a6 > 0 {
      OverflowKept(env, lits.m);
      OverflowStays(env, Strings(env, lits.m));
    }
  }

  /** A file that is depacked without complaint is read only where it says it is: whatever else is in
      memory, the same bytes in its announced range give the same result. */
  lemma ReadInside(mem: int -> Byte, mem': int -> Byte, above: int -> Byte, dst: seq<Byte>)
    requires MagicOk(mem) ==> GetInfo(mem, 8) <= |dst|
    requires Depack(mem, above, dst).outcome == Returned(0)
    requires forall i :: 0 <= i < 12 || 0 <= i < GetInfo(mem, 4) || i == GetInfo(mem, 4) - 1 ==> mem'(i) == mem(i)
    ensures MagicOk(mem') && GetInfo(mem', 8) <= |dst|
    ensures Depack(mem', above, dst) == Depack(mem, above, dst)
  {
    hide NormalBytes, ClearBit, Get1Bit;
    assert forall i :: i in {0, 1, 2, 3, 4, 5, 6, 7, 8, 9, 10, 11} ==> mem'(i) == mem(i);
    assert forall at <- [0, 4, 8] :: GetInfo(mem', at) == GetInfo(mem, at);
    var env, env' := EnvOf(mem, above), EnvOf(mem', above);
    var m := NormalBytes(env, Start(env, dst));
    Get1BitKeeps(env, m);
    TurnsSame(env, env', Start(env, dst));
    BitSame(env, env', m);
  }

  /** And its turns announce exactly the bytes of the destination. */
  lemma AnnouncedExactly(mem: int -> Byte, above: int -> Byte, dst: seq<Byte>)
    requires MagicOk(mem) && 0 <= GetInfo(mem, 8) <= |dst| && Depack(mem, above, dst).outcome == Returned(0)
    ensures Lengths(EnvOf(mem, above), Start(EnvOf(mem, above), dst)) == GetInfo(mem, 8)
  {
    hide GetInfo;
    var env := EnvOf(mem, above);
    LengthsAddUp(env, Start(env, dst));
    Get1BitKeeps(env, NormalBytes(env, Start(env, dst)));
  }
}
