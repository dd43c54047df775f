/** The ICE! depacker (unice68/unice68_unpack.c): what each routine does to the machine state, as
    functions on values, and what holds for any packed bytes. The routines themselves are in
    IceDepacker. */
module IceDepack {
  import opened Powers
  import opened BitStacks

  /** What the routines only read. Addresses count from the start of the packed data for `mem`
      and from the start of the destination for `above`, so `srcbuf` and `dstbuf` are 0.
      `mem` answers any read of the packed data, in range or not; `above` answers reads past the
      destination array. */
  datatype Env = Env(mem: int -> Byte, above: int -> Byte, srcend: int, dstend: int)

  /** The C field `overflow`, bit by bit from bit 0 to bit 4. */
  datatype Overflow = Overflow(dstLow: bool, dstHigh: bool, srcLow: bool, srcHigh: bool, count: bool) {
    predicate Any() { dstLow || dstHigh || srcLow || srcHigh || count }
  }

  /** What a reader returns: a bit or a number, and the machine after it. */
  datatype BitRead = BitRead(bit: Bit, m: Machine)
  datatype NumRead = NumRead(num: int, m: Machine)

  const NO_OVERFLOW := Overflow(false, false, false, false, false)

  /** The registers that live across routines, and the destination. */
  datatype Machine = Machine(d7: Byte, a5: int, a6: int, overflow: Overflow, dst: seq<Byte>)

  // The tables, as functions of their index.

  /** The high halves of the first five words of direkt_tab. */
  function DirektHigh(i: nat): nat
    requires i < 5
  {
    if i == 0 then 0x7fff else if i == 1 then 0x00ff else if i == 2 then 0x0007 else 0x0003
  }

  /** Their low halves. */
  function DirektLow(i: nat): nat
    requires i < 5
  {
    if i == 0 then 0x000e else if i == 1 then 0x0007 else if i == 2 then 0x0002 else 0x0001
  }

  /** The last five words of direkt_tab. */
  function DirektAdd(i: nat): nat
    requires i < 5
  {
    if i == 0 then 270 - 1 else if i == 1 then 15 - 1 else if i == 2 then 8 - 1 else if i == 3 then 5 - 1 else 2 - 1
  }

  /** length_tab[1 + d2], sign-extended from a byte. */
  function LengthBits(d2: int): int
    requires -1 <= d2 <= 3
  {
    if d2 == -1 then 9 else if d2 == 0 then 1 else if d2 == 1 then 0 else -1
  }

  /** length_tab[6 + d2]. */
  function LengthBase(d2: int): nat
    requires -1 <= d2 <= 3
  {
    if d2 == -1 then 8 else if d2 == 0 then 4 else if d2 == 1 then 2 else if d2 == 2 then 1 else 0
  }

  /** more_offset[1 + d2]. */
  function MoreOffset(d2: int): nat
    requires -1 <= d2 <= 1
  {
    if d2 == -1 then 11 else if d2 == 0 then 4 else 7
  }

  /** more_offset_word[3 + d2]. */
  function MoreOffsetWord(d2: int): int
    requires -1 <= d2 <= 1
  {
    if d2 == -1 then 0x011f else if d2 == 0 then -1 else 0x001f
  }

  function ChkDst(env: Env, o: Overflow, a: int, b: int): Overflow {
    o.(dstLow := o.dstLow || a < 0, dstHigh := o.dstHigh || b >= env.dstend)
  }

  function ChkSrc(env: Env, o: Overflow, a: int, b: int): Overflow {
    o.(srcLow := o.srcLow || a < 0, srcHigh := o.srcHigh || b >= env.srcend)
  }

  /** A big-endian 32-bit word, as a signed C int. */
  function GetInfo(mem: int -> Byte, a0: int): int {
    var u := mem(a0) * 0x100_0000 + mem(a0 + 1) * 0x1_0000 + mem(a0 + 2) * 0x100 + mem(a0 + 3);
    if u < 0x8000_0000 then u else u - 0x1_0000_0000
  }

  /** `x & ~(1 << n)`. */
  function ClearBit(x: int, n: nat): int {
    if x / Pow2(n) % 2 == 1 then x - Pow2(n) else x
  }

  /** `r & 255` and `r >> 8` of a byte shifted left with a carry in. */
  function Low8(r: int): Byte
    requires 0 <= r < 512
  {
    if r < 256 then r else r - 256
  }

  function Carry(r: int): Bit
    requires 0 <= r < 512
  {
    if r < 256 then 0 else 1
  }

  function Get1Bit(env: Env, m: Machine): BitRead {
    var r := m.d7 * 2;
    if Low8(r) != 0 then
      BitRead(Carry(r), m.(d7 := Low8(r)))
    else
      var r' := Carry(r) + env.mem(m.a5 - 1) * 2;
      BitRead(Carry(r'), m.(d7 := Low8(r'), a5 := m.a5 - 1, overflow := ChkSrc(env, m.overflow, m.a5 - 1, m.a5 - 1)))
  }

  /** `n` more bits shifted into `acc`. */
  function ReadBits(env: Env, m: Machine, n: nat, acc: int): NumRead
    decreases n, m
  {
    if n == 0 then NumRead(acc, m) else
    var BitRead(b, m') := Get1Bit(env, m);
    ReadBits(env, m', n - 1, acc + acc + b)
  }

  function GetD0Bits(env: Env, m: Machine, r0: nat): NumRead {
    if r0 > 15 then NumRead(0, m.(overflow := m.overflow.(count := true))) else ReadBits(env, m, r0 + 1, 0)
  }

  /** The loop `nextgb`: fields of growing width until one is not all ones. */
  function NextGb(env: Env, m: Machine, d3: nat): NumRead
    requires d3 < 5
    decreases d3, m
  {
    var NumRead(d1, m') := GetD0Bits(env, m, DirektLow(d3));
    if d1 == DirektHigh(d3) && d3 > 0 then NextGb(env, m', d3 - 1) else NumRead(d1 + DirektAdd(d3), m')
  }

  /** The number of literals of a run, less one. */
  function LitCount(env: Env, m: Machine): NumRead {
    var BitRead(b, m') := Get1Bit(env, m);
    if b == 0 then NumRead(0, m') else NextGb(env, m', 4)
  }

  function CopyLits(env: Env, m: Machine, n: nat): (r: Machine)
    requires n <= m.a6 <= |m.dst|
    ensures |r.dst| == |m.dst| && r.a6 == m.a6 - n && r.overflow == m.overflow
    ensures r.d7 == m.d7 && r.a5 == m.a5 - n
    decreases n
  {
    if n == 0 then m else
    CopyLits(env, m.(dst := m.dst[m.a6 - 1 := env.mem(m.a5 - 1)], a6 := m.a6 - 1, a5 := m.a5 - 1), n - 1)
  }

  /** Bits are read until a clear one, at most `d2 + 1` of them; each set one lowers `d2`. */
  function CountDown(env: Env, m: Machine, d2: nat): NumRead
    decreases d2, m
  {
    var BitRead(b, m') := Get1Bit(env, m);
    if b == 0 then NumRead(d2, m') else if d2 > 0 then CountDown(env, m', d2 - 1) else NumRead(-1, m')
  }

  /** The length of a copy, less two. */
  function CopyLength(env: Env, m: Machine): (r: NumRead)
    ensures 0 <= r.num <= 1031
  {
    CountDownProgress(env, m, 3);
    var NumRead(d2, m1) := CountDown(env, m, 3);
    var d0 := LengthBits(d2);
    if d0 < 0 then NumRead(LengthBase(d2), m1) else
    GetD0Range(env, m1, d0);
    var NumRead(d1, m2) := GetD0Bits(env, m1, d0);
    Pow2Small();
    NumRead(LengthBase(d2) + d1, m2)
  }

  /** The offset of a copy of `d4 + 2` bytes, less one; a negative value also takes `d4` off. */
  function CopyOffset(env: Env, m: Machine, d4: nat): (r: NumRead)
    ensures -1 - d4 <= r.num <= 0x111e
  {
    Pow2Small();
    if d4 == 0 then
      var BitRead(b, m1) := Get1Bit(env, m);
      var d0, d2 := if b == 0 then 5 else 8, if b == 0 then -1 else 0x3f;
      GetD0Range(env, m1, d0);
      var NumRead(d1, m2) := GetD0Bits(env, m1, d0);
      NumRead(d1 + d2, m2)
    else
      CountDownProgress(env, m, 1);
      var NumRead(d2, m1) := CountDown(env, m, 1);
      var d0 := MoreOffset(d2);
      GetD0Range(env, m1, d0);
      var NumRead(v, m2) := GetD0Bits(env, m1, d0);
      var d1 := v + MoreOffsetWord(d2);
      NumRead(if d1 < 0 then d1 - d4 else d1, m2)
  }

  function Read(env: Env, dst: seq<Byte>, i: int): Byte {
    if 0 <= i < |dst| then dst[i] else env.above(i)
  }

  /** The guarded copy `*--a6 = *--a1`, `n` times. */
  function CopyBack(env: Env, m: Machine, a1: int, n: nat): (r: Machine)
    requires 0 <= m.a6 <= |m.dst|
    ensures |r.dst| == |m.dst| && r.overflow == m.overflow && r.d7 == m.d7 && r.a5 == m.a5
    ensures r.a6 == if n <= m.a6 then m.a6 - n else 0
    decreases n
  {
    if n == 0 || m.a6 == 0 then m else
    CopyBack(env, m.(dst := m.dst[m.a6 - 1 := Read(env, m.dst, a1 - 1)], a6 := m.a6 - 1), a1 - 1, n - 1)
  }

  function Strings(env: Env, m: Machine): (r: Machine)
    requires 0 < m.a6 <= |m.dst|
    ensures |r.dst| == |m.dst| && 0 <= r.a6 < m.a6
  {
    var NumRead(d4, m1) := CopyLength(env, m);
    CopyLengthKeeps(env, m);
    CopyOffsetKeeps(env, m1, d4);
    var NumRead(d1, m2) := CopyOffset(env, m1, d4);
    var m3 := m2.(overflow := ChkDst(env, m2.overflow, m2.a6 - (d4 + 1) - 1, m2.a6 - 1));
    CopyBack(env, m3, m3.a6 + 2 + d4 + d1, d4 + 2)
  }

  /** How the literals of a turn of normal_bytes end: the range checks may stop the loop. */
  datatype LitRead = GoOn(m: Machine) | Stop(m: Machine)

  function Literals(env: Env, m: Machine): (r: LitRead)
    requires m.a6 <= |m.dst|
    ensures |r.m.dst| == |m.dst| && r.m.a6 <= m.a6
  {
    var BitRead(b, m1) := Get1Bit(env, m);
    if b == 0 then GoOn(m1) else
    LitCountKeeps(env, m1);
    var NumRead(d1, m2) := LitCount(env, m1);
    var cnt := d1 + 1; // d1 is below 0x810d, so the mask in DBF_COUNT keeps it
    var ov := ChkSrc(env, ChkDst(env, m2.overflow, m2.a6 - cnt, m2.a6 - 1), m2.a5 - cnt, m2.a5 - 1);
    var m3 := m2.(overflow := ov);
    if ov.Any() then Stop(m3) else
    GoOn(CopyLits(env, m3, cnt))
  }

  function NormalBytes(env: Env, m: Machine): (r: Machine)
    requires m.a6 <= |m.dst|
    ensures |r.dst| == |m.dst| && r.a6 <= m.a6
    decreases if m.a6 > 0 then m.a6 else 0
  {
    var lits := Literals(env, m);
    var m1 := lits.m;
    if lits.Stop? then m1
    else if m1.a6 < 0 then m1.(overflow := ChkDst(env, m1.overflow, m1.a6, m1.a6))
    else if m1.a6 == 0 then m1
    else NormalBytes(env, Strings(env, m1))
  }

  /** How a call ends: with a return value, or with the picture flag set, whose
      post-processing is not part of this model. */
  datatype Outcome = Returned(code: int) | PicturePass

  datatype DepackResult = DepackResult(outcome: Outcome, dst: seq<Byte>)

  const ICE_MAGIC := 0x49434521 // 'ICE!'

  predicate MagicOk(mem: int -> Byte) {
    Pow2Wide();
    ClearBit(ClearBit(GetInfo(mem, 0), 21), 13) == ICE_MAGIC
  }

  function EnvOf(mem: int -> Byte, above: int -> Byte): Env {
    Env(mem, above, GetInfo(mem, 4), GetInfo(mem, 8))
  }

  function Start(env: Env, dst: seq<Byte>): Machine {
    Machine(env.mem(env.srcend - 1), env.srcend - 1, env.dstend, NO_OVERFLOW, dst)
  }

  /** ice_decrunch from the end of the header to the picture flag. */
  function DepackFrom(env: Env, dst: seq<Byte>): DepackResult
    requires env.dstend <= |dst|
  {
    var BitRead(b, m) := Get1Bit(env, NormalBytes(env, Start(env, dst)));
    DepackResult(if b == 1 then PicturePass else Returned(if m.overflow.Any() then -1 else 0), m.dst)
  }

  /** ice_decrunch up to the picture flag. */
  function Depack(mem: int -> Byte, above: int -> Byte, dst: seq<Byte>): DepackResult
    requires MagicOk(mem) ==> GetInfo(mem, 8) <= |dst|
  {
    if !MagicOk(mem) then DepackResult(Returned(-1), dst) else
    DepackFrom(EnvOf(mem, above), dst)
  }

  /** unice68_depacked_size with the value that `p_csize` points to, 0 standing for a null pointer. */
  function DepackedSize(mem: int -> Byte, csizeVerif: int): int {
    if csizeVerif != 0 && csizeVerif < 12 then -1
    else if !MagicOk(mem) then -1
    else if GetInfo(mem, 4) < 12 then -2
    else if csizeVerif != 0 && GetInfo(mem, 4) != csizeVerif then -1 - GetInfo(mem, 8)
    else GetInfo(mem, 8)
  }

  // What the readers leave alone.

  ghost predicate OnlyInput(m: Machine, m': Machine) {
    && m'.dst == m.dst && m'.a6 == m.a6 && (m.overflow.Any() ==> m'.overflow.Any())
    && m'.overflow.dstLow == m.overflow.dstLow
  }

  lemma Get1BitKeeps(env: Env, m: Machine)
    ensures OnlyInput(m, Get1Bit(env, m).m)
  {}

  lemma {:induction false} ReadBitsProgress(env: Env, m: Machine, n: nat, acc: nat)
    ensures OnlyInput(m, ReadBits(env, m, n, acc).m)
    ensures 0 <= ReadBits(env, m, n, acc).num < (acc + 1) * Pow2(n)
    decreases n
  {
    if n > 0 {
      var BitRead(b, m') := Get1Bit(env, m);
      Get1BitKeeps(env, m);
      ReadBitsProgress(env, m', n - 1, acc + acc + b);
      Doubling(acc, b, Pow2(n - 1));
    }
  }

  lemma Doubling(acc: nat, b: Bit, p: nat)
    ensures (acc + acc + b + 1) * p <= (acc + 1) * (2 * p)
  {
    assert (acc + 1) * (2 * p) == (acc + acc + b + 1) * p + (1 - b) * p;
  }

  lemma GetD0Range(env: Env, m: Machine, r0: nat)
    requires r0 <= 15
    ensures OnlyInput(m, GetD0Bits(env, m, r0).m)
    ensures 0 <= GetD0Bits(env, m, r0).num < Pow2(r0 + 1)
  {
    ReadBitsProgress(env, m, r0 + 1, 0);
  }

  lemma DirektTab(d3: nat)
    requires d3 < 5
    ensures DirektLow(d3) <= 14
    ensures Pow2(DirektLow(d3) + 1) + DirektAdd(d3) <= 0x810d
  {
    Pow2Small();
  }

  lemma {:induction false} CountDownProgress(env: Env, m: Machine, d2: nat)
    ensures OnlyInput(m, CountDown(env, m, d2).m)
    ensures -1 <= CountDown(env, m, d2).num <= d2
    decreases d2
  {
    var BitRead(b, m') := Get1Bit(env, m);
    if b != 0 && d2 > 0 { CountDownProgress(env, m', d2 - 1); }
  }

  lemma {:induction false} NextGbKeeps(env: Env, m: Machine, d3: nat)
    requires d3 < 5
    ensures OnlyInput(m, NextGb(env, m, d3).m)
    ensures 0 <= NextGb(env, m, d3).num <= 0x810c
    decreases d3
  {
    var NumRead(d1, m') := GetD0Bits(env, m, DirektLow(d3));
    DirektTab(d3);
    GetD0Range(env, m, DirektLow(d3));
    if d1 == DirektHigh(d3) && d3 > 0 { NextGbKeeps(env, m', d3 - 1); }
  }

  lemma LitCountKeeps(env: Env, m: Machine)
    ensures OnlyInput(m, LitCount(env, m).m)
    ensures 0 <= LitCount(env, m).num <= 0x810c
  {
    NextGbKeeps(env, Get1Bit(env, m).m, 4);
  }

  lemma CopyLengthKeeps(env: Env, m: Machine)
    ensures OnlyInput(m, CopyLength(env, m).m)
  {
    CountDownProgress(env, m, 3);
    var NumRead(d2, m1) := CountDown(env, m, 3);
    var d0 := LengthBits(d2);
    if d0 >= 0 { GetD0Range(env, m1, d0); }
  }

  lemma CopyOffsetKeeps(env: Env, m: Machine, d4: nat)
    ensures OnlyInput(m, CopyOffset(env, m, d4).m)
  {
    if d4 == 0 {
      var BitRead(b, m1) := Get1Bit(env, m);
      GetD0Range(env, m1, if b == 0 then 5 else 8);
    } else {
      CountDownProgress(env, m, 1);
      var NumRead(d2, m1) := CountDown(env, m, 1);
      GetD0Range(env, m1, MoreOffset(d2));
    }
  }

  /** When normal_bytes ends with no overflow recorded it has filled the whole destination;
      it never goes below it. */
  lemma {:induction false} NormalBytesEnd(env: Env, m: Machine)
    requires m.a6 <= |m.dst| && m.a6 <= env.dstend
    ensures var r := NormalBytes(env, m);
            && (if m.a6 >= 0 then r.a6 >= 0 else r.a6 == m.a6)
            && (!r.overflow.Any() ==> r.a6 == 0)
    decreases if m.a6 > 0 then m.a6 else 0
  {
    var lits := Literals(env, m);
    LiteralsEnd(env, m);
    if lits.GoOn? && lits.m.a6 > 0 {
      NormalBytesEnd(env, Strings(env, lits.m));
    }
  }

  lemma LiteralsEnd(env: Env, m: Machine)
    requires m.a6 <= |m.dst|
    ensures Literals(env, m).Stop? ==> Literals(env, m).m.overflow.Any()
    ensures if m.a6 >= 0 then Literals(env, m).m.a6 >= 0 else Literals(env, m).m.a6 == m.a6
  {
    var BitRead(b, m1) := Get1Bit(env, m);
    if b != 0 {
      LitCountKeeps(env, m1);
    }
  }

  /** Nothing at or above the write pointer changes. */
  ghost predicate KeepsAbove(m: Machine, m': Machine, p: int) {
    |m'.dst| == |m.dst| && forall i :: 0 <= i < |m.dst| && p <= i ==> m'.dst[i] == m.dst[i]
  }

  lemma {:induction false} CopyLitsAbove(env: Env, m: Machine, n: nat)
    requires n <= m.a6 <= |m.dst|
    ensures KeepsAbove(m, CopyLits(env, m, n), m.a6)
    decreases n
  {
    if n > 0 {
      CopyLitsAbove(env, m.(dst := m.dst[m.a6 - 1 := env.mem(m.a5 - 1)], a6 := m.a6 - 1, a5 := m.a5 - 1), n - 1);
    }
  }

  lemma {:induction false} CopyBackAbove(env: Env, m: Machine, a1: int, n: nat)
    requires 0 <= m.a6 <= |m.dst|
    ensures KeepsAbove(m, CopyBack(env, m, a1, n), m.a6)
    decreases n
  {
    if n > 0 && m.a6 > 0 {
      CopyBackAbove(env, m.(dst := m.dst[m.a6 - 1 := Read(env, m.dst, a1 - 1)], a6 := m.a6 - 1), a1 - 1, n - 1);
    }
  }

  lemma LiteralsAbove(env: Env, m: Machine)
    requires m.a6 <= |m.dst|
    ensures KeepsAbove(m, Literals(env, m).m, m.a6)
  {
    var BitRead(b, m1) := Get1Bit(env, m);
    if b != 0 {
      LitCountKeeps(env, m1);
      var NumRead(d1, m2) := LitCount(env, m1);
      var cnt := d1 + 1;
      var ov := ChkSrc(env, ChkDst(env, m2.overflow, m2.a6 - cnt, m2.a6 - 1), m2.a5 - cnt, m2.a5 - 1);
      if !ov.Any() { CopyLitsAbove(env, m2.(overflow := ov), cnt); }
    }
  }

  lemma StringsAbove(env: Env, m: Machine)
    requires 0 < m.a6 <= |m.dst|
    ensures KeepsAbove(m, Strings(env, m), m.a6)
  {
    var NumRead(d4, m1) := CopyLength(env, m);
    CopyLengthKeeps(env, m);
    CopyOffsetKeeps(env, m1, d4);
    var NumRead(d1, m2) := CopyOffset(env, m1, d4);
    var m3 := m2.(overflow := ChkDst(env, m2.overflow, m2.a6 - (d4 + 1) - 1, m2.a6 - 1));
    CopyBackAbove(env, m3, m3.a6 + 2 + d4 + d1, d4 + 2);
  }

  lemma {:induction false} NormalBytesAbove(env: Env, m: Machine)
    requires m.a6 <= |m.dst|
    ensures KeepsAbove(m, NormalBytes(env, m), m.a6)
    decreases if m.a6 > 0 then m.a6 else 0
  {
    LiteralsAbove(env, m);
    var lits := Literals(env, m);
    if lits.GoOn? && lits.m.a6 > 0 {
      StringsAbove(env, lits.m);
      NormalBytesAbove(env, Strings(env, lits.m));
    }
  }

  /** Whatever the packed bytes are, nothing outside the announced destination changes, and the
      call ends in one of three ways. */
  lemma DepackConfined(mem: int -> Byte, above: int -> Byte, dst: seq<Byte>)
    requires MagicOk(mem) ==> GetInfo(mem, 8) <= |dst|
    ensures var r := Depack(mem, above, dst);
            && |r.dst| == |dst|
            && (forall i :: 0 <= i < |dst| && (MagicOk(mem) ==> GetInfo(mem, 8) <= i) ==> r.dst[i] == dst[i])
            && r.outcome in {Returned(-1), Returned(0), PicturePass}
            && (r.outcome == Returned(0) ==> MagicOk(mem))
  {
    if MagicOk(mem) {
      var env := EnvOf(mem, above);
      StreamConfined(env, dst);
    }
  }

  lemma StreamConfined(env: Env, dst: seq<Byte>)
    requires env.dstend <= |dst|
    ensures KeepsAbove(Start(env, dst), Start(env, dst).(dst := DepackFrom(env, dst).dst), env.dstend)
  {
    NormalBytesAbove(env, Start(env, dst));
    Get1BitKeeps(env, NormalBytes(env, Start(env, dst)));
  }
}
