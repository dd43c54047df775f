/** The stream shared by bit fields and raw bytes that the ICE packer writes: a stack, because
    the depacker reads it from its last byte to its first (unice68/unice68_pack.c:85-116). */
module BitStacks {
  import opened Powers

  type Byte = x: int | 0 <= x < 256

  type Bit = x: int | 0 <= x < 2

  /** The packer's view of the stream: the bytes already stored, the bit accumulator `d7`
      (newest bit on top) and `d6`, the number of free bits of `d7` minus one. */
  datatype BitStack = BitStack(bytes: seq<Byte>, d7: int, d6: int) {

    /** The free low bits of the accumulator are clear and at least one is free. */
    ghost predicate Valid() {
      0 <= d6 <= 7 && 0 <= d7 < 256 && d7 % Pow2(d6 + 1) == 0
    }

    /** The number of bits on the stack. */
    function Size(): int {
      8 * |bytes| + 7 - d6
    }

    /** The accumulator closed by a sentinel bit just below its oldest bit
        (unice68/unice68_pack.c:484). */
    function Closed(): int
      requires 0 <= d6
    {
      d7 + Pow2(d6)
    }
  }

  const EMPTY := BitStack([], 0, 7)

  /** One turn of the loop of put_bits. */
  function PushBit(st: BitStack, b: Bit): BitStack
    requires 0 <= st.d6 <= 7 && 0 <= st.d7 < 256
  {
    var d7 := (st.d7 + 256 * b) / 2;
    if st.d6 == 0 then BitStack(st.bytes + [d7], 0, 7) else BitStack(st.bytes, d7, st.d6 - 1)
  }

  /** Bit `i` of the two's complement of `v`. */
  function BitOf(v: int, i: nat): Bit
    decreases i
  {
    if i == 0 then v % 2 else BitOf(v / 2, i - 1)
  }

  lemma {:induction false} BitOfValue(v: int, i: nat)
    ensures BitOf(v, i) == v / Pow2(i) % 2
    decreases i
  {
    if i > 0 {
      BitOfValue(v / 2, i - 1);
      DivDiv(v, i - 1);
    }
  }

  /** A bit field of `n` bits with value `v` modulo 2^n: the lowest bit goes first. */
  function PushBits(st: BitStack, v: int, n: nat): (r: BitStack)
    requires st.Valid()
    ensures r.Valid()
  {
    if n == 0 then st else
    PushBitValid(PushBits(st, v, n - 1), BitOf(v, n - 1));
    PushBit(PushBits(st, v, n - 1), BitOf(v, n - 1))
  }

  /** Raw bytes, stored below the accumulator. */
  function PushBytes(st: BitStack, bs: seq<Byte>): (r: BitStack)
    requires st.Valid()
    ensures r.Valid()
  {
    BitStack(st.bytes + bs, st.d7, st.d6)
  }

  lemma HalfShifted(d7: int, p: int, c: int, b: Bit)
    requires p > 0 && d7 % (2 * p) == 0 && p * c == 128
    ensures (d7 + 256 * b) / 2 % p == 0
  {
    var k := d7 / (2 * p);
    assert d7 == (2 * p) * k == 2 * (p * k);
    assert (d7 + 256 * b) / 2 == p * k + p * c * b;
    assert p * k + p * c * b == (k + c * b) * p;
    DivUnique((d7 + 256 * b) / 2, p, k + c * b, 0);
  }

  lemma PushBitValid(st: BitStack, b: Bit)
    requires st.Valid()
    ensures PushBit(st, b).Valid()
    ensures PushBit(st, b).Size() == st.Size() + 1
  {
    if st.d6 > 0 {
      var p, c := Pow2(st.d6), Pow2(7 - st.d6);
      assert Pow2(7) == 128;
      Pow2Add(st.d6, 7 - st.d6);
      HalfShifted(st.d7, p, c, b);
    } else {
      assert Pow2(8) == 256;
    }
  }

  lemma {:induction false} PushBitsSize(st: BitStack, v: int, n: nat)
    requires st.Valid()
    ensures PushBits(st, v, n).Size() == st.Size() + n
  {
    if n > 0 {
      PushBitsSize(st, v, n - 1);
      PushBitValid(PushBits(st, v, n - 1), BitOf(v, n - 1));
    }
  }

  /** Pushing the low bit first and then the rest of the field is pushing the field. */
  lemma {:induction false} PushBitsCons(st: BitStack, v: int, n: nat)
    requires st.Valid()
    ensures PushBit(st, v % 2).Valid()
    ensures PushBits(PushBit(st, v % 2), v / 2, n) == PushBits(st, v, n + 1)
  {
    PushBitValid(st, v % 2);
    if n > 0 {
      PushBitsCons(st, v, n - 1);
    }
  }

  lemma {:induction false} PushBitsGrow(st: BitStack, v: int, n: nat, k: nat)
    requires st.Valid() && k <= n
    ensures PushBits(st, v, k).bytes <= PushBits(st, v, n).bytes
    decreases n - k
  {
    if k < n {
      PushBitsGrow(st, v, n, k + 1);
    }
  }
}
