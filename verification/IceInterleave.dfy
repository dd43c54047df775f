/** The stream in general: whatever fields and bytes are pushed, in any order and at any bit
    alignment, come back in reverse once the accumulator is closed by its sentinel. The packer's
    own format (IceFormat) is one such sequence. */
module IceInterleave {
  import opened Powers
  import opened BitStacks
  import opened IceDepack
  import opened IceCodes
  import opened IceRoundTrip

  /** What put_bits or a literal store adds to the stream. */
  datatype Item = Field(value: int, width: nat) | Raw(byte: Byte)

  /** What a reader asks for: a number of bits, or `*--a5`. */
  datatype Ask = AskBits(n: nat) | AskByte

  datatype Answers = Answers(nums: seq<int>, m: Machine)

  function Push(st: BitStack, item: Item): (r: BitStack)
    requires st.Valid()
    ensures r.Valid()
  {
    match item
    case Field(v, n) => PushBits(st, v, n)
    case Raw(b) => PushBytes(st, [b])
  }

  function PushAll(st: BitStack, items: seq<Item>): (r: BitStack)
    requires st.Valid()
    ensures r.Valid()
  {
    if items == [] then st else Push(PushAll(st, items[..|items| - 1]), items[|items| - 1])
  }

  function AskFor(item: Item): Ask {
    match item
    case Field(_, n) => AskBits(n)
    case Raw(_) => AskByte
  }

  /** What a reader that is asked for the same kind of thing should get. */
  function Content(item: Item): int {
    match item
    case Field(v, n) => v % Pow2(n)
    case Raw(b) => b
  }

  /** A field of up to 16 bits is one call of get_d0_bits; a wider one is its loop gone on. */
  function Answer(env: Env, m: Machine, ask: Ask): NumRead {
    match ask
    case AskBits(n) => if 1 <= n <= 16 then GetD0Bits(env, m, n - 1) else ReadBits(env, m, n, 0)
    case AskByte => NumRead(env.mem(m.a5 - 1), m.(a5 := m.a5 - 1))
  }

  /** The asks from the last to the first; the answers are listed in the order of `asks`. */
  function AnswerAll(env: Env, m: Machine, asks: seq<Ask>): Answers
    decreases |asks|
  {
    if asks == [] then Answers([], m) else
    var NumRead(x, m') := Answer(env, m, asks[|asks| - 1]);
    var rest := AnswerAll(env, m', asks[..|asks| - 1]);
    Answers(rest.nums + [x], rest.m)
  }

  function Asks(items: seq<Item>): seq<Ask> {
    seq(|items|, i requires 0 <= i < |items| => AskFor(items[i]))
  }

  function Contents(items: seq<Item>): seq<int> {
    seq(|items|, i requires 0 <= i < |items| => Content(items[i]))
  }

  /** A reader undoes one push. */
  lemma PopItem(env: Env, m: Machine, st: BitStack, item: Item)
    requires st.Valid() && Holds(env, Push(st, item))
    ensures Holds(env, st)
    ensures Answer(env, At(m, Push(st, item)), AskFor(item)) == NumRead(Content(item), At(m, st))
  {
    hide Get1Bit, BitOf, TopField, Plays, ReadBits, PushBits;
    match item {
      case Field(v, n) =>
        var ms := Playback(env, m, st, v, n);
        PlayBits(env, ms, v, n, n, 0);
        TopFieldValue(v, n, n, 0);
      case Raw(b) =>
        assert env.mem(12 + |st.bytes|) == Push(st, item).bytes[|st.bytes|];
        HoldsPrefix(env, st, Push(st, item));
    }
  }

  lemma {:induction false} PopAll(env: Env, m: Machine, st: BitStack, items: seq<Item>)
    requires st.Valid() && Holds(env, PushAll(st, items))
    ensures AnswerAll(env, At(m, PushAll(st, items)), Asks(items)) == Answers(Contents(items), At(m, st))
    decreases |items|
  {
    hide Push, Answer, Content, At, Holds, AskFor;
    if items == [] {
      assert Asks(items) == [] && Contents(items) == [];
    } else {
      var init, last := items[..|items| - 1], items[|items| - 1];
      PopItem(env, m, PushAll(st, init), last);
      PopAll(env, m, st, init);
      assert Asks(items)[..|items| - 1] == Asks(init);
      assert Contents(init) + [Content(last)] == Contents(items);
    }
  }

  /** A stream of any fields and bytes, stored after a 12-byte header and closed by the sentinel:
      the depacker's readers, started on its last byte, give the contents back in reverse order
      and end just above the header with an empty accumulator. */
  lemma ReadBackwards(env: Env, m: Machine, items: seq<Item>)
    requires var st := PushAll(EMPTY, items);
             Holds(env, st) && m.a5 == 12 + |st.bytes| && m.d7 == env.mem(m.a5) == st.Closed()
    ensures AnswerAll(env, m, Asks(items)) == Answers(Contents(items), m.(a5 := 12, d7 := 128))
  {
    assert m == At(m, PushAll(EMPTY, items));
    PopAll(env, m, EMPTY, items);
    assert Pow2(7) == 128;
  }
}
