/** The depacker's readers against the packer's codes: the same numbers come back and exactly
    the bits of the code are consumed. */
module IceCodes {
  import opened Powers
  import opened BitStacks
  import opened IceFormat
  import opened IceDepack

  /** The machines `ms` lie along a field of value `v`: from `ms[n]` the next bit is bit `n - 1`
      of `v` and leads to `ms[n - 1]`. */
  ghost predicate Plays(env: Env, ms: seq<Machine>, v: int) {
    forall n :: 0 < n < |ms| ==> Get1Bit(env, ms[n]) == BitRead(BitOf(v, n - 1), ms[n - 1])
  }

  /** Bits `n - 1` down to `n - j` of `v`, shifted into `acc`. */
  function TopField(v: int, n: nat, j: nat, acc: int): int
    requires j <= n
    decreases j
  {
    if j == 0 then acc else TopField(v, n - 1, j - 1, acc + acc + BitOf(v, n - 1))
  }

  lemma {:induction false} TopFieldValue(v: int, n: nat, j: nat, acc: int)
    requires j <= n
    ensures TopField(v, n, j, acc) == acc * Pow2(j) + v / Pow2(n - j) % Pow2(j)
    decreases j
  {
    if j > 0 {
      var b, low := BitOf(v, n - 1), v / Pow2(n - j) % Pow2(j - 1);
      BitOfValue(v, n - 1);
      TopFieldValue(v, n - 1, j - 1, acc + acc + b);
      assert acc * Pow2(j) + v / Pow2(n - j) % Pow2(j) == (acc + acc + b) * Pow2(j - 1) + low by {
        TopBits(v, n, j);
        Shifted(acc, b, Pow2(j - 1));
      }
    }
  }

  lemma Shifted(acc: int, b: Bit, p: int)
    ensures (acc + acc + b) * p == acc * (2 * p) + b * p
  {}

  /** The top `j` of `n` bits are the top bit followed by the next `j - 1`. */
  lemma TopBits(v: int, n: nat, j: nat)
    requires 0 < j <= n
    ensures v / Pow2(n - j) % Pow2(j)
         == v / Pow2(n - 1) % 2 * Pow2(j - 1) + v / Pow2(n - j) % Pow2(j - 1)
  {
    var w, p := v / Pow2(n - j), Pow2(j - 1);
    DivPow2(v, n - j, j - 1);
    assert w / p == v / Pow2(n - 1);
    SplitMod(w, p);
  }

  // ---- Fields of a value that is ones above a payload of `k` bits.

  lemma {:induction false} OnesAboveValue(k: nat, x: nat)
    requires x < Pow2(k)
    ensures OnesAbove(k, x) == x - Pow2(k)
  {
    if k > 0 { OnesAboveValue(k - 1, x / 2); }
  }

  /** Above its payload a code is all ones. */
  lemma OnesField(v: int, k: nat, n: nat, j: nat)
    requires 0 <= v + Pow2(k) && v < 0 && k + j <= n
    ensures TopField(v, n, j, 0) == Pow2(j) - 1
  {
    TopFieldValue(v, n, j, 0);
    Pow2Add(k, n - j - k);
    OnesInt(v, Pow2(k), Pow2(n - j - k), Pow2(j));
  }

  lemma OnesInt(v: int, pk: nat, pd: nat, pj: nat)
    requires 0 <= v + pk && v < 0 && pd > 0 && pj > 0
    ensures v / (pk * pd) % pj == pj - 1
  {
    assert pk * (pd - 1) >= 0;
    assert pk * (pd - 1) == pk * pd - pk;
    DivUnique(v, pk * pd, -1, v + pk * pd);
    DivUnique(-1, pj, -1, pj - 1);
  }

  /** The payload itself. */
  lemma PayloadField(v: int, k: nat, x: nat)
    requires v == x - Pow2(k) && x < Pow2(k)
    ensures TopField(v, k, k, 0) == x
  {
    TopFieldValue(v, k, k, 0);
    DivUnique(v, Pow2(k), -1, x);
  }

  /** The top bit of a field and the rest of it. */
  lemma SplitTop(v: int, n: nat, q: int, x: nat)
    requires n > 0 && v == q * Pow2(n - 1) + x && x < Pow2(n - 1)
    ensures TopField(v, n, 1, 0) == q % 2
    ensures TopField(v, n - 1, n - 1, 0) == x
  {
    hide TopField, BitOf, Pow2;
    TopFieldValue(v, n, 1, 0);
    TopFieldValue(v, n - 1, n - 1, 0);
    DivUnique(v, Pow2(n - 1), q, x);
    Pow2Double(1);
    DivOne(v);
  }

  lemma DivOne(v: int)
    ensures v / Pow2(0) == v
  {
  }

  /** A payload whose top bit is clear ends a row of ones. */
  lemma ClearTop(v: int, k: nat, x: nat)
    requires k > 0 && v == x - Pow2(k) && x < Pow2(k - 1)
    ensures TopField(v, k, 1, 0) == 0
    ensures TopField(v, k - 1, k - 1, 0) == x
  {
    SplitTop(v, k, -2, x);
  }

  // ---- The readers along a field.

  lemma {:induction false} PlayBits(env: Env, ms: seq<Machine>, v: int, n: nat, j: nat, acc: int)
    requires Plays(env, ms, v) && j <= n < |ms|
    ensures ReadBits(env, ms[n], j, acc) == NumRead(TopField(v, n, j, acc), ms[n - j])
    decreases j
  {
    if j > 0 {
      PlayBits(env, ms, v, n - 1, j - 1, acc + acc + BitOf(v, n - 1));
    }
  }

  lemma PlayTop(env: Env, ms: seq<Machine>, v: int, n: nat)
    requires Plays(env, ms, v) && 0 < n < |ms|
    ensures Get1Bit(env, ms[n]) == BitRead(TopField(v, n, 1, 0), ms[n - 1])
  {
    PlayBits(env, ms, v, n, 1, 0);
    assert TopField(v, n, 1, 0) == TopField(v, n - 1, 0, BitOf(v, n - 1));
  }

  lemma PlayD0(env: Env, ms: seq<Machine>, v: int, n: nat, d0: nat, w: nat)
    requires Plays(env, ms, v) && d0 <= 15 && d0 + 1 == w <= n < |ms|
    ensures GetD0Bits(env, ms[n], d0) == NumRead(TopField(v, n, w, 0), ms[n - w])
  {
    PlayBits(env, ms, v, n, w, 0);
  }

  // ---- Literal counts.

  lemma NextGbUnfold(env: Env, m: Machine, d3: nat, t: int, m': Machine)
    requires d3 < 5 && GetD0Bits(env, m, DirektLow(d3)) == NumRead(t, m')
    ensures NextGb(env, m, d3)
         == if t == DirektHigh(d3) && d3 > 0 then NextGb(env, m', d3 - 1) else NumRead(t + DirektAdd(d3), m')
  {}

  /** The depacker's table of widths and all-ones values against the packer's. */
  lemma DirektMatches(d3: nat)
    requires d3 < 5
    ensures DirektLow(d3) + 1 == TIB0[6 - d3] <= 15
    ensures DirektHigh(d3) == Pow2(TIB0[6 - d3]) - 1
  {
    Pow2Small();
  }

  /** What one turn of `nextgb` makes of the field in front of it. */
  lemma NextGbTurn(env: Env, ms: seq<Machine>, v: int, n: nat, d3: nat, w: nat, t: nat)
    requires Plays(env, ms, v) && d3 < 5 && w == TIB0[6 - d3] <= n < |ms| && t == TopField(v, n, w, 0)
    ensures NextGb(env, ms[n], d3)
         == if t == Pow2(w) - 1 && d3 > 0 then NextGb(env, ms[n - w], d3 - 1) else NumRead(t + DirektAdd(d3), ms[n - w])
  {
    DirektMatches(d3);
    PlayD0(env, ms, v, n, DirektLow(d3), w);
    NextGbUnfold(env, ms[n], d3, t, ms[n - w]);
  }

  /** The bits left before the payload of class `i` is used up when the field of `d3` is next. */
  function Remaining(i: nat, d3: nat): (r: nat)
    requires 2 <= i <= 6 && 6 - i <= d3 < 5
    ensures r >= TIB0[i]
    decreases d3
  {
    if d3 == 6 - i then TIB0[i] else TIB0[6 - d3] + Remaining(i, d3 - 1)
  }

  lemma {:induction false} Climb(env: Env, ms: seq<Machine>, i: nat, v: int, x: nat, d3: nat)
    requires 2 <= i <= 6 && 6 - i <= d3 < 5 && Plays(env, ms, v) && Remaining(i, d3) < |ms|
    requires v == x - Pow2(TIB0[i]) && x < Pow2(TIB0[i]) && (i == 6 || x != Pow2(TIB0[i]) - 1)
    ensures NextGb(env, ms[Remaining(i, d3)], d3) == NumRead(x + DirektAdd(6 - i), ms[0])
    decreases d3
  {
    hide Plays, NextGb, DirektAdd, Pow2;
    if d3 == 6 - i {
      ClimbEnds(env, ms, i, v, x, TIB0[i]);
    } else {
      ClimbTurn(env, ms, i, v, Remaining(i, d3), d3, TIB0[6 - d3]);
      Climb(env, ms, i, v, x, d3 - 1);
    }
  }

  lemma ClimbEnds(env: Env, ms: seq<Machine>, i: nat, v: int, x: nat, w: nat)
    requires 2 <= i <= 6 && w == TIB0[i] && Plays(env, ms, v) && w < |ms|
    requires v == x - Pow2(w) && x < Pow2(w) && (i == 6 || x != Pow2(w) - 1)
    ensures NextGb(env, ms[w], 6 - i) == NumRead(x + DirektAdd(6 - i), ms[0])
  {
    hide Plays, NextGb, DirektAdd, Pow2;
    PayloadField(v, w, x);
    NextGbTurn(env, ms, v, w, 6 - i, w, x);
  }

  lemma ClimbTurn(env: Env, ms: seq<Machine>, i: nat, v: int, n: nat, d3: nat, w: nat)
    requires 2 <= i <= 6 && 6 - i < d3 < 5 && Plays(env, ms, v) && TIB0[i] + w <= n < |ms|
    requires w == TIB0[6 - d3] && 0 <= v + Pow2(TIB0[i]) && v < 0
    ensures NextGb(env, ms[n], d3) == NextGb(env, ms[n - w], d3 - 1)
  {
    OnesField(v, TIB0[i], n, w);
    NextGbTurn(env, ms, v, n, d3, w, Pow2(w) - 1);
  }

  /** The count of literals read back: a clear bit for none, else a set bit and the count less one. */
  lemma ReadLitCode(env: Env, ms: seq<Machine>, n: nat)
    requires n <= MAX_LITS && Plays(env, ms, LitCode(n).value) && |ms| == LitCode(n).width + 1
    ensures |ms| > 1
    ensures var BitRead(b, m) := Get1Bit(env, ms[|ms| - 1]);
            if n == 0 then b == 0 && m == ms[0] else b == 1 && LitCount(env, m) == NumRead(n - 1, ms[0])
  {
    hide LitCode, LitFits, LitCount, Get1Bit, Plays, Pow2;
    var i := LitCodeParts(n);
    if i <= 1 {
      ReadFewLits(env, ms, n, i, LitCode(n).value);
    } else {
      ReadManyLits(env, ms, n, i, LitCode(n).value, TIB1[i]);
    }
  }

  /** The class of a count, and the value and width of its code. */
  lemma LitCodeParts(n: nat) returns (i: nat)
    requires n <= MAX_LITS
    ensures LitFits(n, i) && i <= 6 && LitCode(n).width > 0 && (n == 0 <==> i == 0)
    ensures if i <= 1 then LitCode(n) == Code(-2, i + 1) else LitCode(n) == Code(n - T1A[i] - Pow2(TIB0[i]), TIB1[i])
  {
    hide LitCode, LitFits, ClassOf, Pow2;
    i := ClassOf(T1A, n, 6);
    LitClassFits(n);
    FitsClass(n, i);
    LitCodeOf(n, i, TIB0[i], n - T1A[i]);
  }

  lemma LitCodeOf(n: nat, i: nat, k: nat, x: nat)
    requires i == ClassOf(T1A, n, 6) && k == TIB0[i] && x == n - T1A[i] && x < Pow2(k)
    ensures LitCode(n) == Code(x - Pow2(k), TIB1[i])
  {
    hide ClassOf, Pow2, OnesAbove;
    OnesAboveValue(k, x);
  }

  lemma FitsClass(n: nat, i: nat)
    requires LitFits(n, i)
    ensures i <= 6 && 0 <= n - T1A[i] < Pow2(TIB0[i]) && (n == 0 <==> i == 0) && TIB1[i] > 0
    ensures i <= 1 ==> n - T1A[i] - Pow2(TIB0[i]) == -2 && TIB1[i] == i + 1
  {
    Pow2Small();
    hide Pow2;
  }

  lemma ReadFewLits(env: Env, ms: seq<Machine>, n: nat, i: nat, v: int)
    requires LitFits(n, i) && i <= 1 && v == -2 && Plays(env, ms, v) && |ms| == i + 2
    ensures var BitRead(b, m) := Get1Bit(env, ms[i + 1]);
            if n == 0 then b == 0 && m == ms[0] else b == 1 && LitCount(env, m) == NumRead(n - 1, ms[0])
  {
    PlayTop(env, ms, v, i + 1);
    PayloadField(v, 1, 0);
    if i == 1 {
      OnesField(v, 1, 2, 1);
      PlayTop(env, ms, v, 1);
    }
  }

  lemma ReadManyLits(env: Env, ms: seq<Machine>, n: nat, i: nat, v: int, w: nat)
    requires LitFits(n, i) && i > 1 && v == n - T1A[i] - Pow2(TIB0[i]) && w == TIB1[i]
    requires Plays(env, ms, v) && |ms| == w + 1
    ensures Get1Bit(env, ms[w]).bit == 1
    ensures LitCount(env, Get1Bit(env, ms[w]).m) == NumRead(n - 1, ms[0])
  {
    PlayTop(env, ms, v, w);
    OnesField(v, TIB0[i], w, 1);
    PlayTop(env, ms, v, w - 1);
    OnesField(v, TIB0[i], w - 1, 1);
    Climb(env, ms, i, v, n - T1A[i], 4);
  }

  ghost predicate LitFits(n: nat, i: nat) {
    && i <= 6
    && 0 <= n - T1A[i] < Pow2(TIB0[i]) && (i == 6 || n - T1A[i] != Pow2(TIB0[i]) - 1)
    && (i == 0 <==> n == 0)
    && (i == 1 ==> n == 1)
    && (i > 0 ==> TIB0[i] + 1 <= TIB1[i])
    && (i > 1 ==> TIB1[i] == 2 + Remaining(i, 4) && TIB0[i] + 2 <= TIB1[i])
    && (i > 1 ==> n - 1 == n - T1A[i] + DirektAdd(6 - i))
  }

  lemma LitClassFits(n: nat)
    requires n <= MAX_LITS
    ensures LitFits(n, ClassOf(T1A, n, 6))
  {
    var i := ClassOf(T1A, n, 6);
    ClassBounds(T1A, n, 6);
    Pow2Small();
    match i {
      case 0 => case 1 =>
      case 2 => assert Remaining(2, 4) == 2;
      case 3 => assert Remaining(3, 4) == 4;
      case 4 => assert Remaining(4, 4) == 7;
      case 5 => assert Remaining(5, 4) == 15;
      case 6 => assert Remaining(6, 4) == 30;
    }
  }

  // ---- Copy lengths.

  /** A row of `ones` set bits above a payload that starts with a clear one (the row may instead
      be as long as it can be): the value it leaves in d2, and what is left to read. */
  lemma {:induction false} CountDownRow(env: Env, ms: seq<Machine>, v: int, k: nat, x: nat, ones: nat, d2: nat)
    requires Plays(env, ms, v) && k + ones < |ms| && v == x - Pow2(k) && ones <= d2 + 1
    requires if ones <= d2 then k > 0 && x < Pow2(k - 1) else x < Pow2(k)
    ensures CountDown(env, ms[k + ones], d2) == NumRead(d2 - ones, ms[if ones <= d2 then k - 1 else k])
    decreases ones
  {
    if ones > 0 {
      assert x < Pow2(k);
      OnesField(v, k, k + ones, 1);
      PlayTop(env, ms, v, k + ones);
      if d2 > 0 {
        CountDownRow(env, ms, v, k, x, ones - 1, d2 - 1);
      }
    } else {
      ClearTop(v, k, x);
      PlayTop(env, ms, v, k);
    }
  }

  /** The payload below a row that left `d2`, and the length they make. */
  lemma CopyLengthFrom(env: Env, m: Machine, ms: seq<Machine>, v: int, d2: int, rest: nat)
    requires -1 <= d2 <= 3 && Plays(env, ms, v) && rest < |ms| && rest <= 15
    requires CountDown(env, m, 3) == NumRead(d2, ms[rest]) && LengthBits(d2) == rest - 1
    ensures CopyLength(env, m) == NumRead(LengthBase(d2) + TopField(v, rest, rest, 0), ms[0])
  {
    if rest > 0 {
      PlayD0(env, ms, v, rest, rest - 1, rest);
    }
    CopyLengthUnfold(env, m, d2, ms[rest], TopField(v, rest, rest, 0), ms[0]);
  }

  lemma CopyLengthUnfold(env: Env, m: Machine, d2: int, m1: Machine, d1: int, m2: Machine)
    requires -1 <= d2 <= 3 && CountDown(env, m, 3) == NumRead(d2, m1)
    requires var d0 := LengthBits(d2);
             if d0 < 0 then d1 == 0 && m2 == m1 else GetD0Bits(env, m1, d0) == NumRead(d1, m2)
    ensures CopyLength(env, m) == NumRead(LengthBase(d2) + d1, m2)
  {}

  /** The length of a copy read back. */
  lemma ReadLenCode(env: Env, ms: seq<Machine>, len: nat)
    requires 2 <= len <= MAX_LEN && Plays(env, ms, LenCode(len).value) && |ms| == LenCode(len).width + 1
    ensures CopyLength(env, ms[|ms| - 1]) == NumRead(len - 2, ms[0])
  {
    var i := ClassOf(TA, len, 4);
    LenClassFits(len);
    OnesAboveValue(TB[i], len - TA[i]);
    ReadLen(env, ms, len, i, LenCode(len).value, TB[i]);
  }

  lemma ReadLen(env: Env, ms: seq<Machine>, len: nat, i: nat, v: int, k: nat)
    requires LenFits(len, i) && k == TB[i] && v == len - TA[i] - Pow2(k)
    requires Plays(env, ms, v) && |ms| == k + i + 1
    ensures CopyLength(env, ms[k + i]) == NumRead(len - 2, ms[0])
  {
    var x := len - TA[i];
    CountDownRow(env, ms, v, k, x, i, 3);
    if i < 4 {
      ClearTop(v, k, x);
      CopyLengthFrom(env, ms[k + i], ms, v, 3 - i, k - 1);
    } else {
      PayloadField(v, k, x);
      CopyLengthFrom(env, ms[k + i], ms, v, 3 - i, k);
    }
  }

  ghost predicate LenFits(len: nat, i: nat) {
    && i <= 4 && TA[i] <= len
    && (if i < 4 then TB[i] > 0 && len - TA[i] < Pow2(TB[i] - 1) else len - TA[i] < Pow2(TB[i]))
    && len - TA[i] < Pow2(TB[i])
    && LengthBase(3 - i) == TA[i] - 2
    && LengthBits(3 - i) == (if i < 4 then TB[i] - 2 else TB[i] as int - 1) < 15
  }

  lemma LenClassFits(len: nat)
    requires 2 <= len <= MAX_LEN
    ensures LenFits(len, ClassOf(TA, len, 4))
  {
    ClassBounds(TA, len, 4);
    Pow2Small();
  }

  // ---- Copy offsets.

  lemma Offset2Unfold(env: Env, m: Machine, b: Bit, m1: Machine, v: int, m2: Machine)
    requires Get1Bit(env, m) == BitRead(b, m1) && GetD0Bits(env, m1, if b == 0 then 5 else 8) == NumRead(v, m2)
    ensures CopyOffset(env, m, 0) == NumRead(v + (if b == 0 then -1 else 0x3f), m2)
  {}

  lemma Offset2Value(off: nat, q: nat, n: nat)
    requires off <= MAX_OFF2 && (q, n) == (if off <= 0x3f then (0, 7) else (1, 10))
    ensures Offset2Code(off).width == n && off - 0x40 * q < Pow2(n - 1)
    ensures Offset2Code(off).value == q * Pow2(n - 1) + (off - 0x40 * q)
  {
    Pow2Small();
  }

  lemma ReadTwo(env: Env, ms: seq<Machine>, v: int, q: nat, n: nat, x: nat)
    requires (q, n) == (0, 7) || (q, n) == (1, 10)
    requires TopField(v, n, 1, 0) == q && TopField(v, n - 1, n - 1, 0) == x && Plays(env, ms, v) && |ms| == n + 1
    ensures CopyOffset(env, ms[n], 0) == NumRead(x + 0x40 * q - 1, ms[0])
  {
    PlayTop(env, ms, v, n);
    PlayD0(env, ms, v, n - 1, n - 2, n - 1);
    Offset2Unfold(env, ms[n], q, ms[n - 1], x, ms[0]);
  }

  lemma OffsetMoreUnfold(env: Env, m: Machine, d4: nat, d2: int, m1: Machine, v: int, m2: Machine)
    requires d4 > 0 && -1 <= d2 <= 1
    requires CountDown(env, m, 1) == NumRead(d2, m1) && GetD0Bits(env, m1, MoreOffset(d2)) == NumRead(v, m2)
    ensures CopyOffset(env, m, d4)
         == (var d1 := v + MoreOffsetWord(d2); NumRead(if d1 < 0 then d1 - d4 else d1, m2))
  {}

  /** Class `i` of the long offsets: ones on top, payload bits, and the ones of its row. */
  ghost predicate MoreFits(off: nat, i: nat, k: nat, ones: nat, d2: int) {
    && i <= 2 && k == TABLE3[3 + i] / 256 && k + ones == TABLE3[3 + i] % 16 + 1
    && (d2, ones) == (if i == 0 then (0, 1) else if i == 1 then (1, 0) else (-1, 2))
    && TABLE3[i] <= off && off - TABLE3[i] < (if i < 2 then Pow2(k - 1) else Pow2(k))
    && MoreOffset(d2) + 1 == (if i < 2 then k - 1 else k) && 0 < k <= 12
    && MoreOffsetWord(d2) + 1 == TABLE3[i]
  }

  lemma MoreClassFits(off: nat) returns (k: nat, ones: nat, d2: int)
    requires off <= MAX_OFF
    ensures MoreFits(off, ClassOf(TABLE3, off, 2), k, ones, d2)
  {
    var i := ClassOf(TABLE3, off, 2);
    ClassBounds(TABLE3, off, 2);
    Pow2Small();
    k, ones, d2 := TABLE3[3 + i] / 256, if i == 0 then 1 else if i == 1 then 0 else 2,
                   if i == 0 then 0 else if i == 1 then 1 else -1;
  }

  lemma ReadMore(env: Env, ms: seq<Machine>, off: nat, d4: nat, i: nat, v: int, k: nat, ones: nat, d2: int)
    requires d4 > 0 && MoreFits(off, i, k, ones, d2) && v == off - TABLE3[i] - Pow2(k)
    requires Plays(env, ms, v) && |ms| == k + ones + 1
    ensures CopyOffset(env, ms[k + ones], d4) == NumRead(if off == 0 then -1 - d4 else off - 1, ms[0])
  {
    var x := off - TABLE3[i];
    CountDownRow(env, ms, v, k, x, ones, 1);
    if i < 2 {
      ClearTop(v, k, x);
      CopyOffsetFrom(env, ms[k + ones], ms, v, d4, d2, k - 1);
    } else {
      PayloadField(v, k, x);
      CopyOffsetFrom(env, ms[k + ones], ms, v, d4, d2, k);
    }
  }

  /** The payload below a row that left `d2`, and the offset they make. */
  lemma CopyOffsetFrom(env: Env, m: Machine, ms: seq<Machine>, v: int, d4: nat, d2: int, rest: nat)
    requires d4 > 0 && -1 <= d2 <= 1 && Plays(env, ms, v) && 0 < rest < |ms| && rest <= 15
    requires CountDown(env, m, 1) == NumRead(d2, ms[rest]) && MoreOffset(d2) == rest - 1
    ensures CopyOffset(env, m, d4)
         == (var d1 := TopField(v, rest, rest, 0) + MoreOffsetWord(d2);
             NumRead(if d1 < 0 then d1 - d4 else d1, ms[0]))
  {
    PlayD0(env, ms, v, rest, rest - 1, rest);
    OffsetMoreUnfold(env, m, d4, d2, ms[rest], TopField(v, rest, rest, 0), ms[0]);
  }

  /** The offset of a copy read back, as the distance it stands for. */
  lemma ReadOffCode(env: Env, ms: seq<Machine>, s: Segment)
    requires s.Codable() && Plays(env, ms, s.OffCode().value) && |ms| == s.OffCode().width + 1
    ensures CopyOffset(env, ms[|ms| - 1], s.len - 2) == NumRead(s.Distance() - s.len, ms[0])
  {
    if s.len == 2 {
      var (q, n) := if s.off <= 0x3f then (0, 7) else (1, 10);
      Offset2Value(s.off, q, n);
      SplitTop(Offset2Code(s.off).value, n, q, s.off - 0x40 * q);
      ReadTwo(env, ms, Offset2Code(s.off).value, q, n, s.off - 0x40 * q);
    } else {
      var k, ones, d2 := OffsetMoreValue(s.off);
      ReadMore(env, ms, s.off, s.len - 2, ClassOf(TABLE3, s.off, 2), OffsetMoreCode(s.off).value, k, ones, d2);
    }
  }

  lemma OffsetMoreValue(off: nat) returns (k: nat, ones: nat, d2: int)
    requires off <= MAX_OFF
    ensures MoreFits(off, ClassOf(TABLE3, off, 2), k, ones, d2)
    ensures OffsetMoreCode(off) == Code(off - TABLE3[ClassOf(TABLE3, off, 2)] - Pow2(k), k + ones)
  {
    k, ones, d2 := MoreClassFits(off);
    assert Pow2(k - 1) < Pow2(k);
    OnesAboveValue(k, off - TABLE3[ClassOf(TABLE3, off, 2)]);
  }
}
