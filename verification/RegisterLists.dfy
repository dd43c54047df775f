/** Register lists of MOVEM: how as68 reads one (as68/opcode.c:341-372, 1376-1384) and how desa68
    writes one (desa68/desa68.c:1064-1081). */
module RegisterLists {
  import opened Powers
  import opened Words

  /** One item of a written list: a register, or two with a dash. 0 to 7 are D0-D7, 8 to 15 are
      A0-A7. */
  datatype Item = Item(first: nat, last: nat) {
    predicate Valid() { first < 16 && last < 16 }

    /** The registers in the item, whichever end comes first. */
    predicate Covers(r: nat) { first <= r <= last || last <= r <= first }
  }

  ghost predicate Covered(items: seq<Item>, r: nat) {
    exists k :: 0 <= k < |items| && items[k].Covers(r)
  }

  /** Register `r` is in the mask. */
  predicate Has(mask: nat, r: nat) {
    Shr(mask, r) % 2 == 1
  }

  // ---- Bits of masks.

  lemma HasBitwise(op: BitOp, a: nat, b: nat, r: nat)
    ensures Has(Bitwise(op, a, b), r) == Join(op, Has(a, r), Has(b, r))
  {
    BitwiseShift(op, a, b, r);
    Unfold(op, Shr(a, r), Shr(b, r));
    hide Bitwise;
  }

  /** `(1 << n) - 1` holds the registers below `n`. */
  lemma {:induction false} HasOnes(n: nat, r: nat)
    ensures Has(Pow2(n) - 1, r) == (r < n)
    decreases n
  {
    if n == 0 {
      DivUnique(0, Pow2(r), 0, 0);
    } else {
      OnesHalf(n);
      HasHalf(Pow2(n) - 1, r);
      if r > 0 {
        HasOnes(n - 1, r - 1);
      }
    }
  }

  lemma {:induction false} HasNot(width: nat, x: nat, r: nat)
    requires x < Pow2(width) && r < width
    ensures Has(Not(width, x), r) == !Has(x, r)
    decreases r
  {
    hide Pow2, Has;
    Pow2Double(width);
    HasHalf(x, r);
    HasHalf(Not(width, x), r);
    NotHalf(Pow2(width - 1), x);
    if r > 0 {
      HasNot(width - 1, x / 2, r - 1);
    }
  }

  lemma NotHalf(m: int, x: int)
    ensures (2 * m - 1 - x) / 2 == m - 1 - x / 2 && (2 * m - 1 - x) % 2 == 1 - x % 2
  {
  }

  lemma HasHalf(x: nat, r: nat)
    ensures Has(x, r) == if r == 0 then x % 2 == 1 else Has(x / 2, r - 1)
  {
    assert Pow2(0) == 1;
    if r > 0 { DivDiv(x, r - 1); }
  }

  /** A mask is the set of its registers. */
  lemma {:induction false} SameRegisters(a: nat, b: nat, n: nat)
    requires a < Pow2(n) && b < Pow2(n) && forall r: nat :: r < n ==> Has(a, r) == Has(b, r)
    ensures a == b
    decreases n
  {
    if n > 0 {
      Pow2Double(n);
      assert Has(a, 0) == Has(b, 0);
      assert Pow2(0) == 1;
      forall r: nat | r < n - 1 ensures Has(a / 2, r) == Has(b / 2, r) {
        DivDiv(a, r);
        DivDiv(b, r);
        assert Has(a, r + 1) == Has(b, r + 1);
      }
      SameRegisters(a / 2, b / 2, n - 1);
    }
  }

  // ---- Reading a list.

  /** The mask of the registers from `b` to `a`. */
  function RangeMask(a: nat, b: nat): nat
    requires b < 16
  {
    Pow2Grows(b, 16);
    Pow2Grows(16, 32);
    Bitwise(AND, Pow2(a + 1) - 1, Not(32, Pow2(b) - 1))
  }

  lemma RangeBits(a: nat, b: nat, r: nat)
    requires b <= a < 16 && r < 32
    ensures Has(RangeMask(a, b), r) == (b <= r <= a)
  {
    hide Has, Bitwise, Pow2, Not;
    Pow2Grows(b, 16);
    Pow2Grows(16, 32);
    HasBitwise(AND, Pow2(a + 1) - 1, Not(32, Pow2(b) - 1), r);
    HasOnes(a + 1, r);
    HasOnes(b, r);
    HasNot(32, Pow2(b) - 1, r);
  }

  lemma {:induction false} AndBelow(a: nat, b: nat, n: nat)
    requires a < Pow2(n)
    ensures Bitwise(AND, a, b) < Pow2(n)
    decreases n
  {
    hide Bitwise;
    if n == 0 {
      AndNothing(b);
      AndZero(b);
    } else {
      Pow2Double(n);
      Unfold(AND, a, b);
      AndBelow(a / 2, b / 2, n - 1);
    }
  }

  lemma {:induction false} AndZero(b: nat)
    ensures Bitwise(AND, 0, b) == 0
  {
    if b > 0 { AndZero(b / 2); }
  }

  /** reglist: the registers of any of the items, in any order and direction. */
  method RegList(items: seq<Item>) returns (c: nat)
    requires items != [] && forall k :: 0 <= k < |items| ==> items[k].Valid()
    ensures c < Pow2(16) && forall r: nat :: r < 16 ==> Has(c, r) == Covered(items, r)
  {
    hide Has, Bitwise, Pow2, RangeMask;
    c := 0;
    NoRegisters();
    var i := 0;
    while i < |items|
      invariant 0 <= i <= |items| && c < Pow2(16)
      invariant forall r: nat :: r < 16 ==> Has(c, r) == Covered(items[..i], r)
    {
      var a, b := items[i].first, items[i].last;
      if b > a {
        a, b := b, a;
      }
      ghost var before := c;
      MaskBelow(a, b);
      BitwiseBound(OR, c, RangeMask(a, b), 16);
      c := Bitwise(OR, c, RangeMask(a, b));
      forall r: nat | r < 16 ensures Has(c, r) == Covered(items[..i + 1], r) {
        HasBitwise(OR, before, RangeMask(a, b), r);
        RangeBits(a, b, r);
        CoveredNext(items, i, r);
      }
      i := i + 1;
    }
    assert items[..i] == items;
  }

  lemma NoRegisters()
    ensures 0 < Pow2(16) && forall r: nat :: !Has(0, r) && !Covered([], r)
  {
    forall r: nat ensures !Has(0, r) {
      DivUnique(0, Pow2(r), 0, 0);
    }
  }

  lemma MaskBelow(a: nat, b: nat)
    requires b <= a < 16
    ensures RangeMask(a, b) < Pow2(16)
  {
    hide Bitwise, Pow2, Not;
    Pow2Grows(b, 16);
    Pow2Grows(16, 32);
    Pow2Grows(a + 1, 16);
    AndBelow(Pow2(a + 1) - 1, Not(32, Pow2(b) - 1), 16);
  }

  lemma CoveredNext(items: seq<Item>, i: nat, r: nat)
    requires i < |items|
    ensures Covered(items[..i + 1], r) <==> Covered(items[..i], r) || items[i].Covers(r)
  {
    if Covered(items[..i], r) {
      var k :| 0 <= k < i && items[..i][k].Covers(r);
      assert items[..i + 1][k].Covers(r);
    }
    if Covered(items[..i + 1], r) {
      var k :| 0 <= k < i + 1 && items[..i + 1][k].Covers(r);
      if k < i { assert items[..i][k].Covers(r); }
    }
    assert items[..i + 1][i] == items[i];
  }

  // ---- Writing a list.

  /** `i ^ rev`. */
  function Mirror(i: nat, rev: bool): nat
    requires i < 16
  {
    if rev then 15 - i else i
  }

  /** The items are the maximal runs of registers below `end` in the mask, in order. */
  ghost predicate MaximalRuns(items: seq<Item>, mask: nat, rev: bool, end: nat)
    requires end <= 16
  {
    Runs(items, end) && Covering(items, mask, rev, end)
  }

  /** Runs in order with gaps between them. */
  ghost predicate Runs(items: seq<Item>, end: nat) {
    && (forall k :: 0 <= k < |items| ==> items[k].first <= items[k].last < end)
    && (forall j, k :: 0 <= j < k < |items| ==> items[j].last + 1 < items[k].first)
  }

  ghost predicate Covering(items: seq<Item>, mask: nat, rev: bool, end: nat)
    requires end <= 16
  {
    forall i: nat :: i < end ==> Covered(items, i) == Has(mask, Mirror(i, rev))
  }

  /** get_movemreg. */
  method GetMovemReg(v: nat, rev: bool) returns (items: seq<Item>)
    ensures MaximalRuns(items, v, rev, 16)
  {
    hide Has;
    items := [];
    var i := 0;
    while i < 16
      invariant 0 <= i <= 17
      invariant MaximalRuns(items, v, rev, if i > 16 then 16 else i)
      invariant items != [] && items[|items| - 1].last + 1 >= i ==> i >= 16
      decreases 17 - i
    {
      while i < 16 && !Has(v, Mirror(i, rev))
        invariant 0 <= i <= 16 && MaximalRuns(items, v, rev, i)
        invariant items != [] && items[|items| - 1].last + 1 >= i ==> i >= 16
      {
        RunsSkip(items, v, rev, i);
        i := i + 1;
      }
      if i == 16 { break; }
      var j := i;
      ghost var before := items;
      while i < 16 && Has(v, Mirror(i, rev))
        invariant j <= i <= 16 && (forall m: nat :: j <= m < i ==> Has(v, Mirror(m, rev)))
      {
        i := i + 1;
      }
      RunsGrow(items, v, rev, j, i);
      items := items + [Item(j, i - 1)];
      if i < 16 { RunsSkip(items, v, rev, i); }
      i := i + 1;
    }
  }

  lemma RunsSkip(items: seq<Item>, v: nat, rev: bool, i: nat)
    requires i < 16 && MaximalRuns(items, v, rev, i) && !Has(v, Mirror(i, rev))
    ensures MaximalRuns(items, v, rev, i + 1)
  {
    hide Has;
    assert !Covered(items, i);
  }

  /** Items end before `end`, so they cover nothing from there on. */
  lemma BelowItems(items: seq<Item>, m: nat, end: nat)
    requires forall k :: 0 <= k < |items| ==> items[k].first <= items[k].last < end
    ensures m >= end ==> !Covered(items, m)
  {
  }

  lemma RunsGrow(items: seq<Item>, v: nat, rev: bool, j: nat, i: nat)
    requires j < i <= 16 && MaximalRuns(items, v, rev, j) && (forall m: nat :: j <= m < i ==> Has(v, Mirror(m, rev)))
    requires items != [] ==> items[|items| - 1].last + 1 < j
    ensures MaximalRuns(items + [Item(j, i - 1)], v, rev, i)
  {
    hide Runs, Covering, Has;
    OneMoreRun(items, j, i);
    CoveringGrows(items, v, rev, j, i);
  }

  lemma OneMoreRun(items: seq<Item>, j: nat, i: nat)
    requires j < i && Runs(items, j) && (items != [] ==> items[|items| - 1].last + 1 < j)
    ensures Runs(items + [Item(j, i - 1)], i)
  {
    var more := items + [Item(j, i - 1)];
    forall k | 0 <= k < |items| ensures more[k] == items[k] && items[k].last + 1 < j {
      assert k == |items| - 1 || items[k].last + 1 < items[|items| - 1].first;
    }
  }

  lemma CoveringGrows(items: seq<Item>, v: nat, rev: bool, j: nat, i: nat)
    requires j < i <= 16 && Runs(items, j) && Covering(items, v, rev, j)
    requires forall m: nat :: j <= m < i ==> Has(v, Mirror(m, rev))
    ensures Covering(items + [Item(j, i - 1)], v, rev, i)
  {
    hide Has, Covered, Mirror;
    var more := items + [Item(j, i - 1)];
    assert more[..|items|] == items && more[..|items| + 1] == more && more[|items|] == Item(j, i - 1);
    forall m: nat | m < i ensures Covered(more, m) == Has(v, Mirror(m, rev)) {
      CoveredNext(more, |items|, m);
      BelowItems(items, m, j);
    }
  }

  // ---- Through both.

  /** The low `n` bits of `c` are those of the mask in reverse. */
  ghost predicate ReversedBelow(c: nat, mask: nat, n: nat) {
    forall r: nat :: r < n ==> Has(c, r) == Has(mask, n - 1 - r)
  }

  /** `b` is the mask without its low `n` bits. */
  ghost predicate WithoutLow(b: nat, mask: nat, n: nat) {
    forall r: nat :: Has(b, r) == Has(mask, n + r)
  }

  /** The reversal that Cmovem applies for a pre-decrement operand. */
  method Reverse(mask: nat) returns (c: nat)
    requires mask < Pow2(16)
    ensures c < Pow2(16) && ReversedBelow(c, mask, 16)
  {
    hide ReversedBelow, WithoutLow;
    c := 0;
    var b, n := mask, 0;
    ReverseStart(mask);
    while n < 16
      invariant 0 <= n <= 16 && c < Pow2(n) && b >= 0
      invariant ReversedBelow(c, mask, n) && WithoutLow(b, mask, n)
    {
      ReverseStep(mask, b, c, n, 2 * c + b % 2);
      c := 2 * c + b % 2;
      b := b / 2;
      n := n + 1;
    }
  }

  lemma ReverseStart(mask: nat)
    ensures 0 < Pow2(0) && ReversedBelow(0, mask, 0) && WithoutLow(mask, mask, 0)
  {
    hide Has;
  }

  lemma ReverseStep(mask: nat, b: nat, c: nat, n: nat, c': nat)
    requires n < 16 && c < Pow2(n) && ReversedBelow(c, mask, n) && WithoutLow(b, mask, n) && c' == 2 * c + b % 2
    ensures c' < Pow2(n + 1) && ReversedBelow(c', mask, n + 1) && WithoutLow(b / 2, mask, n + 1)
  {
    hide Has, Pow2;
    Pow2Double(n + 1);
    forall r: nat | r < n + 1 ensures Has(c', r) == Has(mask, n + 1 - 1 - r) {
      HasHalf(c', r);
      HasHalf(b, 0);
      if r == 0 {
        assert Has(b, 0) == Has(mask, n + 0);
      } else {
        assert Has(c, r - 1) == Has(mask, n - 1 - (r - 1));
      }
    }
    forall r: nat ensures Has(b / 2, r) == Has(mask, n + 1 + r) {
      HasHalf(b, r + 1);
      assert Has(b, r + 1) == Has(mask, n + (r + 1));
    }
  }

  /** A mask word listed by desa68, read by as68 and stored again is the same word, with or without
      pre-decrement; the empty mask alone has no list that can be read. */
  method Relist(v: nat, predecrement: bool) returns (c: nat)
    requires 0 < v < Pow2(16)
    ensures c == v
  {
    hide Has, Pow2;
    var items := GetMovemReg(v, predecrement);
    SomeRegister(v, predecrement, items);
    c := RegList(items);
    ghost var b := c;
    if predecrement { c := Reverse(c); }
    forall r: nat | r < 16 ensures Has(c, r) == Has(v, r) {
      assert predecrement ==> Has(c, r) == Has(b, 16 - 1 - r);
      assert Covered(items, Mirror(r, predecrement)) == Has(v, Mirror(Mirror(r, predecrement), predecrement));
    }
    SameRegisters(c, v, 16);
  }

  lemma SomeRegister(v: nat, rev: bool, items: seq<Item>)
    requires 0 < v < Pow2(16) && MaximalRuns(items, v, rev, 16)
    ensures items != []
  {
    if items == [] {
      forall r: nat | r < 16 ensures Has(v, r) == Has(0, r) {
        NoRegisters();
        assert Covered(items, Mirror(r, rev)) == Has(v, Mirror(Mirror(r, rev), rev));
      }
      SameRegisters(v, 0, 16);
    }
  }
}
