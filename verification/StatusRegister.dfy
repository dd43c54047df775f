/** The condition codes of the 68000 as tools/insttest68.c keeps them, and its operands: numbers
    held in the top bits of a machine word, above `low` clear bits (NORM_FIX). */
module StatusRegister {
  import opened Powers
  import opened Words

  /** The five bits of `sr_def_t`, with the C operators on them. */
  datatype Sr = Sr(c: bool, v: bool, z: bool, n: bool, x: bool) {
    function Or(o: Sr): Sr { Sr(c || o.c, v || o.v, z || o.z, n || o.n, x || o.x) }

    function Xor(o: Sr): Sr { Sr(c != o.c, v != o.v, z != o.z, n != o.n, x != o.x) }

    function And(o: Sr): Sr { Sr(c && o.c, v && o.v, z && o.z, n && o.n, x && o.x) }

    function Not(): Sr { Sr(!c, !v, !z, !n, !x) }
  }

  const SR_NONE := Sr(false, false, false, false, false)
  const SR_C := SR_NONE.(c := true)
  const SR_V := SR_NONE.(v := true)
  const SR_Z := SR_NONE.(z := true)
  const SR_N := SR_NONE.(n := true)
  const SR_X := SR_NONE.(x := true)

  /** A mask of all ones or of none, cut down to `sr`: `-b & sr`, or `(R >> SIGN_BIT) & sr`. */
  function Masked(b: bool, sr: Sr): Sr {
    if b then sr else SR_NONE
  }

  /** A word holds an operand of `n` bits above `low` clear ones. */
  ghost predicate Operand(low: nat, n: nat, word: nat) {
    word < Pow2(low + n) && word % Pow2(low) == 0
  }

  /** The operand in a word. */
  lemma {:induction false} OperandIs(low: nat, n: nat, word: nat) returns (d: nat)
    requires n > 0 && Operand(low, n, word)
    ensures d == Shr(word, low) < Pow2(n) && word == d * Pow2(low)
    ensures Negative(low + n, word) == (d >= Pow2(n - 1))
    ensures word == 0 <==> d == 0
  {
    Pow2Add(low, n);
    Pow2Add(low, n - 1);
    d := Shr(word, low);
    DivBelow(word, Pow2(low), Pow2(n));
    DivBelow(word, Pow2(low), Pow2(n - 1));
  }

  lemma OperandOf(low: nat, n: nat, d: nat)
    requires d < Pow2(n)
    ensures Operand(low, n, d * Pow2(low)) && Shr(d * Pow2(low), low) == d
  {
    Pow2Add(low, n);
    Scaled(d, Pow2(n), Pow2(low));
    hide Pow2;
  }

  lemma Scaled(d: nat, q: nat, p: nat)
    requires d < q && p > 0
    ensures 0 <= d * p < p * q && d * p % p == 0 && d * p / p == d
  {
    MulApart(q, d, p);
    MulApart(d, -1, p);
    DivUnique(d * p, p, d, 0);
  }

  lemma DivBelow(x: nat, p: nat, q: nat)
    requires p > 0
    ensures x / p < q <==> x < p * q
  {
    var d, r := x / p, x % p;
    assert x == d * p + r;
    MulApart(q, d, p);
    if d >= q { assert (d - q) * p >= 0; }
  }
}
