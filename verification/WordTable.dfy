/** The symbol table of as68 (as68/word.c:38-65): 256 chains of words, the newest first, so that a
    new word hides the older ones of its name. */
module WordTable {
  import opened Words

  const CHAINS := 256

  /** The checksum of a name before it is cut to eight bits. */
  function Sum(c: nat, s: string): nat
    decreases |s|
  {
    if s == "" then c else Sum(Bitwise(XOR, 2 * c, s[0] as int % 256), s[1..])
  }

  function Checksum(s: string): (c: nat)
    ensures c < CHAINS
  {
    Sum(0, s) % 256
  }

  class Word {
    const name: string
    var next: Word?

    constructor (name: string)
      ensures this.name == name
    {
      this.name := name;
      next := null;
    }
  }

  ghost function At(ws: seq<Word>, i: nat): Word? {
    if i < |ws| then ws[i] else null
  }

  /** The chain of words that starts at `head`. */
  ghost predicate Linked(ws: seq<Word>, head: Word?)
    reads ws
  {
    head == At(ws, 0) && forall i :: 0 <= i < |ws| ==> ws[i].next == At(ws, i + 1)
  }

  /** The first word of that name. */
  ghost function First(ws: seq<Word>, s: string): Word? {
    if ws == [] then null else if ws[0].name == s then ws[0] else First(ws[1..], s)
  }

  class Table {
    const chain: array<Word?>
    ghost var words: seq<seq<Word>>
    ghost var all: set<Word>

    ghost predicate Valid()
      reads this, chain, all
    {
      && chain.Length == CHAINS == |words|
      && (forall c, i :: 0 <= c < CHAINS && 0 <= i < |words[c]| ==>
            words[c][i] in all && Checksum(words[c][i].name) == c)
      && (forall c :: 0 <= c < CHAINS ==> Linked(words[c], chain[c]))
    }

    /** What a name stands for. */
    ghost function Named(s: string): Word?
      requires |words| == CHAINS
      reads this
    {
      First(words[Checksum(s)], s)
    }

    constructor ()
      ensures Valid() && all == {} && forall s :: Named(s) == null
    {
      chain := new Word?[CHAINS](_ => null);
      words, all := seq(CHAINS, _ => []), {};
    }

    method Hash(s: string) returns (c: nat)
      ensures c == Checksum(s)
    {
      c := 0;
      var i := 0;
      while i < |s|
        invariant 0 <= i <= |s| && Sum(0, s) == Sum(c, s[i..])
      {
        c := Bitwise(XOR, 2 * c, s[i] as int % 256);
        i := i + 1;
      }
      c := c % 256;
    }

    method Search(s: string) returns (w: Word?)
      requires Valid()
      ensures w == Named(s)
    {
      var c := Hash(s);
      w := chain[c];
      ghost var i := 0;
      while w != null && w.name != s
        invariant i <= |words[c]| && w == At(words[c], i) && First(words[c][i..], s) == Named(s)
        decreases |words[c]| - i
      {
        w := w.next;
        i := i + 1;
      }
    }

    /** put_word: the new word hides all others of its name, and no other name changes. */
    method Put(w: Word)
      requires Valid() && w !in all
      modifies this, chain, w
      ensures Valid() && all == old(all) + {w}
      ensures forall s :: Named(s) == if s == w.name then w else old(Named(s))
    {
      hide Checksum, First, Valid;
      var c := Hash(w.name);
      PutFirst(c, w);
      forall s
        ensures First([w] + old(words)[c], s) == if s == w.name then w else First(old(words)[c], s)
      {
        NewestFirst(w, old(words)[c], s);
      }
    }

    method PutFirst(c: nat, w: Word)
      requires Valid() && w !in all && c == Checksum(w.name)
      modifies this, chain, w
      ensures Valid() && all == old(all) + {w} && |old(words)| == CHAINS
      ensures words == old(words)[c := [w] + old(words)[c]]
    {
      hide Checksum;
      w.next := chain[c];
      chain[c] := w;
      ghost var was := words;
      words, all := words[c := [w] + words[c]], all + {w};
      forall d, i | 0 <= d < CHAINS && 0 <= i < |was[d]|
        ensures was[d][i] != w && was[d][i].next == At(was[d], i + 1)
      {
      }
    }
  }

  lemma NewestFirst(w: Word, ws: seq<Word>, s: string)
    ensures First([w] + ws, s) == if s == w.name then w else First(ws, s)
  {
    assert ([w] + ws)[1..] == ws;
  }
}
