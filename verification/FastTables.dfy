/** The mnemonic table of as68: a tree of letters built from a list (as68/opcode.c:2367-2408) and
    searched without regard to case (as68/word.c:104-127). */
module FastTables {

  const FAST_LETTERS := 27

  predicate IsAlpha(c: char) {
    'A' <= c <= 'Z' || 'a' <= c <= 'z'
  }

  /** `toupper(c) - 'A'` for a letter. */
  function Letter(c: char): (r: nat)
    ensures IsAlpha(c) ==> r < 26
  {
    if !IsAlpha(c) then 26 else if 'a' <= c then c as int - 'a' as int else c as int - 'A' as int
  }

  predicate Alphabetic(s: string) {
    forall i :: 0 <= i < |s| ==> IsAlpha(s[i])
  }

  /** A name without regard to case. */
  function Letters(s: string): (r: seq<nat>)
    ensures |r| == |s|
  {
    seq(|s|, i requires 0 <= i < |s| => Letter(s[i]))
  }

  /** An entry of the list; `function` is never the null function, 0. */
  datatype Entry = Entry(name: string, function_: nat, value: int) {
    predicate Valid() { name != "" && Alphabetic(name) && function_ != 0 }
  }

  datatype Found = Nothing | Found(function_: nat, value: int)

  /** The last entry of the list with that name, case ignored. */
  function LastOf(list: seq<Entry>, path: seq<nat>): Found {
    if list == [] then Nothing
    else
      var e := list[|list| - 1];
      if Letters(e.name) == path then Found(e.function_, e.value) else LastOf(list[..|list| - 1], path)
  }

  /** What looking `s` up should give. */
  function Expected(list: seq<Entry>, s: string): Found {
    if Alphabetic(s) then LastOf(list, Letters(s)) else Nothing
  }

  class Node {
    var letter: seq<Node?>
    var function_: nat
    var value: int

    constructor ()
      ensures letter == seq(FAST_LETTERS, _ => null) && function_ == 0 && value == 0
    {
      letter, function_, value := seq(FAST_LETTERS, _ => null), 0, 0;
    }

    ghost predicate Holds(f: Found)
      reads this
    {
      match f
      case Nothing => function_ == 0
      case Found(g, v) => function_ == g && value == v
    }
  }

  class FastTable {
    const root: Node
    // The nodes, by the letters that lead to them.
    ghost var at: map<seq<nat>, Node>

    ghost predicate Valid()
      reads this, at.Values
    {
      && [] in at && at[[]] == root
      && (forall p, q :: p in at && q in at && at[p] == at[q] ==> p == q)
      && (forall p, c: nat :: p + [c] in at ==> p in at)
      && (forall p :: p in at ==> |at[p].letter| == FAST_LETTERS)
      && (forall p, c: nat :: p in at && c < FAST_LETTERS ==>
            at[p].letter[c] == if p + [c] in at then at[p + [c]] else null)
    }

    /** Each node holds the last entry of its name, and every entry has a node. */
    ghost predicate Stores(list: seq<Entry>)
      reads this, at.Values
    {
      && (forall p :: p in at && p != [] ==> at[p].Holds(LastOf(list, p)))
      && (forall e <- list :: Letters(e.name) in at)
    }

    constructor ()
      ensures Valid() && Stores([]) && fresh(at.Values)
    {
      root := new Node();
      at := map[[] := root];
    }

    /** The node for one more letter, made if there is none. */
    method Child(ghost path: seq<nat>, popt: Node, c: nat) returns (opt: Node)
      requires Valid() && path in at && at[path] == popt && c < 26
      modifies this, popt
      ensures Valid() && at == old(at)[path + [c] := opt] && at[path] == popt
      ensures path + [c] in old(at) ==> at == old(at)
      ensures path + [c] !in old(at) ==> fresh(opt) && opt.function_ == 0
      ensures popt.function_ == old(popt.function_) && popt.value == old(popt.value)
    {
      if popt.letter[c] == null {
        ghost var before := at;
        opt := new Node();
        popt.letter := popt.letter[c := opt];
        at := at[path + [c] := opt];
        forall p, d: nat | p + [d] in at ensures p in at {
          Apart(p, d, path, c);
        }
        forall p, d: nat | p in at && d < FAST_LETTERS
          ensures at[p].letter[d] == if p + [d] in at then at[p + [d]] else null
        {
          Apart(p, d, path, c);
          if p != path + [c] { assert p in before; } else { assert p !in before && p + [d] !in before; }
        }
      } else {
        opt := popt.letter[c];
      }
    }

    lemma Apart(p: seq<nat>, d: nat, path: seq<nat>, c: nat)
      ensures p + [d] == path + [c] <==> p == path && d == c
    {
      if p + [d] == path + [c] {
        assert |p| == |path|;
        assert p == (p + [d])[..|p|] == (path + [c])[..|path|] == path;
        assert (p + [d])[|p|] == (path + [c])[|path|];
      }
    }

    /** One entry of the list. */
    method Insert(e: Entry, ghost list: seq<Entry>)
      requires Valid() && Stores(list) && e.Valid()
      modifies this, at.Values
      ensures Valid() && Stores(list + [e]) && fresh(at.Values - old(at.Values))
    {
      hide LastOf;
      ghost var path := Letters(e.name);
      var popt := root;
      var i := 0;
      assert path[..0] == [];
      while i < |e.name|
        invariant 0 <= i <= |e.name| && Valid()
        invariant path[..i] in at && at[path[..i]] == popt
        invariant fresh(at.Values - old(at.Values)) && Stores(list)
      {
        assert path[..i] + [path[i]] == path[..i + 1];
        if path[..i + 1] !in at { NotListed(list, path[..i + 1]); }
        popt := Child(path[..i], popt, Letter(e.name[i]));
        i := i + 1;
      }
      assert path[..i] == path;
      Fill(path, popt, e, list);
    }

    /** The entry itself, at the node of its name. */
    method Fill(ghost path: seq<nat>, opt: Node, e: Entry, ghost list: seq<Entry>)
      requires Valid() && Stores(list) && path == Letters(e.name) && path in at && at[path] == opt
      modifies opt
      ensures Valid() && Stores(list + [e])
    {
      hide LastOf;
      opt.function_ := e.function_;
      opt.value := e.value;
      NowLast(list, e);
    }

    lemma NotListed(list: seq<Entry>, p: seq<nat>)
      requires Stores(list) && p !in at
      ensures LastOf(list, p) == Nothing
    {
      Unlisted(list, p);
    }

    /** make_fast_table. */
    method MakeFastTable(list: seq<Entry>)
      requires Valid() && Stores([]) && forall e <- list :: e.Valid()
      modifies this, at.Values
      ensures Valid() && Stores(list)
    {
      var n := 0;
      assert list[..0] == [];
      while n < |list|
        invariant 0 <= n <= |list| && Valid() && Stores(list[..n]) && fresh(at.Values - old(at.Values))
      {
        assert list[n] in list && list[..n] + [list[n]] == list[..n + 1];
        Insert(list[n], list[..n]);
        n := n + 1;
      }
      assert list[..n] == list;
    }

    /** look_in_fast_table. */
    method LookUp(s: string, ghost list: seq<Entry>) returns (found: Node?)
      requires Valid() && Stores(list) && forall e <- list :: e.Valid()
      ensures match Expected(list, s)
              case Nothing => found == null
              case Found(f, v) => found != null && found.function_ == f && found.value == v
    {
      ghost var path := Letters(s);
      var ft: Node := root;
      var i := 0;
      assert path[..0] == [];
      while i < |s| && IsAlpha(s[i])
        invariant 0 <= i <= |s| && path[..i] in at && at[path[..i]] == ft
        invariant forall j :: 0 <= j < i ==> IsAlpha(s[j])
      {
        assert path[..i] + [path[i]] == path[..i + 1];
        if ft.letter[Letter(s[i])] == null {
          Missing(path[..i + 1], path[i + 1..]);
          assert path[..i + 1] + path[i + 1..] == path;
          Unlisted(list, path);
          return null;
        }
        ft := ft.letter[Letter(s[i])];
        i := i + 1;
      }
      if i < |s| || i == 0 {
        if i == 0 { Unlisted(list, []); }
        return null;
      }
      assert path[..i] == path;
      NeverNull(list, path);
      return if ft.function_ != 0 then ft else null;
    }

    lemma {:induction false} Missing(p: seq<nat>, q: seq<nat>)
      requires Valid() && p !in at
      ensures p + q !in at
      decreases |q|
    {
      if q == [] {
        assert p + q == p;
      } else {
        assert p + [q[0]] !in at;
        assert p + q == (p + [q[0]]) + q[1..];
        Missing(p + [q[0]], q[1..]);
      }
    }
  }

  lemma {:induction false} Unlisted(list: seq<Entry>, p: seq<nat>)
    requires forall e <- list :: Letters(e.name) != p
    ensures LastOf(list, p) == Nothing
    decreases |list|
  {
    if list != [] {
      Unlisted(list[..|list| - 1], p);
    }
  }

  lemma {:induction false} NeverNull(list: seq<Entry>, p: seq<nat>)
    requires forall e <- list :: e.Valid()
    ensures LastOf(list, p).Found? ==> LastOf(list, p).function_ != 0
    decreases |list|
  {
    if list != [] {
      assert list[|list| - 1] in list;
      NeverNull(list[..|list| - 1], p);
    }
  }

  lemma NowLast(list: seq<Entry>, e: Entry)
    ensures forall p :: LastOf(list + [e], p)
                        == if Letters(e.name) == p then Found(e.function_, e.value) else LastOf(list, p)
  {
    assert (list + [e])[..|list|] == list;
  }
}
