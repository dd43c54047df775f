/** The disk cache of the Winamp plugin (sc68-winamp/cache.c:95-196): reference-counted disks keyed
    by URI. Each call holds the cache's lock, so it is one step. */
module DiskCache {

  const MAX_CACHED_DISK := 8

  /** A disk is a number; 0 is the null pointer. */
  type Disk = nat

  /** A slot of the cache; a null `uri` is the empty string. */
  datatype Entry = Entry(ref: int, uri: string, disk: Disk)

  const EMPTY := Entry(0, "", 0)

  /** What callers ask for; `loads` and `copies` say whether loading the disk and copying its URI
      succeed. */
  datatype Request = GetDisk(uri: string, loads: bool, copies: bool) | ReleaseDisk(disk: Disk, dontKeep: bool)

  /** The cache with what surrounds it: the disks allocated and not freed, the URI each came from,
      the handles that callers hold, and the next disk to be allocated. */
  datatype World = World(e: seq<Entry>, live: set<Disk>, origin: map<Disk, string>, held: multiset<Disk>, next: Disk) {

    ghost predicate Cached(d: Disk) {
      exists i :: 0 <= i < |e| && e[i].disk == d
    }

    /** A cached disk is alive, came from the slot's URI, and its count is the number of handles. */
    ghost predicate Counted() {
      && |e| == MAX_CACHED_DISK
      && (forall i :: 0 <= i < |e| && e[i].disk == 0 ==> e[i] == EMPTY)
      && (forall i :: 0 <= i < |e| && e[i].disk != 0 ==>
            && e[i].disk in live && e[i].disk in origin
            && e[i].uri == origin[e[i].disk] != "" && e[i].ref == held[e[i].disk])
    }

    /** No disk and no URI is cached twice. */
    ghost predicate Unique() {
      forall i, j :: 0 <= i < j < |e| && e[i].disk != 0 && e[j].disk != 0 ==>
        e[i].disk != e[j].disk && e[i].uri != e[j].uri
    }

    /** What is held is alive; and what is alive is cached, or held just once. */
    ghost predicate Owned() {
      && next > 0
      && (forall d :: d in held ==> d in live)
      && (forall d :: d in live ==> 0 < d < next && d in origin && (Cached(d) || held[d] == 1))
    }

    ghost predicate Sound() {
      Counted() && Unique() && Owned()
    }
  }

  // ---- What a call leaves behind.

  /** The slot for a new disk: the first empty one, or else the first one that nobody holds; -1 when
      there is none. */
  ghost predicate Room(e: seq<Entry>, s: int) {
    && -1 <= s < |e|
    && (s < 0 ==> forall t :: 0 <= t < |e| ==> e[t].disk != 0 && e[t].ref != 0)
    && (s >= 0 && e[s].disk == 0 ==> forall t :: 0 <= t < s ==> e[t].disk != 0)
    && (s >= 0 && e[s].disk != 0 ==>
          && e[s].ref == 0 && (forall t :: 0 <= t < |e| ==> e[t].disk != 0)
          && (forall t :: 0 <= t < s ==> e[t].ref != 0))
  }

  ghost predicate Holds(e: seq<Entry>, uri: string, s: int) {
    0 <= s < |e| && e[s].disk != 0 && e[s].uri == uri
  }

  /** What wasc68_cache_get makes of `w`: a disk of that URI in the cache has one handle more; otherwise
      the disk is loaded, and takes the place of what was in the slot that has room for it. */
  ghost predicate Got(w: World, w': World, d: Disk, uri: string, loads: bool, copies: bool) {
    if uri == "" then d == 0 && w' == w
    else if exists s :: Holds(w.e, uri, s) then
      exists s :: Holds(w.e, uri, s) && d == w.e[s].disk
                  && w' == w.(e := w.e[s := Entry(w.e[s].ref + 1, uri, d)], held := w.held + multiset{d})
    else if !loads then d == 0 && w' == w
    else
      && d == w.next && w'.next == w.next + 1
      && w'.origin == w.origin[d := uri] && w'.held == w.held + multiset{d}
      && exists s :: Room(w.e, s) && TookPlace(w, w', d, uri, copies, s)
  }

  ghost predicate TookPlace(w: World, w': World, d: Disk, uri: string, copies: bool, s: int)
    requires Room(w.e, s)
  {
    if s < 0 then w'.e == w.e && w'.live == w.live + {d}
    else w'.e == w.e[s := if copies then Entry(1, uri, d) else EMPTY] && w'.live == w.live + {d} - {w.e[s].disk}
  }

  /** What wasc68_cache_release makes of `w`: one handle less; a disk in the cache leaves it only with
      its last handle and when it is not to be kept, and any other is freed. */
  ghost predicate Gone(w: World, w': World, d: Disk, dontKeep: bool) {
    if d == 0 then w' == w
    else
      && w'.held == w.held - multiset{d} && w'.origin == w.origin && w'.next == w.next
      && if !w.Cached(d) then w'.e == w.e && w'.live == w.live - {d}
         else exists s :: 0 <= s < |w.e| && w.e[s].disk == d
                          && w'.e == w.e[s := Left(w.e[s], dontKeep)]
                          && w'.live == if dontKeep && w.e[s].ref == 1 then w.live - {d} else w.live
  }

  function Left(x: Entry, dontKeep: bool): Entry {
    if dontKeep && x.ref == 1 then EMPTY else x.(ref := x.ref - 1)
  }

  lemma GotNothing(w: World, uri: string, loads: bool, copies: bool)
    ensures uri == "" || (!loads && forall s :: 0 <= s < |w.e| ==> !Holds(w.e, uri, s))
            ==> Got(w, w, 0, uri, loads, copies)
  {
  }

  lemma GotHit(w: World, uri: string, s: nat, loads: bool, copies: bool)
    requires uri != "" && Holds(w.e, uri, s)
    ensures Got(w, AddHandle(w, s), w.e[s].disk, uri, loads, copies)
  {
    hide TookPlace, Room;
  }

  lemma GotMiss(w: World, w': World, d: Disk, uri: string, copies: bool, s: int)
    requires uri != "" && (forall t :: 0 <= t < |w.e| ==> !Holds(w.e, uri, t)) && Room(w.e, s)
    requires d == w.next && w'.next == w.next + 1 && w'.origin == w.origin[d := uri] && w'.held == w.held + multiset{d}
    requires TookPlace(w, w', d, uri, copies, s)
    ensures Got(w, w', d, uri, true, copies)
  {
    hide TookPlace, Room;
  }

  lemma GoneNothing(w: World, dontKeep: bool)
    ensures Gone(w, w, 0, dontKeep)
  {
  }

  lemma GoneOther(w: World, d: Disk, dontKeep: bool)
    requires d != 0 && forall s :: 0 <= s < |w.e| ==> w.e[s].disk != d
    ensures Gone(w, Discard(w, d), d, dontKeep)
  {
  }

  lemma GoneCached(w: World, d: Disk, dontKeep: bool, s: nat)
    requires d != 0 && s < |w.e| && w.e[s].disk == d
    ensures var w' := w.(e := w.e[s := Left(w.e[s], dontKeep)], held := w.held - multiset{d});
            Gone(w, if dontKeep && w.e[s].ref == 1 then w'.(live := w.live - {d}) else w', d, dontKeep)
  {
    assert w.Cached(d);
  }

  /** There is just one such slot. */
  lemma RoomUnique(e: seq<Entry>, s: int, t: int)
    requires Room(e, s) && Room(e, t)
    ensures s == t
  {
  }

  /** A disk got from a cache that has it or has room for it, given back to be kept and asked for again
      is the same disk, and is not loaded again. */
  lemma GetAgain(w: World, w1: World, w2: World, w3: World, d: Disk, d': Disk, uri: string, loads: bool, copies: bool)
    requires w.Sound() && uri != "" && !Room(w.e, -1)
    requires Got(w, w1, d, uri, true, true) && Gone(w1, w2, d, false) && Got(w2, w3, d', uri, loads, copies)
    ensures d' == d != 0 && w3.live == w2.live && w3.next == w2.next
    ensures w3.held[d] == w1.held[d]
  {
    hide Got, Gone, World.Sound, Room, World.Cached, Holds;
    var s := NowHeld(w, w1, d, uri);
    KeptThere(w1, w2, d, uri, s);
    GotThere(w2, w3, d', uri, loads, copies, s);
  }

  /** A disk given back to be kept stays in its slot. */
  lemma KeptThere(w: World, w': World, d: Disk, uri: string, s: int)
    requires Holds(w.e, uri, s) && w.e[s].disk == d && Gone(w, w', d, false) && d in w.held
    requires forall t :: 0 <= t < |w.e| && (w.e[t].disk == d || Holds(w.e, uri, t)) ==> t == s
    ensures Holds(w'.e, uri, s) && w'.e[s].disk == d && w'.held[d] == w.held[d] - 1
    ensures forall t :: 0 <= t < |w'.e| && Holds(w'.e, uri, t) ==> t == s
  {
    assert w.Cached(d);
    assert forall t :: 0 <= t < |w.e| && Holds(w'.e, uri, t) && t != s ==> Holds(w.e, uri, t);
  }

  lemma GotThere(w: World, w': World, d: Disk, uri: string, loads: bool, copies: bool, s: int)
    requires uri != "" && Holds(w.e, uri, s) && Got(w, w', d, uri, loads, copies)
    requires forall t :: 0 <= t < |w.e| && Holds(w.e, uri, t) ==> t == s
    ensures d == w.e[s].disk && w'.live == w.live && w'.next == w.next && w'.held == w.held + multiset{d}
  {
    hide Room, TookPlace;
  }

  /** After a get that finds room, or finds the disk, it is in just one slot. */
  lemma NowHeld(w: World, w': World, d: Disk, uri: string) returns (s: int)
    requires w.Sound() && uri != "" && !Room(w.e, -1) && Got(w, w', d, uri, true, true)
    ensures Holds(w'.e, uri, s) && w'.e[s].disk == d && d in w'.held
    ensures forall t :: 0 <= t < |w'.e| && (w'.e[t].disk == d || Holds(w'.e, uri, t)) ==> t == s
  {
    hide World.Sound, Room, TookPlace;
    if r :| Holds(w.e, uri, r) {
      s :| Holds(w.e, uri, s) && d == w.e[s].disk && w'.e == w.e[s := Entry(w.e[s].ref + 1, uri, d)];
      OnlyThere(w, uri, s, w.e[s].ref + 1);
    } else {
      s :| Room(w.e, s) && TookPlace(w, w', d, uri, true, s);
      RoomThere(w, w', uri, s);
    }
  }

  lemma OnlyThere(w: World, uri: string, s: int, ref: int)
    requires w.Sound() && Holds(w.e, uri, s)
    ensures var e := w.e[s := Entry(ref, uri, w.e[s].disk)];
            && Holds(e, uri, s)
            && forall t :: 0 <= t < |e| && (e[t].disk == w.e[s].disk || Holds(e, uri, t)) ==> t == s
  {
    hide World.Counted, World.Owned;
  }

  lemma RoomThere(w: World, w': World, uri: string, s: int)
    requires w.Sound() && uri != "" && !Room(w.e, -1) && Room(w.e, s) && TookPlace(w, w', w.next, uri, true, s)
    requires forall t :: 0 <= t < |w.e| ==> !Holds(w.e, uri, t)
    ensures Holds(w'.e, uri, s) && w'.e[s].disk == w.next
    ensures forall t :: 0 <= t < |w'.e| && (w'.e[t].disk == w.next || Holds(w'.e, uri, t)) ==> t == s
  {
    hide World.Unique;
    assert s >= 0 && |w'.e| == |w.e|;
    forall t | 0 <= t < |w.e| && t != s
      ensures w'.e[t] == w.e[t] && w.e[t].disk != w.next && !Holds(w'.e, uri, t)
    {
      assert w.e[t].disk == 0 || w.e[t].disk in w.live;
      assert !Holds(w.e, uri, t);
    }
  }

  // ---- The steps that calls are made of; each keeps the world sound.

  ghost predicate Free(w: World, s: nat) {
    s < |w.e| && w.e[s] == EMPTY
  }

  lemma SlotOnly(w: World, s: nat, x: Entry, d: Disk)
    requires s < |w.e| && d != w.e[s].disk
    ensures w.Cached(d) ==> w.(e := w.e[s := x]).Cached(d)
    ensures w.(e := w.e[s := x]).Cached(d) ==> w.Cached(d) || d == x.disk
  {
    if w.Cached(d) {
      var i :| 0 <= i < |w.e| && w.e[i].disk == d;
      assert w.e[s := x][i].disk == d;
    }
  }

  function AddHandle(w: World, i: nat): World
    requires i < |w.e|
  {
    w.(e := w.e[i := w.e[i].(ref := w.e[i].ref + 1)], held := w.held + multiset{w.e[i].disk})
  }

  /** One handle more of a cached disk. */
  lemma AddHandleSound(w: World, i: nat)
    requires w.Sound() && i < |w.e| && w.e[i].disk != 0
    ensures AddHandle(w, i).Sound()
  {
    var w', x := AddHandle(w, i), w.e[i];
    assert w'.e[i].disk == x.disk;
    forall d | d in w'.live ensures w'.Cached(d) || w'.held[d] == 1 {
      if d != x.disk { SlotOnly(w, i, w'.e[i], d); }
    }
  }

  function DropHandle(w: World, i: nat): World
    requires i < |w.e|
  {
    w.(e := w.e[i := w.e[i].(ref := w.e[i].ref - 1)], held := w.held - multiset{w.e[i].disk})
  }

  /** One handle less of a cached disk. */
  lemma DropHandleSound(w: World, i: nat)
    requires w.Sound() && i < |w.e| && w.e[i].disk != 0 && w.e[i].disk in w.held
    ensures DropHandle(w, i).Sound() && DropHandle(w, i).e[i].ref >= 0
  {
    var w', x := DropHandle(w, i), w.e[i];
    assert w'.e[i].disk == x.disk;
    forall d | d in w'.live ensures w'.Cached(d) || w'.held[d] == 1 {
      if d != x.disk { SlotOnly(w, i, w'.e[i], d); }
    }
  }

  function Load(w: World, uri: string): World {
    World(w.e, w.live + {w.next}, w.origin[w.next := uri], w.held + multiset{w.next}, w.next + 1)
  }

  /** A new disk, handed out once. */
  lemma LoadSound(w: World, uri: string)
    requires w.Sound()
    ensures Load(w, uri).Sound() && !Load(w, uri).Cached(w.next) && Load(w, uri).held[w.next] == 1
  {
    var w', d := Load(w, uri), w.next;
    assert d !in w.live && d !in w.held;
    assert !w'.Cached(d);
    forall x | x in w'.live ensures w'.Cached(x) || w'.held[x] == 1 {
      if x != d && w.Cached(x) { assert w'.Cached(x); }
    }
  }

  function Evict(w: World, s: nat): World
    requires s < |w.e|
  {
    w.(e := w.e[s := EMPTY], live := w.live - {w.e[s].disk})
  }

  /** A disk that nobody holds leaves the cache and is freed. */
  lemma EvictSound(w: World, s: nat)
    requires w.Sound() && s < |w.e| && w.e[s].disk != 0 && w.e[s].ref == 0
    ensures Evict(w, s).Sound() && forall d :: d in w.held ==> d in Evict(w, s).live
  {
    var w', x := Evict(w, s), w.e[s].disk;
    assert x !in w.held;
    forall d | d in w'.live ensures w'.Cached(d) || w'.held[d] == 1 {
      SlotOnly(w, s, EMPTY, d);
    }
  }

  function Keep(w: World, s: nat, d: Disk, uri: string): World
    requires s < |w.e|
  {
    w.(e := w.e[s := Entry(1, uri, d)])
  }

  /** A disk just handed out enters an empty slot. */
  lemma KeepSound(w: World, s: nat, d: Disk, uri: string)
    requires w.Sound() && Free(w, s) && d in w.live && w.held[d] == 1 && !w.Cached(d) && w.origin[d] == uri != ""
    requires forall i :: 0 <= i < |w.e| && w.e[i].disk != 0 ==> w.e[i].uri != uri
    ensures Keep(w, s, d, uri).Sound()
  {
    var w' := Keep(w, s, d, uri);
    assert forall i :: 0 <= i < |w.e| ==> w.e[i].disk != d;
    assert w'.e[s].disk == d;
    forall x | x in w'.live ensures w'.Cached(x) || w'.held[x] == 1 {
      if x != d { SlotOnly(w, s, w'.e[s], x); }
    }
  }

  function Discard(w: World, d: Disk): World {
    w.(live := w.live - {d}, held := w.held - multiset{d})
  }

  /** The one handle of a disk outside the cache is given back, and the disk is freed. */
  lemma DiscardSound(w: World, d: Disk)
    requires w.Sound() && d in w.held && !w.Cached(d)
    ensures Discard(w, d).Sound() && d in w.live
  {
    var w' := Discard(w, d);
    assert d in w.live && w.held[d] == 1;
    forall x | x in w'.live ensures w'.Cached(x) || w'.held[x] == 1 {
      if w.Cached(x) {
        assert w'.Cached(x);
      }
    }
    assert forall i :: 0 <= i < |w.e| ==> w.e[i].disk != d;
  }

  /** Only one slot holds a URI. */
  lemma OnlySlot(w: World, i: nat)
    requires w.Unique() && i < |w.e| && w.e[i].disk != 0
    ensures forall s :: 0 <= s < |w.e| && w.e[s].disk != 0 && w.e[s].uri == w.e[i].uri ==> s == i
  {}

  lemma HeldAlive(w: World)
    requires w.Sound()
    ensures forall d :: d in w.held ==> d in w.live
  {}

  lemma HeldKnown(w: World)
    requires w.Sound()
    ensures forall d :: d in w.held ==> d in w.live && d in w.origin
    ensures forall i :: 0 <= i < |w.e| && w.e[i].disk != 0 ==>
              w.e[i].disk in w.origin && w.e[i].uri == w.origin[w.e[i].disk]
  {}

  class Cache {
    var e: seq<Entry>
    ghost var live: set<Disk>
    ghost var origin: map<Disk, string>
    ghost var held: multiset<Disk>
    var next: Disk

    constructor ()
      ensures Now().Sound() && held == multiset{} && live == {}
    {
      e := seq(MAX_CACHED_DISK, _ => EMPTY);
      live, origin, held, next := {}, map[], multiset{}, 1;
    }

    ghost function Now(): World
      reads this
    {
      World(e, live, origin, held, next)
    }

    /** sc68_disk_free: only a live disk may be freed, so none is freed twice. */
    ghost method DiskFree(d: Disk)
      requires d in live
      modifies `live
      ensures live == old(live) - {d}
    {
      live := live - {d};
    }

    /** sc68_load_disk_uri; the caller gets the handle. */
    method LoadDisk(uri: string, ok: bool) returns (d: Disk)
      requires next > 0
      modifies `live, `origin, `next, `held
      ensures if ok then d == old(next) && Now() == Load(old(Now()), uri) else d == 0 && Now() == old(Now())
    {
      if !ok { return 0; }
      d := next;
      next := next + 1;
      live, origin, held := live + {d}, origin[d := uri], held + multiset{d};
    }

    /** The search of wasc68_cache_get: the slot of the URI, or else the first empty slot and the
        first one nobody holds. */
    method Search(uri: string) returns (i: nat, j: int, k: int)
      requires Now().Counted() && uri != ""
      ensures i <= MAX_CACHED_DISK && -1 <= j < i && -1 <= k < i
      ensures i < MAX_CACHED_DISK ==> e[i].disk != 0 && e[i].uri == uri
      ensures forall s :: 0 <= s < i && e[s].disk != 0 ==> e[s].uri != uri
      ensures if j >= 0 then e[j].disk == 0 else forall s :: 0 <= s < i ==> e[s].disk != 0
      ensures if k >= 0 then e[k].disk != 0 && e[k].ref == 0
              else forall s :: 0 <= s < i && e[s].disk != 0 ==> e[s].ref != 0
      ensures (forall s :: 0 <= s < j ==> e[s].disk != 0) && forall s :: 0 <= s < k && e[s].disk != 0 ==> e[s].ref != 0
    {
      i, j, k := 0, -1, -1;
      while i < MAX_CACHED_DISK
        invariant i <= MAX_CACHED_DISK && -1 <= j < i && -1 <= k < i
        invariant forall s :: 0 <= s < i && e[s].disk != 0 ==> e[s].uri != uri
        invariant if j >= 0 then e[j].disk == 0 else forall s :: 0 <= s < i ==> e[s].disk != 0
        invariant forall s :: 0 <= s < j ==> e[s].disk != 0
        invariant forall s :: 0 <= s < k && e[s].disk != 0 ==> e[s].ref != 0
        invariant if k >= 0 then e[k].disk != 0 && e[k].ref == 0
                  else forall s :: 0 <= s < i && e[s].disk != 0 ==> e[s].ref != 0
      {
        if e[i].disk == 0 {
          if j < 0 { j := i; }
        } else if e[i].uri == uri {
          return;
        } else if k < 0 && e[i].ref == 0 {
          k := i;
        }
        i := i + 1;
      }
    }

    /** wasc68_cache_get. The disk handed out came from that URI and is one handle more; a cached
        URI is not loaded again, and nothing that is held goes away. */
    method Get(uri: string, loads: bool, copies: bool) returns (d: Disk)
      requires Now().Sound()
      modifies this
      ensures Now().Sound() && Got(old(Now()), Now(), d, uri, loads, copies)
      ensures held == (if d == 0 then old(held) else old(held) + multiset{d})
      ensures d != 0 ==> d in origin && origin[d] == uri
      ensures forall x :: x in old(held) ==> x in live && x in old(origin) && x in origin && origin[x] == old(origin)[x]
      ensures forall s :: 0 <= s < |old(e)| && old(e)[s].disk != 0 && old(e)[s].uri == uri ==>
                d == old(e)[s].disk && live == old(live)
      ensures d == 0 ==> uri == "" || !loads
    {
      hide World.Unique, World.Owned, World.Cached, Got, TookPlace;
      HeldKnown(Now());
      GotNothing(Now(), uri, loads, copies);
      if uri == "" { return 0; }
      var i, j, k := Search(uri);
      if i < MAX_CACHED_DISK {
        OnlySlot(Now(), i);
        GotHit(Now(), uri, i, loads, copies);
        d := e[i].disk;
        Hit(i);
      } else {
        d := Miss(if j >= 0 then j else k, uri, loads, copies);
      }
    }

    /** A cached disk is handed out once more. */
    method Hit(i: nat)
      requires Now().Sound() && i < |e| && e[i].disk != 0
      modifies `e, `held
      ensures Now().Sound() && Now() == AddHandle(old(Now()), i)
    {
      AddHandleSound(Now(), i);
      hide World.Sound;
      held := held + multiset{e[i].disk};
      e := e[i := e[i].(ref := e[i].ref + 1)];
      assert Now() == AddHandle(old(Now()), i);
    }

    /** The disk is loaded, and kept if slot `s` can be used. */
    method Miss(s: int, uri: string, loads: bool, copies: bool) returns (d: Disk)
      requires Now().Sound() && Room(e, s) && uri != ""
      requires forall i :: 0 <= i < |e| && e[i].disk != 0 ==> e[i].uri != uri
      modifies this
      ensures Now().Sound() && (d == 0 <==> !loads)
      ensures if !loads then Now() == old(Now()) else
                held == old(held) + multiset{d} && origin == old(origin)[d := uri] && d !in old(live)
      ensures Got(old(Now()), Now(), d, uri, loads, copies)
      ensures forall x :: x in held ==> x in live
    {
      LoadSound(Now(), uri);
      assert Now().next !in Now().live && Now().next > 0;
      hide World.Sound, World.Cached, Got, Room;
      GotNothing(Now(), uri, loads, copies);
      d := LoadDisk(uri, loads);
      HeldAlive(Now());
      if d != 0 {
        MakeRoom(s, d, uri, copies);
        GotMiss(old(Now()), Now(), d, uri, copies, s);
      }
    }

    /** The slot found, if any, is emptied and takes the new disk. */
    method MakeRoom(s: int, d: Disk, uri: string, copies: bool)
      requires Now().Sound() && Room(e, s) && d in live && held[d] == 1 && !Now().Cached(d) && origin[d] == uri != ""
      requires forall i :: 0 <= i < |e| && e[i].disk != 0 ==> e[i].uri != uri
      modifies `e, `live
      ensures Now().Sound() && forall x :: x in held ==> x in live
      ensures if s < 0 then Now() == old(Now()) else
                && e == old(e)[s := if copies then Entry(1, uri, d) else EMPTY]
                && live == old(live) - {old(e)[s].disk}
    {
      if s < 0 { return; }
      if e[s].disk != 0 {
        EvictSound(Now(), s);
        DiskFree(e[s].disk);
      }
      ghost var w := Evict(old(Now()), s);
      e := e[s := EMPTY];
      assert Now() == if old(e)[s].disk != 0 then w else old(Now());
      assert !Now().Cached(d);
      if copies {
        KeepSound(Now(), s, d, uri);
        e := e[s := Entry(1, uri, d)];
      }
    }

    /** wasc68_cache_release, of a handle that the caller holds. One handle less; the disk is freed
        when it is not cached, or when this was its last handle and it is not to be kept. */
    method Release(d: Disk, dontKeep: bool)
      requires Now().Sound() && (d == 0 || d in held)
      modifies this
      ensures Now().Sound() && Gone(old(Now()), Now(), d, dontKeep)
      ensures held == (if d == 0 then old(held) else old(held) - multiset{d}) && origin == old(origin)
      ensures live == if d != 0 && (!old(Now()).Cached(d) || (dontKeep && old(held)[d] == 1))
                      then old(live) - {d} else old(live)
    {
      hide World.Unique, World.Owned, Gone;
      GoneNothing(Now(), dontKeep);
      if d == 0 { return; }
      ghost var before := Now();
      var i := 0;
      while i < MAX_CACHED_DISK && e[i].disk != d
        invariant 0 <= i <= MAX_CACHED_DISK && forall s :: 0 <= s < i ==> e[s].disk != d
      {
        i := i + 1;
      }
      if i == MAX_CACHED_DISK {
        GoneOther(before, d, dontKeep);
        DiscardSound(before, d);
        held := held - multiset{d};
        DiskFree(d);
        return;
      }
      GoneCached(before, d, dontKeep, i);
      DropCached(i, dontKeep);
    }

    /** The release of the disk in slot `i`. */
    method DropCached(i: nat, dontKeep: bool)
      requires Now().Sound() && i < |e| && e[i].disk != 0 && e[i].disk in held
      modifies `e, `live, `held
      ensures Now().Sound() && held == old(held) - multiset{old(e)[i].disk}
      ensures e == old(e)[i := Left(old(e)[i], dontKeep)] && old(e)[i].ref == old(held)[old(e)[i].disk]
      ensures live == if dontKeep && old(e)[i].ref == 1 then old(live) - {old(e)[i].disk} else old(live)
      ensures old(Now()).Cached(old(e)[i].disk)
    {
      hide World.Unique, World.Owned;
      ghost var before, d := Now(), e[i].disk;
      assert before.Cached(d);
      assert e[i].ref == held[d] >= 1;
      DropHandleSound(before, i);
      held := held - multiset{d};
      e := e[i := e[i].(ref := e[i].ref - 1)];
      if e[i].ref <= 0 && dontKeep {
        EvictSound(Now(), i);
        DiskFree(e[i].disk);
        e := e[i := EMPTY];
        assert e == before.e[i := EMPTY];
      }
    }

    /** Any run of requests by callers who release only what they hold: the world stays sound and
        its handles are the callers'. */
    method Run(requests: seq<Request>) returns (mine: multiset<Disk>)
      requires Now().Sound() && held == multiset{}
      modifies this
      ensures Now().Sound() && held == mine && forall d :: d in mine ==> d in live
    {
      hide World.Sound;
      mine := multiset{};
      var i := 0;
      while i < |requests|
        invariant 0 <= i <= |requests| && Now().Sound() && held == mine
      {
        match requests[i] {
          case GetDisk(uri, loads, copies) =>
            var d := Get(uri, loads, copies);
            if d != 0 { mine := mine + multiset{d}; }
          case ReleaseDisk(d, dontKeep) =>
            if d in mine {
              Release(d, dontKeep);
              if d != 0 { mine := mine - multiset{d}; }
            }
        }
        i := i + 1;
      }
      HeldAlive(Now());
    }
  }
}
