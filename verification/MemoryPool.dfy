/**
 * The chunk allocator of mempool.c for one array size: get, return, expand and reclaim
 * over real links. Puddle records are numbered like chunks; their list is sorted by the
 * routine of LinkedListSort.
 */
module MemoryPool {
  import opened ChunkLists
  import L = LinkedListSort
  import opened Wrappers

  datatype Puddle = Puddle(base: nat, first: Link, last: Link, nrofFree: nat)

  type Puddles = map<nat, Puddle>

  // ----- What holds between calls -----

  predicate HouseAt(h: Headers, home: seq<nat>, p: nat, c: nat) {
    c < |h| == |home| && Live(h, c) && home[c] == p
  }

  /** Every chunk of puddle p is there and has p as its home. */
  ghost predicate Housed(per: nat, h: Headers, puddle: Puddles, home: seq<nat>, p: nat) {
    p in puddle && forall c | puddle[p].base <= c < puddle[p].base + per :: HouseAt(h, home, p, c)
  }

  /** The home of a chunk is a listed puddle that covers it. */
  ghost predicate AtHome(per: nat, h: Headers, puddle: Puddles, list: seq<nat>, home: seq<nat>, c: nat)
    requires c < |h| == |home|
  {
    Live(h, c) ==>
      home[c] in list && home[c] in puddle && puddle[home[c]].base <= c < puddle[home[c]].base + per
  }

  /** The puddles of the list divide the chunks among them. */
  ghost predicate Divided(per: nat, h: Headers, puddle: Puddles, list: seq<nat>, home: seq<nat>) {
    && |home| == |h|
    && (forall p | p in list :: Housed(per, h, puddle, home, p))
    && (forall c | 0 <= c < |h| :: AtHome(per, h, puddle, list, home, c))
  }

  predicate FreeAt(h: Headers, free: seq<nat>, c: nat) {
    IsFree(h, c) <==> c in free
  }

  /** The free list holds each chunk with a link, once. */
  ghost predicate FreeListOk(h: Headers, first: Link, free: seq<nat>) {
    && Chain(h, first, free, End) && NoRepeats(free)
    && forall c: nat :: FreeAt(h, free, c)
  }

  // ----- Expansion -----

  /** The chunks from b on, in order. */
  function Run(b: nat, n: nat): seq<nat> {
    seq(n, i requires 0 <= i < n => b + i)
  }

  predicate RunAt(h: Headers, b: nat, n: nat, c: nat) {
    c < |h| && h[c] == if c + 1 < b + n then To(c + 1) else End
  }

  lemma RunChained(h: Headers, b: nat, n: nat)
    requires n > 0 && forall c | b <= c < b + n :: RunAt(h, b, n, c)
    ensures Chain(h, To(b), Run(b, n), End) && NoRepeats(Run(b, n))
  {
    var s := Run(b, n);
    forall i | 0 <= i < |s|
      ensures LinkOk(h, s, End, i)
    {
      assert s[i] == b + i && RunAt(h, b, n, b + i);
      if i + 1 < n {
        assert s[i + 1..][0] == b + i + 1;
      }
    }
  }

  /** What expansion leaves: the new chunks are the free ones. */
  lemma ExpandedFree(h: Headers, h': Headers, b: nat, n: nat)
    requires n > 0 && b == |h| && |h'| == b + n && h'[..b] == h
    requires forall c: nat :: FreeAt(h, [], c)
    requires forall c | b <= c < b + n :: RunAt(h', b, n, c)
    ensures FreeListOk(h', To(b), Run(b, n))
  {
    RunChained(h', b, n);
    var s := Run(b, n);
    forall c: nat
      ensures FreeAt(h', s, c)
    {
      assert FreeAt(h, [], c);
      if b <= c < b + n {
        assert RunAt(h', b, n, c) && s[c - b] == c;
      } else if c < b {
        assert h'[c] == h'[..b][c];
      }
    }
  }

  lemma ExpandedDivided(per: nat, h: Headers, h': Headers, puddle: Puddles, list: seq<nat>, home: seq<nat>,
                        p: nat, q: Puddle, home': seq<nat>)
    requires Divided(per, h, puddle, list, home) && p !in list && q.base == |h|
    requires |h'| == |h| + per && h'[..|h|] == h && home' == home + seq(per, _ => p)
    requires forall c | |h| <= c < |h'| :: Live(h', c)
    ensures Divided(per, h', puddle[p := q], [p] + list, home')
  {
    var list', puddle' := [p] + list, puddle[p := q];
    forall r | r in list'
      ensures Housed(per, h', puddle', home', r)
    {
      if r != p {
        assert r in list && Housed(per, h, puddle, home, r);
        forall c | puddle[r].base <= c < puddle[r].base + per
          ensures HouseAt(h', home', r, c)
        {
          assert HouseAt(h, home, r, c);
          assert h'[c] == h'[..|h|][c];
        }
      } else {
        forall c | |h| <= c < |h| + per
          ensures HouseAt(h', home', p, c)
        {
          assert Live(h', c);
        }
      }
    }
    forall c | 0 <= c < |h'|
      ensures AtHome(per, h', puddle', list', home', c)
    {
      if c < |h| {
        assert AtHome(per, h, puddle, list, home, c);
        assert h'[c] == h'[..|h|][c];
      }
    }
  }

  /** A new record in front of a list. */
  lemma Listed(next: seq<L.Pointer>, first: L.Pointer, list: seq<nat>)
    requires L.IsList(next, first, L.Null, list)
    ensures |next| !in list && L.IsList(next + [first], L.Rec(|next|), L.Null, [|next|] + list)
  {
    var next', list' := next + [first], [|next|] + list;
    forall i | 0 <= i < |list'| - 1
      ensures L.LinkAt(next', list', i)
    {
      assert i > 0 ==> L.LinkAt(next, list, i - 1);
    }
  }

  lemma OneMore(per: nat, n: nat)
    ensures per * (n + 1) == per * n + per
  {
  }

  /** No chunk of a new puddle is in use. */
  lemma ExpandedUsed(h: Headers, h': Headers, first: Link, free: seq<nat>)
    requires |h| <= |h'| && h'[..|h|] == h && FreeListOk(h', first, free) && free == Run(|h|, |h'| - |h|)
    ensures forall d: nat :: IsUsed(h', d) <==> IsUsed(h, d)
  {
    forall d: nat
      ensures IsUsed(h', d) <==> IsUsed(h, d)
    {
      if d < |h| {
        assert h'[d] == h'[..|h|][d];
      } else if d < |h'| {
        assert FreeAt(h', free, d) && free[d - |h|] == d;
      }
    }
  }

  // ----- Reclaiming -----

  function BaseOf(puddle: Puddles, p: nat): nat {
    if p in puddle then puddle[p].base else 0
  }

  /** The free chunks of puddle p. */
  function Loc(h: Headers, per: nat, puddle: Puddles, p: nat): seq<nat> {
    FreeBelow(h, BaseOf(puddle, p), per)
  }

  /** The free chunks of the puddles, one puddle after the other. */
  function FreeOf(h: Headers, per: nat, puddle: Puddles, list: seq<nat>): seq<nat> {
    if list == [] then [] else Loc(h, per, puddle, list[0]) + FreeOf(h, per, puddle, list[1..])
  }

  lemma {:induction false} FreeOfSnoc(h: Headers, per: nat, puddle: Puddles, list: seq<nat>, p: nat)
    ensures FreeOf(h, per, puddle, list + [p]) == FreeOf(h, per, puddle, list) + Loc(h, per, puddle, p)
  {
    if list == [] {
      assert [p][1..] == [];
    } else {
      assert (list + [p])[1..] == list[1..] + [p];
      FreeOfSnoc(h, per, puddle, list[1..], p);
    }
  }

  /** The chunks of Loc(p) are at home in p, free, and all of them are there. */
  lemma InLoc(h: Headers, per: nat, puddle: Puddles, list: seq<nat>, home: seq<nat>, p: nat, c: nat)
    requires Divided(per, h, puddle, list, home) && p in list
    ensures c in Loc(h, per, puddle, p) <==> IsFree(h, c) && c < |home| && home[c] == p
  {
    assert Housed(per, h, puddle, home, p);
    InFreeBelow(h, puddle[p].base, per, c);
    if c in Loc(h, per, puddle, p) {
      assert HouseAt(h, home, p, c);
    }
    if c < |h| {
      assert AtHome(per, h, puddle, list, home, c);
    }
  }

  lemma {:induction false} InFreeOf(h: Headers, per: nat, puddle: Puddles, list: seq<nat>, home: seq<nat>,
                                    some: seq<nat>, c: nat)
    requires Divided(per, h, puddle, list, home) && forall p | p in some :: p in list
    ensures c in FreeOf(h, per, puddle, some) <==> IsFree(h, c) && c < |home| && home[c] in some
  {
    if some != [] {
      assert some[0] in list;
      assert forall p | p in some[1..] :: p in some;
      InLoc(h, per, puddle, list, home, some[0], c);
      InFreeOf(h, per, puddle, list, home, some[1..], c);
    }
  }

  /** The first chunks of a puddle are at home in it, too. */
  lemma LocHome(h: Headers, per: nat, counted: nat, puddle: Puddles, list: seq<nat>, home: seq<nat>, p: nat, c: nat)
    requires Divided(per, h, puddle, list, home) && p in list && counted <= per
    requires c in Loc(h, counted, puddle, p)
    ensures IsFree(h, c) && c < |home| && home[c] == p
  {
    assert Housed(per, h, puddle, home, p);
    InFreeBelow(h, puddle[p].base, counted, c);
    assert HouseAt(h, home, p, c);
  }

  lemma {:induction false} FreeOfIff(h: Headers, counted: nat, puddle: Puddles, some: seq<nat>, c: nat)
    ensures c in FreeOf(h, counted, puddle, some) <==> exists p :: p in some && c in Loc(h, counted, puddle, p)
  {
    if some != [] {
      FreeOfIff(h, counted, puddle, some[1..], c);
      assert forall p | p in some[1..] :: p in some;
      assert forall p | p in some :: p == some[0] || p in some[1..];
    }
  }

  lemma FreeOfHome(h: Headers, per: nat, counted: nat, puddle: Puddles, list: seq<nat>, home: seq<nat>,
                   some: seq<nat>, c: nat)
    requires Divided(per, h, puddle, list, home) && counted <= per && forall p | p in some :: p in list
    requires c in FreeOf(h, counted, puddle, some)
    ensures IsFree(h, c) && c < |home| && home[c] in some
  {
    FreeOfIff(h, counted, puddle, some, c);
    var p :| p in some && c in Loc(h, counted, puddle, p);
    LocHome(h, per, counted, puddle, list, home, p, c);
  }

  lemma {:induction false} FreeOfOnce(h: Headers, per: nat, counted: nat, puddle: Puddles, list: seq<nat>,
                                      home: seq<nat>, some: seq<nat>)
    requires Divided(per, h, puddle, list, home) && counted <= per
    requires NoRepeats(some) && forall p | p in some :: p in list
    ensures NoRepeats(FreeOf(h, counted, puddle, some))
  {
    if some != [] {
      var a, b := Loc(h, counted, puddle, some[0]), FreeOf(h, counted, puddle, some[1..]);
      assert forall p | p in some[1..] :: p in some;
      FreeOfOnce(h, per, counted, puddle, list, home, some[1..]);
      FreeBelowOnce(h, BaseOf(puddle, some[0]), counted);
      forall i, j | 0 <= i < |a| && 0 <= j < |b|
        ensures a[i] != b[j]
      {
        assert some[0] in list && a[i] in a && b[j] in b;
        LocHome(h, per, counted, puddle, list, home, some[0], a[i]);
        FreeOfHome(h, per, counted, puddle, list, home, some[1..], b[j]);
      }
    }
  }

  /** Two lists of the same chunks, without repetition, are equally long. */
  lemma SameCount(s: seq<nat>, t: seq<nat>)
    requires NoRepeats(s) && NoRepeats(t) && forall c :: c in s <==> c in t
    ensures |s| == |t|
  {
    assert Elements(s) == Elements(t);
    ElementsCount(s);
    ElementsCount(t);
  }

  /**
   * The pool as it was when reclaiming began: puddles hold `per` chunks each, and
   * reclaiming looks at the first `counted` of them.
   */
  datatype Was = Was(h: Headers, per: nat, counted: nat, puddle: Puddles, list: seq<nat>, home: seq<nat>)

  ghost predicate WasDivided(w: Was) {
    && Divided(w.per, w.h, w.puddle, w.list, w.home)
    && NoRepeats(w.list) && w.per > 0 && w.counted <= w.per
  }

  function LocOf(w: Was, p: nat): seq<nat> {
    Loc(w.h, w.counted, w.puddle, p)
  }

  predicate Empty(w: Was, p: nat) {
    |LocOf(w, p)| == w.counted
  }

  /** What has become of chunk c when the first i puddles have been swept. */
  predicate HeaderAt(w: Was, n: Headers, i: nat, c: nat)
    requires c < |w.h| == |w.home| == |n| && i <= |w.list|
  {
    if w.h[c].Gone? then n[c].Gone?
    else if w.home[c] !in w.list[..i] then n[c] == w.h[c]
    else if Empty(w, w.home[c]) then n[c].Gone?
    else if w.h[c].Nil? then n[c].Nil?
    else !n[c].Gone?
  }

  ghost predicate Headered(w: Was, n: Headers, i: nat) {
    && |w.h| == |w.home| == |n| && i <= |w.list|
    && forall c | 0 <= c < |n| :: HeaderAt(w, n, i, c)
  }

  /** Puddle p holds the chain of its own free chunks. */
  ghost predicate PuddleOk(w: Was, n: Headers, puddle: Puddles, p: nat) {
    && p in puddle && puddle[p].base == BaseOf(w.puddle, p)
    && puddle[p].nrofFree == |LocOf(w, p)|
    && Chain(n, puddle[p].first, LocOf(w, p), Nil)
    && (LocOf(w, p) != [] ==> puddle[p].last == To(LocOf(w, p)[|LocOf(w, p)| - 1]))
  }

  predicate SameOutside(n: Headers, n': Headers, s: seq<nat>) {
    |n'| == |n| && forall c | 0 <= c < |n| && c !in s :: SameAt(n, n', c)
  }

  lemma PrefixMember(list: seq<nat>, i: nat, q: nat)
    requires i < |list| && NoRepeats(list)
    ensures list[i] !in list[..i]
    ensures q in list[..i + 1] <==> q in list[..i] || q == list[i]
  {
    assert list[..i + 1] == list[..i] + [list[i]];
    assert forall k | 0 <= k < i :: list[..i][k] == list[k] && list[k] != list[i];
  }

  /** A puddle that was scanned and kept. */
  lemma KeptHeaders(w: Was, n: Headers, n': Headers, puddle': Puddles, i: nat)
    requires WasDivided(w) && Headered(w, n, i) && i < |w.list|
    requires !Empty(w, w.list[i]) && PuddleOk(w, n', puddle', w.list[i])
    requires SameOutside(n, n', LocOf(w, w.list[i]))
    ensures Headered(w, n', i + 1)
  {
    var p, i': nat := w.list[i], i + 1;
    forall c | 0 <= c < |n'|
      ensures HeaderAt(w, n', i', c)
    {
      assert HeaderAt(w, n, i, c);
      PrefixMember(w.list, i, w.home[c]);
      if c in LocOf(w, p) {
        LocHome(w.h, w.per, w.counted, w.puddle, w.list, w.home, p, c);
        ChainedIsThere(n', puddle'[p].first, LocOf(w, p), c);
      } else {
        assert SameAt(n, n', c);
      }
    }
  }

  lemma ChainedIsThere(h: Headers, first: Link, s: seq<nat>, c: nat)
    requires Chain(h, first, s, Nil) && c in s
    ensures Live(h, c)
  {
    var i: nat :| i < |s| && s[i] == c;
    assert LinkOk(h, s, Nil, i);
  }

  /** A puddle that was scanned and given back. */
  lemma FreedHeaders(w: Was, n: Headers, n': Headers, i: nat)
    requires WasDivided(w) && Headered(w, n, i) && i < |w.list| && Empty(w, w.list[i])
    requires |n'| == |n| && forall c | 0 <= c < |n| :: HouseFreed(w, n, n', w.list[i], c)
    ensures Headered(w, n', i + 1)
  {
    var p, i': nat := w.list[i], i + 1;
    forall c | 0 <= c < |n'|
      ensures HeaderAt(w, n', i', c)
    {
      assert HeaderAt(w, n, i, c) && HouseFreed(w, n, n', p, c);
      PrefixMember(w.list, i, w.home[c]);
      assert p in w.list && Housed(w.per, w.h, w.puddle, w.home, p);
      assert AtHome(w.per, w.h, w.puddle, w.list, w.home, c);
      if Covers(w, p, c) {
        assert HouseAt(w.h, w.home, p, c);
      }
    }
  }

  predicate Covers(w: Was, p: nat, c: nat) {
    BaseOf(w.puddle, p) <= c < BaseOf(w.puddle, p) + w.per
  }

  predicate HouseFreed(w: Was, n: Headers, n': Headers, p: nat, c: nat)
    requires c < |n| == |n'|
  {
    if Covers(w, p, c) then n'[c].Gone? else n'[c] == n[c]
  }

  /** Nothing happens outside puddle p. */
  predicate Untouched(w: Was, n: Headers, n': Headers, p: nat) {
    |n'| == |n| && forall c | 0 <= c < |n| && !Covers(w, p, c) :: SameAt(n, n', c)
  }

  /** The chains of other puddles are left alone. */
  lemma OtherPuddle(w: Was, n: Headers, n': Headers, puddle: Puddles, puddle': Puddles, p: nat, q: nat)
    requires WasDivided(w) && p in w.list && q in w.list && q != p && PuddleOk(w, n, puddle, q)
    requires |n| == |w.h| && Untouched(w, n, n', p)
    requires q in puddle' && puddle'[q] == puddle[q]
    ensures PuddleOk(w, n', puddle', q)
  {
    var s := LocOf(w, q);
    forall c | c in s
      ensures SameAt(n, n', c)
    {
      assert Housed(w.per, w.h, w.puddle, w.home, p);
      assert Covers(w, p, c) ==> HouseAt(w.h, w.home, p, c);
      LocHome(w.h, w.per, w.counted, w.puddle, w.list, w.home, q, c);
    }
    ChainElsewhere(n, n', puddle[q].first, s, Nil);
  }

  lemma ScanInside(w: Was, n: Headers, n': Headers, p: nat)
    requires SameOutside(n, n', LocOf(w, p)) && w.counted <= w.per
    ensures Untouched(w, n, n', p)
  {
    forall c | 0 <= c < |n| && !Covers(w, p, c)
      ensures SameAt(n, n', c)
    {
      InFreeBelow(w.h, BaseOf(w.puddle, p), w.counted, c);
    }
  }

  lemma ScanReady(w: Was, n: Headers, i: nat)
    requires WasDivided(w) && Headered(w, n, i) && i < |w.list|
    ensures BaseOf(w.puddle, w.list[i]) + w.per <= |n|
    ensures forall c | 0 <= c < |n| && Covers(w, w.list[i], c) :: SameAt(w.h, n, c) && Live(n, c)
  {
    var p := w.list[i];
    assert p in w.list && Housed(w.per, w.h, w.puddle, w.home, p);
    assert HouseAt(w.h, w.home, p, w.puddle[p].base + w.per - 1);
    forall c | 0 <= c < |n| && Covers(w, p, c)
      ensures SameAt(w.h, n, c) && Live(n, c)
    {
      assert HouseAt(w.h, w.home, p, c) && HeaderAt(w, n, i, c);
      PrefixMember(w.list, i, p);
    }
  }

  predicate FreedBlock(n: Headers, n': Headers, b: nat, per: nat) {
    b + per <= |n| && n' == n[..b] + seq(per, _ => Gone) + n[b + per..]
  }

  /** Scanned, then given back. */
  lemma SweptOut(w: Was, n: Headers, n1: Headers, n': Headers, i: nat)
    requires WasDivided(w) && Headered(w, n, i) && i < |w.list| && Empty(w, w.list[i])
    requires Untouched(w, n, n1, w.list[i]) && FreedBlock(n1, n', BaseOf(w.puddle, w.list[i]), w.per)
    ensures Headered(w, n', i + 1) && Untouched(w, n, n', w.list[i])
  {
    var p := w.list[i];
    forall c | 0 <= c < |n|
      ensures HouseFreed(w, n, n', p, c)
    {
      if !Covers(w, p, c) {
        assert SameAt(n, n1, c);
      }
    }
    FreedHeaders(w, n, n', i);
    forall c | 0 <= c < |n| && !Covers(w, p, c)
      ensures SameAt(n, n', c)
    {
      assert HouseFreed(w, n, n', p, c);
    }
  }

  class Pool {
    const expandSize: nat
    const exponent: nat
    /** How many chunks expansion makes of a puddle. */
    const per: nat
    const allowFreeing: bool
    var next: Headers
    var freelist: Link
    var nrofFree: int
    var nrofAllocated: int
    var puddlenext: seq<L.Pointer>
    var puddle: Puddles
    var puddlelist: L.Pointer
    ghost var list: seq<nat>
    ghost var free: seq<nat>
    ghost var home: seq<nat>

    /** Headers, puddles and lists agree; nothing is said of the counters. */
    ghost predicate Structured()
      reads this
    {
      && per == ExpandCount(expandSize, exponent)
      && FreeListOk(next, freelist, free)
      && Divided(per, next, puddle, list, home)
      && L.IsList(puddlenext, puddlelist, L.Null, list)
    }

    ghost predicate Valid()
      reads this
    {
      Structured() && nrofFree == |free| && nrofAllocated == per * |list|
    }

    constructor (expandSize: nat, exponent: nat, allowFreeing: bool)
      ensures Valid() && next == [] && list == [] && free == []
      ensures this.expandSize == expandSize && this.exponent == exponent && this.allowFreeing == allowFreeing
    {
      this.expandSize, this.exponent, this.allowFreeing := expandSize, exponent, allowFreeing;
      this.per := ExpandCount(expandSize, exponent);
      next, freelist, nrofFree, nrofAllocated := [], End, 0, 0;
      puddlenext, puddle, puddlelist := [], map[], L.Null;
      list, free, home := [], [], [];
    }

    /** mempool_expand: calloc gives a new run of chunks, which are linked in order. */
    method Expand()
      requires Structured() && free == [] && nrofFree == 0
      modifies this
      ensures Structured() && free == Run(|old(next)|, per)
      ensures nrofFree == |free| && nrofAllocated - per * |list| == old(nrofAllocated - per * |list|)
      ensures |next| == |old(next)| + per && next[..|old(next)|] == old(next) && list == [|old(puddlenext)|] + old(list)
    {
      ghost var h := next;
      var at := |next|;
      nrofAllocated := nrofAllocated + per;
      nrofFree := per;
      SetUp();
      freelist := To(at);
      free := Run(at, per);
      ExpandedFree(h, next, at, per);
      OneMore(per, |list|);
      AddPuddle(at, h);
    }

    /** Tracks the new puddle in front of the others. */
    method AddPuddle(at: nat, ghost h: Headers)
      requires at == |h| && |next| == at + per && next[..at] == h
      requires Divided(per, h, puddle, list, home) && L.IsList(puddlenext, puddlelist, L.Null, list)
      requires forall c | at <= c < |next| :: RunAt(next, at, per, c)
      modifies this`puddlenext, this`puddle, this`puddlelist, this`list, this`home
      ensures Divided(per, next, puddle, list, home) && L.IsList(puddlenext, puddlelist, L.Null, list)
      ensures list == [|old(puddlenext)|] + old(list)
    {
      var id, record := |puddlenext|, Puddle(at, Nil, Nil, 0);
      ghost var home' := home + seq(per, _ => id);
      Listed(puddlenext, puddlelist, list);
      forall c | at <= c < |next|
        ensures Live(next, c)
      {
        assert RunAt(next, at, per, c);
      }
      ExpandedDivided(per, h, next, puddle, list, home, id, record, home');
      puddlenext := puddlenext + [puddlelist];
      puddle := puddle[id := record];
      puddlelist := L.Rec(id);
      list, home := [id] + list, home';
    }

    /** The loop that links the chunks of a new puddle. */
    method SetUp()
      modifies this`next
      ensures |next| == |old(next)| + per && next[..|old(next)|] == old(next)
      ensures forall c | |old(next)| <= c < |next| :: RunAt(next, |old(next)|, per, c)
    {
      var at := |next|;
      next := next + seq(per, _ => Nil);
      var i := 0;
      while i < per
        invariant 0 <= i <= per && |next| == at + per && next[..at] == old(next)
        invariant forall c | at <= c < at + i :: RunAt(next, at, per, c)
      {
        var chunk := at + i;
        ghost var before := next;
        if i < per - 1 {
          next := next[chunk := To(chunk + 1)];
        } else {
          next := next[chunk := End];
        }
        assert forall c | at <= c < at + i :: RunAt(before, at, per, c) ==> RunAt(next, at, per, c);
        assert RunAt(next, at, per, chunk);
        i := i + 1;
      }
    }

    /**
     * mempool_get_chunk. It goes by the counter: if that counts free chunks where there are
     * none, what it takes off the free list is the end marker.
     */
    method Get() returns (c: Link)
      requires Structured() && (free == [] || nrofFree == |free|)
      modifies this
      ensures c == End <==> old(free) == [] && old(nrofFree) != 0
      ensures old(Valid()) ==> c != End && Valid()
      ensures c != End ==>
                && c.To? && Structured() && IsUsed(next, c.id) && !IsUsed(old(next), c.id)
                && nrofFree == |free| && nrofAllocated - per * |list| == old(nrofAllocated - per * |list|)
      ensures c != End ==> forall d: nat | d != c.id :: IsUsed(next, d) <==> IsUsed(old(next), d)
      ensures old(free) != [] ==> c == To(old(free)[0]) && free == old(free)[1..] && list == old(list)
      ensures c != End && old(free) == [] ==> c == To(|old(next)|) && free == Run(c.id, per)[1..]
    {
      ghost var h0 := next;
      if nrofFree == 0 {
        Expand();
        ExpandedUsed(h0, next, freelist, free);
      }
      if freelist == End {
        freelist := Nil;
        nrofFree := nrofFree - 1;
        return End;
      }
      var chunk := TakeFirst();
      return To(chunk);
    }

    /** Takes the first chunk off the free list. */
    method TakeFirst() returns (c: nat)
      requires Structured() && free != []
      modifies this`next, this`freelist, this`nrofFree, this`free
      ensures Structured() && c == old(free)[0] && free == old(free)[1..] && nrofFree == old(nrofFree) - 1
      ensures IsUsed(next, c) && IsFree(old(next), c)
      ensures forall d: nat | d != c :: IsUsed(next, d) <==> IsUsed(old(next), d)
    {
      ghost var h, s := next, free;
      ChainRest(h, freelist, s, End);
      c := freelist.id;
      assert FreeAt(h, s, c);
      freelist := next[c];
      nrofFree := nrofFree - 1;
      next := next[c := Nil];
      free := free[1..];
      TakenFree(h, s, next);
      RelinkedDivided(per, h, next, puddle, list, home);
    }

    /** mempool_return_chunk: a chunk that is free already makes it abort. */
    method Return(c: nat) returns (aborted: bool)
      requires Valid() && Live(next, c)
      modifies this
      ensures aborted <==> !IsUsed(old(next), c)
      ensures aborted ==> unchanged(this)
      ensures !aborted ==> Valid() && free == [c] + old(free) && list == old(list)
      ensures !aborted ==> !IsUsed(next, c) && forall d: nat | d != c :: IsUsed(next, d) <==> IsUsed(old(next), d)
    {
      if next[c] != Nil {
        return true;
      }
      ghost var h := next;
      assert FreeAt(h, free, c);
      ChainCons(h, freelist, free, End, c);
      next := next[c := freelist];
      freelist := To(c);
      nrofFree := nrofFree + 1;
      GivenBack(h, free, next, c);
      free := [c] + free;
      RelinkedDivided(per, h, next, puddle, list, home);
      return false;
    }

    /** Counts the free chunks of a puddle and chains them. */
    method Scan(p: nat, counted: nat, ghost w: Was)
      requires per == w.per && counted == w.counted <= per && |next| == |w.h|
      requires p in puddle && puddle[p].base == BaseOf(w.puddle, p)
      requires puddle[p].base + per <= |next|
      requires forall c | 0 <= c < |next| && Covers(w, p, c) :: SameAt(w.h, next, c) && Live(next, c)
      modifies this`next, this`puddle
      ensures SameOutside(old(next), next, LocOf(w, p)) && PuddleOk(w, next, puddle, p)
      ensures puddle == old(puddle)[p := puddle[p]]
    {
      var base := puddle[p].base;
      var first, last, count := Nil, Nil, 0;
      ghost var h := next;
      var j := 0;
      while j < counted
        invariant 0 <= j <= counted && first == HeadLink(FreeBelow(w.h, base, j), Nil)
        invariant count == |FreeBelow(w.h, base, j)| && Chain(next, first, FreeBelow(w.h, base, j), Nil)
        invariant count > 0 ==> last == To(FreeBelow(w.h, base, j)[count - 1])
        invariant SameOutside(h, next, FreeBelow(w.h, base, j)) && puddle == old(puddle)
      {
        ghost var s := FreeBelow(w.h, base, j);
        var chunk := base + j;
        InFreeBelow(w.h, base, j, chunk);
        assert Covers(w, p, chunk) && SameAt(h, next, chunk) && SameAt(w.h, h, chunk);
        j := j + 1;
        if next[chunk] != Nil {
          ChainCons(next, first, s, Nil, chunk);
          ghost var before := next;
          if count == 0 {
            first, last := To(chunk), To(chunk);
            next := next[chunk := Nil];
          } else {
            next := next[chunk := first];
            first := To(chunk);
          }
          count := count + 1;
          SameOutsideMore(h, before, next, s, chunk);
        }
      }
      puddle := puddle[p := Puddle(base, first, last, count)];
    }

    /** The first i puddles of the list are swept, and those worth keeping are listed anew. */
    ghost predicate Sweeping(w: Was, i: nat, kept: seq<nat>)
      reads this
    {
      && per == w.per && WasDivided(w) && Headered(w, next, i)
      && (forall q | q in w.list :: BaseKept(w, puddle, q))
      && (forall q | q in kept :: PuddleOk(w, next, puddle, q))
      && L.IsList(puddlenext, puddlelist, L.Null, kept)
      && (forall q: nat :: KeptAt(w, i, kept, q))
    }

    /** free on the chunks of a puddle. */
    method FreeChunks(base: nat)
      requires base + per <= |next|
      modifies this`next
      ensures FreedBlock(old(next), next, base, per)
    {
      next := next[..base] + seq(per, _ => Gone) + next[base + per..];
    }

    /** One turn of the sweep: puddle p is scanned, then given back or put back into the list. */
    method SweepOne(p: nat, counted: nat, ghost w: Was, ghost i: nat, ghost kept: seq<nat>)
        returns (gone: bool, ghost kept': seq<nat>)
      requires i < |w.list| && p == w.list[i] && p < |puddlenext| && Sweeping(w, i, kept) && counted == w.counted
      modifies this`next, this`puddle, this`puddlenext, this`puddlelist, this`nrofFree, this`nrofAllocated
      ensures gone <==> Empty(w, p)
      ensures Sweeping(w, i + 1, kept') && kept' == if gone then kept else [p] + kept
      ensures nrofFree == old(nrofFree) - (if gone then counted else 0)
      ensures nrofAllocated == old(nrofAllocated) - (if gone then counted else 0)
      ensures |puddlenext| == |old(puddlenext)|
      ensures forall q | 0 <= q < |puddlenext| && q != p :: puddlenext[q] == old(puddlenext)[q]
    {
      ghost var n := next;
      ScanReady(w, n, i);
      assert BaseKept(w, puddle, p);
      Scan(p, counted, w);
      ScanInside(w, n, next, p);
      ghost var n1, i' := next, i + 1;
      gone := puddle[p].nrofFree == counted;
      if gone {
        FreeChunks(puddle[p].base);
        nrofFree := nrofFree - counted;
        nrofAllocated := nrofAllocated - counted;
        kept' := kept;
        SweptOut(w, n, n1, next, i);
      } else {
        assert KeptAt(w, i, kept, p);
        PrefixMember(w.list, i, p);
        Pushed(puddlenext, puddlelist, kept, p);
        puddlenext := puddlenext[p := puddlelist];
        puddlelist := L.Rec(p);
        kept' := [p] + kept;
        KeptHeaders(w, n, next, puddle, i);
      }
      forall q: nat
        ensures KeptAt(w, i', kept', q)
      {
        assert KeptAt(w, i, kept, q);
        PrefixMember(w.list, i, q);
      }
      forall q | q in kept
        ensures PuddleOk(w, next, puddle, q)
      {
        assert KeptAt(w, i, kept, q);
        PrefixMember(w.list, i, q);
        assert PuddleOk(w, n, old(puddle), q);
        OtherPuddle(w, n, next, old(puddle), puddle, p, q);
      }
      forall q | q in w.list
        ensures BaseKept(w, puddle, q)
      {
        assert BaseKept(w, old(puddle), q);
      }
    }

    /** The loop head of the sweep: i puddles are done and p is the next one. */
    ghost predicate AtTurn(w: Was, t: Turn, p: L.Pointer, i: nat, kept: seq<nat>, freed: nat)
      reads this
    {
      && i <= |w.list| && p == PointerAt(w.list, i) && Sweeping(w, i, kept)
      && L.IsList(t.links, t.first, L.Null, w.list) && StillToSweep(t.links, puddlenext, w.list, i)
      && Accounted(w, i, kept, freed, t.nrofFree - nrofFree)
      && t.nrofFree - nrofFree == t.nrofAllocated - nrofAllocated
    }

    /** One turn of the sweep, with the links and the counters. */
    method SweepTurn(p: L.Pointer, freed: nat, counted: nat, ghost w: Was, ghost t: Turn, ghost i: nat,
                     ghost kept: seq<nat>)
      returns (following: L.Pointer, freed': nat, ghost kept': seq<nat>)
      requires AtTurn(w, t, p, i, kept, freed) && p != L.Null && counted == w.counted
      modifies this`next, this`puddle, this`puddlenext, this`puddlelist, this`nrofFree, this`nrofAllocated
      ensures i < |w.list| && AtTurn(w, t, following, i + 1, kept', freed')
    {
      NextPointer(t.links, t.first, w.list, i);
      assert LinkKept(t.links, puddlenext, w.list, i);
      following := puddlenext[p.id];
      ghost var before := puddlenext;
      AccountStep(w, i, kept, freed, t.nrofFree - nrofFree);
      var gone;
      gone, kept' := SweepOne(p.id, counted, w, i, kept);
      freed' := if gone then freed + 1 else freed;
      StillLinked(t.links, before, puddlenext, w.list, i);
    }

    /** The sweep over the whole list; the chunks that stay free are those of the puddles kept. */
    method Sweep(counted: nat, ghost w: Was) returns (freed: nat, ghost kept: seq<nat>)
      requires per == w.per && counted == w.counted && WasDivided(w) && next == w.h && puddle == w.puddle
      requires L.IsList(puddlenext, puddlelist, L.Null, w.list)
      modifies this`next, this`puddle, this`puddlenext, this`puddlelist, this`nrofFree, this`nrofAllocated
      ensures Sweeping(w, |w.list|, kept)
      ensures Accounted(w, |w.list|, kept, freed, old(nrofFree) - nrofFree)
      ensures old(nrofFree) - nrofFree == old(nrofAllocated) - nrofAllocated
    {
      ghost var t := Turn(puddlenext, puddlelist, nrofFree, nrofAllocated);
      var p := puddlelist;
      puddlelist := L.Null;
      freed, kept := 0, [];
      ghost var i := 0;
      SweepStarts(w);
      assert AtTurn(w, t, p, i, kept, freed) by {
        assert StillToSweep(t.links, puddlenext, w.list, 0);
      }
      while p != L.Null
        invariant AtTurn(w, t, p, i, kept, freed)
        decreases |w.list| - i
      {
        p, freed, kept := SweepTurn(p, freed, counted, w, t, i, kept);
        i := i + 1;
      }
    }

    /** Sorts the puddles kept by their number of free chunks, fewest first. */
    method SortPuddles(ghost kept: seq<nat>) returns (ghost order: seq<nat>)
      requires L.IsList(puddlenext, puddlelist, L.Null, kept)
      modifies this`puddlenext, this`puddlelist
      ensures L.IsList(puddlenext, puddlelist, L.Null, order)
      ensures forall q: nat :: q in order <==> q in kept
      ensures FullestFirst(puddle, order)
    {
      var counts := puddle;
      var compare := (a: nat, b: nat) => CompareFree(counts, a, b);
      CompareIsOrder(counts, compare);
      var sorter := new L.Sorter(puddlenext);
      var first, n;
      first, n, order := sorter.Sort(compare, puddlelist, L.Null, L.Null, kept);
      puddlenext, puddlelist := sorter.next, first;
      forall q: nat
        ensures q in order <==> q in kept
      {
        assert q in multiset(order) <==> q in multiset(kept);
      }
      forall i, j | 0 <= i < j < |order|
        ensures Fuller(puddle, order[i], order[j])
      {
        assert compare(order[i], order[j]) <= 0;
      }
    }

    /** One turn of the loop that restores the free list. */
    method RelinkOne(p: nat, last: Link, ghost w: Was, ghost order: seq<nat>, ghost t: nat, ghost n0: Headers)
      returns (last': Link)
      requires Chosen(w, order) && t < |order| && p == order[t] && |next| == |w.h|
      requires Relinking(w, next, puddle, freelist, last, order, t) && Untouchable(w, order, n0, next)
      modifies this`next, this`freelist
      ensures |next| == |w.h| && Relinking(w, next, puddle, freelist, last', order, t + 1)
      ensures Untouchable(w, order, n0, next)
    {
      assert PuddleOk(w, next, puddle, p);
      var q := puddle[p];
      if q.nrofFree == 0 {
        RelinkSkip(w, next, puddle, freelist, last, order, t);
        return last;
      }
      ghost var before := next;
      ghost var n', first' := RelinkJoin(w, next, puddle, freelist, last, order, t);
      if freelist == End {
        freelist := q.first;
      } else {
        next := next[last.id := q.first];
      }
      next := next[q.last.id := End];
      UntouchableTransits(w, order, n0, before, next);
      return q.last;
    }

    /** Restores the free list from the chains of the puddles, in the order of the list. */
    method Relink(ghost w: Was, ghost order: seq<nat>)
      requires Chosen(w, order) && |next| == |w.h|
      requires L.IsList(puddlenext, puddlelist, L.Null, order)
      requires forall p | p in order :: PuddleOk(w, next, puddle, p)
      modifies this`next, this`freelist
      ensures Chain(next, freelist, FreeIn(w, order), End)
      ensures Untouchable(w, order, old(next), next)
    {
      freelist := End;
      var last := End;
      var p := puddlelist;
      ghost var t := 0;
      assert forall k | 0 <= k < |order| :: order[k] in order;
      while p != L.Null
        invariant t <= |order| && p == PointerAt(order, t) && |next| == |w.h|
        invariant Relinking(w, next, puddle, freelist, last, order, t)
        invariant Untouchable(w, order, old(next), next)
        decreases |order| - t
      {
        NextPointer(puddlenext, puddlelist, order, t);
        last := RelinkOne(p.id, last, w, order, t, old(next));
        p := puddlenext[p.id];
        t := t + 1;
      }
      assert order[..t] == order;
    }

    /** The puddles kept are listed fullest first, and their chains make up the free list. */
    ghost predicate Rebuilt(w: Was, n1: Headers, kept: seq<nat>, order: seq<nat>)
      reads this
    {
      && Swept(w, n1, next, freelist, kept, order)
      && L.IsList(puddlenext, puddlelist, L.Null, order) && FullestFirst(puddle, order)
      && (forall q | q in w.list :: BaseKept(w, puddle, q))
      && (forall q | q in order :: FreeCount(puddle, q) == |LocOf(w, q)|)
    }

    /** The steps of mempool_free_puddles, for whatever number of chunks it counts on. */
    method Rebuild(counted: nat, ghost w: Was)
        returns (freed: nat, ghost n1: Headers, ghost kept: seq<nat>, ghost order: seq<nat>)
      requires per == w.per && counted == w.counted && WasDivided(w) && next == w.h && puddle == w.puddle
      requires L.IsList(puddlenext, puddlelist, L.Null, w.list)
      modifies this`next, this`puddle, this`puddlenext, this`puddlelist
      modifies this`nrofFree, this`nrofAllocated, this`freelist
      ensures Rebuilt(w, n1, kept, order) && Chosen(w, kept)
      ensures Accounted(w, |w.list|, kept, freed, old(nrofFree) - nrofFree)
      ensures old(nrofFree) - nrofFree == old(nrofAllocated) - nrofAllocated
    {
      freed, kept := Sweep(counted, w);
      n1 := next;
      KeptListed(w, kept);
      order := SortPuddles(kept);
      assert forall q | q in order :: PuddleOk(w, next, puddle, q);
      Relink(w, order);
    }

    /** What reclaiming promises about the pool it leaves. */
    ghost predicate Reclaimed(w: Was, freed: nat)
      reads this
    {
      && Valid() && (forall c: nat :: IsUsed(next, c) <==> IsUsed(w.h, c))
      && freed == |w.list| - |list|
      && (forall p: nat :: p in list <==> p in w.list && InHand(w.h, w.home, p))
      && FullestFirst(puddle, list) && free == FreeOf(w.h, w.per, w.puddle, list)
      && (forall p | p in list :: FreeCount(puddle, p) == |Loc(w.h, w.per, w.puddle, p)|)
    }

    /** The sweep has taken everything, every chunk in use with it, and has not counted any of it. */
    ghost predicate AllLost(w: Was, freed: nat, free0: int, allocated0: int)
      reads this
    {
      && Structured() && list == [] && free == [] && freed == |w.list| && (forall c: nat :: !Live(next, c))
      && nrofFree == free0 && nrofAllocated == allocated0
    }

    /**
     * mempool_free_puddles: gives back exactly the puddles none of whose chunks is in use,
     * keeps every chunk in use, and puts the chunks of the fullest puddles first on the
     * free list - provided that the array size does not exceed the expansion size. Else it
     * counts on no chunks at all, and gives back every puddle.
     */
    method FreePuddles() returns (freed: nat)
      requires Valid()
      modifies this
      ensures var w := old(Snapshot());
              if expandSize >= TwoTo(exponent) then Reclaimed(w, freed)
              else AllLost(w, freed, old(nrofFree), old(nrofAllocated))
    {
      var counted := ShiftRight(expandSize, exponent);
      ShiftPositive(expandSize, exponent);
      ghost var w := Snapshot().(counted := counted);
      ghost var free0, first0, n1, kept, order := free, freelist, [], [], [];
      freed, n1, kept, order := Rebuild(counted, w);
      if counted == per {
        KeptInHand(w, kept);
        ReclaimedFree(w, n1, next, freelist, kept, order);
        ReclaimedDivided(w, n1, next, puddle, freelist, kept, order);
        ReclaimedCounts(w, free0, kept, order, freed, old(nrofFree) - nrofFree, first0);
      } else {
        NothingCounted(w, n1, next, freelist, kept, order);
        NothingLeft(per, next, puddle, home);
        NothingGiven(w, kept, freed, old(nrofFree) - nrofFree);
      }
      list, free := order, FreeIn(w, order);
    }

    ghost function Snapshot(): Was
      reads this
    {
      Was(next, per, per, puddle, list, home)
    }

    /** mempool_reclaim. */
    method Reclaim() returns (freed: nat)
      requires Valid()
      modifies this
      ensures !allowFreeing ==> freed == 0 && unchanged(this)
      ensures allowFreeing ==>
                var w := old(Snapshot());
                if expandSize >= TwoTo(exponent) then Reclaimed(w, freed)
              else AllLost(w, freed, old(nrofFree), old(nrofAllocated))
    {
      if !allowFreeing {
        return 0;
      }
      freed := FreePuddles();
    }
  }

  /**
   * A run of the pool: a chunk taken survives reclaiming exactly if its array size does not
   * exceed the expansion size.
   */
  method GetThenReclaim(expandSize: nat, exponent: nat) returns (kept: bool)
    ensures kept <==> expandSize >= TwoTo(exponent)
  {
    var pool := new Pool(expandSize, exponent, true);
    var chunk := pool.Get();
    ghost var w := pool.Snapshot();
    ghost var free0, allocated0 := pool.nrofFree, pool.nrofAllocated;
    var freed := pool.Reclaim();
    kept := IsUsed(pool.next, chunk.id);
    assert if expandSize >= TwoTo(exponent) then pool.Reclaimed(w, freed)
           else pool.AllLost(w, freed, free0, allocated0);
    assert IsUsed(w.h, chunk.id) && (Live(pool.next, chunk.id) || !kept);
  }

  /**
   * Reclaiming with the counter at more than zero makes the next get take the end marker,
   * exactly if the array size exceeds the expansion size.
   */
  method ReclaimThenGet(pool: Pool) returns (c: Link)
    requires pool.Valid() && pool.allowFreeing
    modifies pool
    ensures c == End <==> pool.expandSize < TwoTo(pool.exponent) && old(pool.free) != []
  {
    ghost var w, free0, allocated0 := pool.Snapshot(), pool.nrofFree, pool.nrofAllocated;
    var freed := pool.Reclaim();
    assert if pool.expandSize >= TwoTo(pool.exponent) then pool.Reclaimed(w, freed)
           else pool.AllLost(w, freed, free0, allocated0);
    c := pool.Get();
  }

  /**
   * The free list after reclaiming: chunks of puddles with fewer free chunks come first, and
   * within a puddle the chunks with the higher addresses.
   */
  lemma FreeListAfterReclaim(pool: Pool, w: Was, freed: nat, i: nat, j: nat)
    requires pool.Reclaimed(w, freed) && WasDivided(w) && i < j < |pool.free|
    ensures var p, q := HomeOf(w, pool.free[i]), HomeOf(w, pool.free[j]);
      && p in pool.list && q in pool.list
      && FreeCount(pool.puddle, p) <= FreeCount(pool.puddle, q) && (p == q ==> pool.free[i] > pool.free[j])
  {
    FreeOfOrdered(w.h, w.per, w.puddle, w.list, w.home, pool.list, pool.puddle, i, j);
  }

  function HomeOf(w: Was, c: nat): nat {
    if c < |w.home| then w.home[c] else 0
  }

  lemma {:induction false} FreeBelowDescends(h: Headers, b: nat, n: nat, i: nat, j: nat)
    requires i < j < |FreeBelow(h, b, n)|
    ensures FreeBelow(h, b, n)[i] > FreeBelow(h, b, n)[j]
  {
    if IsFree(h, b + n - 1) {
      var rest := FreeBelow(h, b, n - 1);
      if i > 0 {
        FreeBelowDescends(h, b, n - 1, i - 1, j - 1);
      } else {
        InFreeBelow(h, b, n - 1, rest[j - 1]);
      }
    } else {
      FreeBelowDescends(h, b, n - 1, i, j);
    }
  }

  lemma {:induction false} FreeOfOrdered(h: Headers, per: nat, puddle: Puddles, list: seq<nat>, home: seq<nat>,
                                         some: seq<nat>, counts: Puddles, i: nat, j: nat)
    requires Divided(per, h, puddle, list, home) && forall p | p in some :: p in list
    requires NoRepeats(some) && FullestFirst(counts, some) && i < j < |FreeOf(h, per, puddle, some)|
    ensures var c, d := FreeOf(h, per, puddle, some)[i], FreeOf(h, per, puddle, some)[j];
      && c < |home| && d < |home| && home[c] in some && home[d] in some
      && Fuller(counts, home[c], home[d]) && (home[c] == home[d] ==> c > d)
  {
    var a, b := Loc(h, per, puddle, some[0]), FreeOf(h, per, puddle, some[1..]);
    var c, d := FreeOf(h, per, puddle, some)[i], FreeOf(h, per, puddle, some)[j];
    assert c in FreeOf(h, per, puddle, some) && d in FreeOf(h, per, puddle, some);
    InFreeOf(h, per, puddle, list, home, some, c);
    InFreeOf(h, per, puddle, list, home, some, d);
    assert forall p | p in some[1..] :: p in some;
    assert some[0] in list;
    if i < |a| {
      assert c in a;
      InLoc(h, per, puddle, list, home, some[0], c);
      if j < |a| {
        assert d in a;
        InLoc(h, per, puddle, list, home, some[0], d);
        FreeBelowDescends(h, BaseOf(puddle, some[0]), per, i, j);
      } else {
        assert d in b;
        InFreeOf(h, per, puddle, list, home, some[1..], d);
        var k :| 0 <= k < |some[1..]| && some[1..][k] == home[d];
        assert some[k + 1] == home[d] && Fuller(counts, some[0], some[k + 1]);
      }
    } else {
      RestFullestFirst(counts, some);
      FreeOfOrdered(h, per, puddle, list, home, some[1..], counts, i - |a|, j - |a|);
    }
  }

  lemma RestFullestFirst(counts: Puddles, some: seq<nat>)
    requires some != [] && NoRepeats(some) && FullestFirst(counts, some)
    ensures NoRepeats(some[1..]) && FullestFirst(counts, some[1..])
  {
    var rest := some[1..];
    forall i, j | 0 <= i < j < |rest|
      ensures Fuller(counts, rest[i], rest[j]) && rest[i] != rest[j]
    {
      assert Fuller(counts, some[i + 1], some[j + 1]);
    }
  }

  lemma KeptListed(w: Was, kept: seq<nat>)
    requires forall q: nat :: KeptAt(w, |w.list|, kept, q)
    ensures forall q | q in kept :: q in w.list
  {
    var all: nat := |w.list|;
    assert w.list[..all] == w.list;
    forall q | q in kept
      ensures q in w.list
    {
      assert KeptAt(w, all, kept, q);
    }
  }

  lemma HasMember(s: seq<nat>)
    ensures s != [] ==> exists q: nat :: q in s
  {
    assert s != [] ==> s[0] in s;
  }

  /** Of a puddle nothing is counted, so it looks empty, whatever it holds. */
  lemma NothingCounted(w: Was, n1: Headers, n2: Headers, first: Link, kept: seq<nat>, order: seq<nat>)
    requires Swept(w, n1, n2, first, kept, order) && w.counted == 0
    ensures kept == [] && order == [] && first == End && forall c: nat :: !Live(n2, c)
  {
    var all: nat := |w.list|;
    assert w.list[..all] == w.list;
    forall q: nat
      ensures q !in kept && q !in order
    {
      assert KeptAt(w, all, kept, q);
    }
    HasMember(kept);
    HasMember(order);
    forall c: nat
      ensures !Live(n2, c)
    {
      if c < |n2| {
        assert SameAt(n1, n2, c) && HeaderAt(w, n1, all, c);
        assert AtHome(w.per, w.h, w.puddle, w.list, w.home, c);
      }
    }
  }

  /** Without live chunks there is nothing on the free list and nothing to divide. */
  lemma NothingLeft(per: nat, h: Headers, puddle: Puddles, home: seq<nat>)
    requires |home| == |h| && forall c: nat :: !Live(h, c)
    ensures FreeListOk(h, End, []) && Divided(per, h, puddle, [], home)
  {
    forall c: nat
      ensures FreeAt(h, [], c)
    {
      assert !Live(h, c);
    }
  }

  lemma NothingGiven(w: Was, kept: seq<nat>, freed: nat, given: int)
    requires Accounted(w, |w.list|, kept, freed, given) && w.counted == 0 && kept == []
    ensures given == 0 && freed == |w.list|
  {
  }

  lemma KeptInHand(w: Was, kept: seq<nat>)
    requires WasDivided(w) && w.counted == w.per && forall q: nat :: KeptAt(w, |w.list|, kept, q)
    ensures forall p: nat :: p in kept <==> p in w.list && InHand(w.h, w.home, p)
  {
    var all: nat := |w.list|;
    assert w.list[..all] == w.list;
    forall p: nat
      ensures p in kept <==> p in w.list && InHand(w.h, w.home, p)
    {
      assert KeptAt(w, all, kept, p);
      if p in w.list {
        EmptyIff(w, p);
      }
    }
  }

  function FreeCount(puddle: Puddles, p: nat): nat {
    if p in puddle then puddle[p].nrofFree else 0
  }

  /** sort_puddle_by_nrof_free. */
  function CompareFree(puddle: Puddles, a: nat, b: nat): int {
    if FreeCount(puddle, a) < FreeCount(puddle, b) then -1
    else if FreeCount(puddle, a) > FreeCount(puddle, b) then 1
    else 0
  }

  predicate Fuller(puddle: Puddles, p: nat, q: nat) {
    FreeCount(puddle, p) <= FreeCount(puddle, q)
  }

  ghost predicate FullestFirst(puddle: Puddles, order: seq<nat>) {
    forall i, j | 0 <= i < j < |order| :: Fuller(puddle, order[i], order[j])
  }

  lemma CompareIsOrder(puddle: Puddles, compare: L.Comparison)
    requires forall a: nat, b: nat :: compare(a, b) == CompareFree(puddle, a, b)
    ensures L.TotalPreorder(compare)
  {
  }

  // ----- Relinking -----

  function FreeIn(w: Was, order: seq<nat>): seq<nat> {
    FreeOf(w.h, w.counted, w.puddle, order)
  }

  /** Only free chunks of these puddles are touched. */
  ghost predicate Untouchable(w: Was, order: seq<nat>, n0: Headers, n: Headers) {
    |n0| == |n| == |w.h| && forall c | 0 <= c < |n| && c !in FreeIn(w, order) :: SameAt(n0, n, c)
  }

  function LastLink(s: seq<nat>): Link {
    if s == [] then End else To(s[|s| - 1])
  }

  /** The free chunks of the first t puddles are on the free list. */
  ghost predicate Relinking(w: Was, n: Headers, puddle: Puddles, first: Link, last: Link, order: seq<nat>, t: nat) {
    && t <= |order|
    && Chain(n, first, FreeIn(w, order[..t]), End)
    && last == LastLink(FreeIn(w, order[..t]))
    && forall k | t <= k < |order| :: PuddleOk(w, n, puddle, order[k])
  }

  /** Puddles among those there were. */
  ghost predicate Chosen(w: Was, order: seq<nat>) {
    WasDivided(w) && NoRepeats(order) && forall p | p in order :: p in w.list
  }

  /** The free chunks of different puddles are different. */
  lemma Apart(w: Was, order: seq<nat>, t: nat, k: nat, c: nat)
    requires Chosen(w, order) && t <= k < |order|
    ensures c in FreeIn(w, order[..t]) ==> c !in LocOf(w, order[k])
    ensures t < k && c in LocOf(w, order[t]) ==> c !in LocOf(w, order[k])
  {
    assert forall p | p in order[..t] :: p in order;
    assert order[k] in order && order[t] in order;
    PrefixMember(order, k, order[k]);
    assert order[..t] <= order[..k];
    assert forall p | p in order[..t] :: p in order[..k];
    if c in LocOf(w, order[k]) {
      LocHome(w.h, w.per, w.counted, w.puddle, w.list, w.home, order[k], c);
      if c in FreeIn(w, order[..t]) {
        FreeOfHome(w.h, w.per, w.counted, w.puddle, w.list, w.home, order[..t], c);
      }
      if c in LocOf(w, order[t]) {
        LocHome(w.h, w.per, w.counted, w.puddle, w.list, w.home, order[t], c);
      }
    }
  }

  lemma DoneOnce(w: Was, order: seq<nat>, t: nat)
    requires Chosen(w, order) && t <= |order|
    ensures NoRepeats(FreeIn(w, order[..t]))
  {
    assert forall p | p in order[..t] :: p in order;
    FreeOfOnce(w.h, w.per, w.counted, w.puddle, w.list, w.home, order[..t]);
  }

  /** What is on the free list so far, and what comes next, repeat nothing. */
  lemma TwoChains(w: Was, order: seq<nat>, t: nat)
    requires Chosen(w, order) && t < |order|
    ensures NoRepeats(FreeIn(w, order[..t])) && NoRepeats(LocOf(w, order[t]))
    ensures forall c | c in FreeIn(w, order[..t]) :: c !in LocOf(w, order[t])
  {
    DoneOnce(w, order, t);
    FreeBelowOnce(w.h, BaseOf(w.puddle, order[t]), w.counted);
    forall c | c in FreeIn(w, order[..t])
      ensures c !in LocOf(w, order[t])
    {
      Apart(w, order, t, t, c);
    }
  }

  /** Two chains joined as the source joins them. */
  lemma ChainsJoined(n: Headers, first: Link, a: seq<nat>, b: seq<nat>) returns (n': Headers)
    requires b != [] && NoRepeats(a) && NoRepeats(b) && forall c | c in a :: c !in b
    requires Chain(n, first, a, End) && Chain(n, To(b[0]), b, Nil)
    ensures b[|b| - 1] < |n| && (a != [] ==> a[|a| - 1] < |n|)
    ensures n' == (if a == [] then n else n[a[|a| - 1] := To(b[0])])[b[|b| - 1] := End]
    ensures Chain(n', if a == [] then To(b[0]) else first, a + b, End)
  {
    var n1 := n;
    var first' := To(b[0]);
    if a != [] {
      first' := first;
      ChainNewEnd(n, first, a, End, To(b[0]));
      n1 := n[a[|a| - 1] := To(b[0])];
      ElsewhereOf(n, n1, To(b[0]), b, Nil, a[|a| - 1]);
    }
    ChainNewEnd(n1, To(b[0]), b, Nil, End);
    n' := n1[b[|b| - 1] := End];
    if a != [] {
      assert b[|b| - 1] in b;
      ElsewhereOf(n1, n', first, a, To(b[0]), b[|b| - 1]);
    }
    ChainAppend(n', first', a, b, End);
  }

  lemma ElsewhereOf(n: Headers, n': Headers, first: Link, s: seq<nat>, end: Link, c: nat)
    requires Chain(n, first, s, end) && c < |n| && c !in s && |n'| == |n| && n' == n[c := n'[c]]
    ensures Chain(n', first, s, end)
  {
    forall d | d in s
      ensures SameAt(n, n', d)
    {
      var i: nat :| i < |s| && s[i] == d;
      assert LinkOk(n, s, end, i);
    }
    ChainElsewhere(n, n', first, s, end);
  }

  /** A puddle without free chunks adds nothing. */
  lemma RelinkSkip(w: Was, n: Headers, puddle: Puddles, first: Link, last: Link, order: seq<nat>, t: nat)
    requires Relinking(w, n, puddle, first, last, order, t) && t < |order| && LocOf(w, order[t]) == []
    ensures Relinking(w, n, puddle, first, last, order, t + 1)
  {
    assert order[..t + 1] == order[..t] + [order[t]];
    FreeOfSnoc(w.h, w.counted, w.puddle, order[..t], order[t]);
    var done := FreeIn(w, order[..t]);
    assert done + [] == done;
  }

  lemma OnlyFreeTouched(w: Was, order: seq<nat>, t: nat, c: nat)
    requires t <= |order|
    requires c in FreeIn(w, order[..t]) || (t < |order| && c in LocOf(w, order[t]))
    ensures c in FreeIn(w, order)
  {
    FreeOfIff(w.h, w.counted, w.puddle, order[..t], c);
    FreeOfIff(w.h, w.counted, w.puddle, order, c);
    assert forall p | p in order[..t] :: p in order;
    assert t < |order| ==> order[t] in order;
  }

  /** Headers that differ in two places at most. */
  predicate TwoPlaces(n: Headers, n': Headers, a: nat, b: nat) {
    |n'| == |n| && forall c | 0 <= c < |n| && c != a && c != b :: SameAt(n, n', c)
  }

  /** The chains of the puddles still to come are left alone. */
  lemma LaterPuddle(w: Was, n: Headers, n': Headers, puddle: Puddles, order: seq<nat>, t: nat, k: nat, a: nat, b: nat)
    requires Chosen(w, order) && t < k < |order| && PuddleOk(w, n, puddle, order[k]) && TwoPlaces(n, n', a, b)
    requires a in FreeIn(w, order[..t]) || a == b
    requires b in LocOf(w, order[t])
    ensures PuddleOk(w, n', puddle, order[k])
  {
    Apart(w, order, t, k, a);
    Apart(w, order, t, k, b);
    var s := LocOf(w, order[k]);
    forall d | d in s
      ensures SameAt(n, n', d)
    {
      ChainedIsThere(n, puddle[order[k]].first, s, d);
    }
    ChainElsewhere(n, n', puddle[order[k]].first, s, Nil);
  }

  lemma LaterPuddles(w: Was, n: Headers, n': Headers, puddle: Puddles, order: seq<nat>, t: nat, a: nat, b: nat)
    requires Chosen(w, order) && t < |order| && |n| == |w.h| && TwoPlaces(n, n', a, b)
    requires forall k | t <= k < |order| :: PuddleOk(w, n, puddle, order[k])
    requires a in FreeIn(w, order[..t]) || a == b
    requires b in LocOf(w, order[t])
    ensures forall k | t < k < |order| :: PuddleOk(w, n', puddle, order[k])
    ensures Untouchable(w, order, n, n')
  {
    forall k | t < k < |order|
      ensures PuddleOk(w, n', puddle, order[k])
    {
      LaterPuddle(w, n, n', puddle, order, t, k, a, b);
    }
    OnlyFreeTouched(w, order, t, a);
    OnlyFreeTouched(w, order, t, b);
  }

  /** A puddle's chain appended to the free list. */
  lemma RelinkJoin(w: Was, n: Headers, puddle: Puddles, first: Link, last: Link, order: seq<nat>, t: nat)
    returns (n': Headers, first': Link)
    requires Chosen(w, order) && Relinking(w, n, puddle, first, last, order, t) && t < |order|
    requires LocOf(w, order[t]) != [] && |n| == |w.h|
    ensures order[t] in puddle
    ensures var q := puddle[order[t]];
            && q.last.To? && q.last.id < |n| && (first != End ==> last.To? && last.id < |n|)
            && n' == (if first == End then n else n[last.id := q.first])[q.last.id := End]
            && first' == (if first == End then q.first else first)
            && Relinking(w, n', puddle, first', q.last, order, t + 1)
    ensures Untouchable(w, order, n, n')
  {
    var p, t' := order[t], t + 1;
    var q := puddle[p];
    var a, b := FreeIn(w, order[..t]), LocOf(w, p);
    assert PuddleOk(w, n, puddle, p);
    TwoChains(w, order, t);
    n' := ChainsJoined(n, first, a, b);
    first' := if a == [] then To(b[0]) else first;
    assert order[..t'] == order[..t] + [p];
    FreeOfSnoc(w.h, w.counted, w.puddle, order[..t], p);
    var y := b[|b| - 1];
    var x := if a == [] then y else a[|a| - 1];
    assert y in b && (a != [] ==> x in a);
    LaterPuddles(w, n, n', puddle, order, t, x, y);
  }

  lemma UntouchableTransits(w: Was, order: seq<nat>, n0: Headers, n1: Headers, n2: Headers)
    requires Untouchable(w, order, n0, n1) && Untouchable(w, order, n1, n2)
    ensures Untouchable(w, order, n0, n2)
  {
    forall c | 0 <= c < |n2| && c !in FreeIn(w, order)
      ensures SameAt(n0, n2, c)
    {
      assert SameAt(n0, n1, c) && SameAt(n1, n2, c);
    }
  }

  // ----- What reclaiming leaves -----

  /** Some chunk of puddle p is in use. */
  ghost predicate InHand(h: Headers, home: seq<nat>, p: nat) {
    exists c: nat :: c < |home| && IsUsed(h, c) && home[c] == p
  }

  /** A puddle counts as empty exactly when none of its chunks is in use. */
  lemma EmptyIff(w: Was, p: nat)
    requires WasDivided(w) && w.counted == w.per && p in w.list
    ensures Empty(w, p) <==> !InHand(w.h, w.home, p)
  {
    var b := BaseOf(w.puddle, p);
    AllFreeIff(w.h, b, w.per);
    assert Housed(w.per, w.h, w.puddle, w.home, p);
    if !Empty(w, p) {
      var c :| b <= c < b + w.per && !IsFree(w.h, c);
      assert HouseAt(w.h, w.home, p, c);
      assert IsUsed(w.h, c);
    } else {
      forall c: nat | c < |w.home| && IsUsed(w.h, c)
        ensures w.home[c] != p
      {
        assert AtHome(w.per, w.h, w.puddle, w.list, w.home, c);
        assert w.home[c] == p ==> IsFree(w.h, c);
      }
    }
  }

  /** What became of chunk c: the sweep, then the relinking. */
  lemma Outcome(w: Was, n1: Headers, n2: Headers, first: Link, kept: seq<nat>, order: seq<nat>, c: nat)
    requires Swept(w, n1, n2, first, kept, order) && w.counted == w.per && c < |n2|
    ensures IsUsed(n2, c) <==> IsUsed(w.h, c)
    ensures IsFree(n2, c) <==> c in FreeIn(w, order)
    ensures Live(n2, c) <==> Live(w.h, c) && w.home[c] in order
  {
    var all: nat := |w.list|;
    var p := w.home[c];
    assert w.list[..all] == w.list;
    assert HeaderAt(w, n1, all, c) && AtHome(w.per, w.h, w.puddle, w.list, w.home, c) && KeptAt(w, all, kept, p);
    InFreeOf(w.h, w.per, w.puddle, w.list, w.home, order, c);
    if c in FreeIn(w, order) {
      ChainedIsLinked(n2, first, FreeIn(w, order), End, c);
    } else {
      assert SameAt(n1, n2, c);
      if Live(w.h, c) && Empty(w, p) && IsUsed(w.h, c) {
        EmptyIff(w, p);
        assert InHand(w.h, w.home, p);
      }
    }
  }

  ghost predicate Swept(w: Was, n1: Headers, n2: Headers, first: Link, kept: seq<nat>, order: seq<nat>) {
    && Chosen(w, order) && Headered(w, n1, |w.list|) && (forall q: nat :: KeptAt(w, |w.list|, kept, q))
    && (forall q: nat :: q in order <==> q in kept)
    && Untouchable(w, order, n1, n2) && Chain(n2, first, FreeIn(w, order), End)
  }

  lemma ReclaimedFree(w: Was, n1: Headers, n2: Headers, first: Link, kept: seq<nat>, order: seq<nat>)
    requires Swept(w, n1, n2, first, kept, order) && w.counted == w.per
    ensures FreeListOk(n2, first, FreeIn(w, order))
    ensures forall c: nat :: IsUsed(n2, c) <==> IsUsed(w.h, c)
  {
    FreeOfOnce(w.h, w.per, w.counted, w.puddle, w.list, w.home, order);
    forall c: nat
      ensures FreeAt(n2, FreeIn(w, order), c) && (IsUsed(n2, c) <==> IsUsed(w.h, c))
    {
      if c < |n2| {
        Outcome(w, n1, n2, first, kept, order, c);
      } else {
        InFreeOf(w.h, w.per, w.puddle, w.list, w.home, order, c);
      }
    }
  }

  lemma ReclaimedDivided(w: Was, n1: Headers, n2: Headers, puddle: Puddles, first: Link, kept: seq<nat>,
                         order: seq<nat>)
    requires Swept(w, n1, n2, first, kept, order) && w.counted == w.per
    requires forall q | q in w.list :: BaseKept(w, puddle, q)
    ensures Divided(w.per, n2, puddle, order, w.home)
  {
    forall p | p in order
      ensures Housed(w.per, n2, puddle, w.home, p)
    {
      assert p in w.list && BaseKept(w, puddle, p) && Housed(w.per, w.h, w.puddle, w.home, p);
      forall c | puddle[p].base <= c < puddle[p].base + w.per
        ensures HouseAt(n2, w.home, p, c)
      {
        assert HouseAt(w.h, w.home, p, c);
        Outcome(w, n1, n2, first, kept, order, c);
      }
    }
    forall c | 0 <= c < |n2|
      ensures AtHome(w.per, n2, puddle, order, w.home, c)
    {
      Outcome(w, n1, n2, first, kept, order, c);
      assert AtHome(w.per, w.h, w.puddle, w.list, w.home, c);
      if Live(n2, c) {
        assert BaseKept(w, puddle, w.home[c]);
      }
    }
  }

  /** The chunks on the free list are those of the puddles. */
  lemma FreeIsListed(w: Was, free: seq<nat>, first: Link)
    requires WasDivided(w) && w.counted == w.per && FreeListOk(w.h, first, free)
    ensures |free| == |FreeIn(w, w.list)|
  {
    FreeOfOnce(w.h, w.per, w.counted, w.puddle, w.list, w.home, w.list);
    forall c: nat
      ensures c in free <==> c in FreeIn(w, w.list)
    {
      assert FreeAt(w.h, free, c);
      InFreeOf(w.h, w.per, w.puddle, w.list, w.home, w.list, c);
      if c < |w.h| {
        assert AtHome(w.per, w.h, w.puddle, w.list, w.home, c);
      }
    }
    SameCount(free, FreeIn(w, w.list));
  }

  /** The order of the puddles does not change how many chunks they have. */
  lemma ReorderedCount(w: Was, order: seq<nat>, kept: seq<nat>)
    requires w.counted == w.per && Chosen(w, order) && Chosen(w, kept) && forall q: nat :: q in order <==> q in kept
    ensures |FreeIn(w, order)| == |FreeIn(w, kept)|
  {
    FreeOfOnce(w.h, w.per, w.counted, w.puddle, w.list, w.home, order);
    FreeOfOnce(w.h, w.per, w.counted, w.puddle, w.list, w.home, kept);
    forall c: nat
      ensures c in FreeIn(w, order) <==> c in FreeIn(w, kept)
    {
      InFreeOf(w.h, w.per, w.puddle, w.list, w.home, order, c);
      InFreeOf(w.h, w.per, w.puddle, w.list, w.home, kept, c);
    }
    SameCount(FreeIn(w, order), FreeIn(w, kept));
  }

  lemma LeftOver(per: nat, all: nat, freed: nat)
    requires freed <= all
    ensures per * all - per * freed == per * (all - freed)
  {
  }

  lemma ReclaimedCounts(w: Was, free: seq<nat>, kept: seq<nat>, order: seq<nat>, freed: nat, given: int, first: Link)
    requires w.counted == w.per && Chosen(w, order) && Chosen(w, kept) && (forall q: nat :: q in order <==> q in kept)
    requires Accounted(w, |w.list|, kept, freed, given) && FreeListOk(w.h, first, free)
    ensures |free| - given == |FreeIn(w, order)| && freed == |w.list| - |order|
    ensures w.per * |w.list| - given == w.per * |order|
  {
    assert w.list[..|w.list|] == w.list;
    SameCount(order, kept);
    FreeIsListed(w, free, first);
    ReorderedCount(w, order, kept);
    LeftOver(w.per, |w.list|, freed);
  }

  /** The links and counters with which the sweep began. */
  datatype Turn = Turn(links: seq<L.Pointer>, first: L.Pointer, nrofFree: int, nrofAllocated: int)

  /** Every puddle swept is kept or freed, and so is every free chunk. */
  ghost predicate Accounted(w: Was, i: nat, kept: seq<nat>, freed: nat, given: int) {
    && i <= |w.list| && freed == i - |kept| && given == w.counted * freed
    && |FreeIn(w, kept)| + given == |FreeIn(w, w.list[..i])|
  }

  lemma AccountStep(w: Was, i: nat, kept: seq<nat>, freed: nat, given: int)
    requires Accounted(w, i, kept, freed, given) && i < |w.list|
    ensures Empty(w, w.list[i]) ==> Accounted(w, i + 1, kept, freed + 1, given + w.counted)
    ensures !Empty(w, w.list[i]) ==> Accounted(w, i + 1, [w.list[i]] + kept, freed, given)
  {
    var p := w.list[i];
    assert w.list[..i + 1] == w.list[..i] + [p];
    FreeOfSnoc(w.h, w.counted, w.puddle, w.list[..i], p);
    OneMore(w.counted, freed);
    assert ([p] + kept)[1..] == kept;
  }

  lemma SweepStarts(w: Was)
    requires WasDivided(w)
    ensures Headered(w, w.h, 0) && Accounted(w, 0, [], 0, 0)
    ensures forall q: nat :: KeptAt(w, 0, [], q)
    ensures forall q | q in w.list :: BaseKept(w, w.puddle, q)
  {
    forall q | q in w.list
      ensures BaseKept(w, w.puddle, q)
    {
      assert Housed(w.per, w.h, w.puddle, w.home, q);
    }
  }

  function PointerAt(list: seq<nat>, i: nat): L.Pointer {
    if i < |list| then L.Rec(list[i]) else L.Null
  }

  predicate LinkKept(links: seq<L.Pointer>, links': seq<L.Pointer>, list: seq<nat>, k: nat)
    requires k < |list|
  {
    list[k] < |links| && list[k] < |links'| && links[list[k]] == links'[list[k]]
  }

  predicate StillToSweep(links: seq<L.Pointer>, links': seq<L.Pointer>, list: seq<nat>, i: nat) {
    forall k | i <= k < |list| :: LinkKept(links, links', list, k)
  }

  lemma NextPointer(links: seq<L.Pointer>, first: L.Pointer, list: seq<nat>, i: nat)
    requires L.IsList(links, first, L.Null, list) && i < |list|
    ensures list[i] < |links| && links[list[i]] == PointerAt(list, i + 1)
  {
    if i + 1 < |list| {
      assert L.LinkAt(links, list, i);
    }
  }

  /** Only the link of the record just swept has changed. */
  lemma StillLinked(links: seq<L.Pointer>, before: seq<L.Pointer>, after: seq<L.Pointer>, list: seq<nat>, i: nat)
    requires i < |list| && NoRepeats(list) && |after| == |before|
    requires StillToSweep(links, before, list, i)
    requires forall q | 0 <= q < |after| && q != list[i] :: after[q] == before[q]
    ensures StillToSweep(links, after, list, i + 1)
  {
    forall k | i + 1 <= k < |list|
      ensures LinkKept(links, after, list, k)
    {
      assert LinkKept(links, before, list, k) && list[k] != list[i];
    }
  }

  predicate BaseKept(w: Was, puddle: Puddles, q: nat) {
    q in puddle && puddle[q].base == BaseOf(w.puddle, q)
  }

  predicate KeptAt(w: Was, i: nat, kept: seq<nat>, q: nat)
    requires i <= |w.list|
  {
    q in kept <==> q in w.list[..i] && !Empty(w, q)
  }

  /** A record put in front of a list it is not on. */
  lemma Pushed(next: seq<L.Pointer>, first: L.Pointer, list: seq<nat>, p: nat)
    requires L.IsList(next, first, L.Null, list) && p !in list && p < |next|
    ensures L.IsList(next[p := first], L.Rec(p), L.Null, [p] + list)
  {
    var next', list' := next[p := first], [p] + list;
    forall i | 0 <= i < |list'| - 1
      ensures L.LinkAt(next', list', i)
    {
      if i > 0 {
        assert L.LinkAt(next, list, i - 1) && list[i - 1] in list;
      }
    }
    assert list != [] ==> list[|list| - 1] in list;
  }

  lemma SameOutsideMore(h: Headers, n: Headers, n': Headers, s: seq<nat>, c: nat)
    requires SameOutside(h, n, s) && c < |n| && |n'| == |n| && n' == n[c := n'[c]]
    ensures SameOutside(h, n', [c] + s)
  {
    forall d | 0 <= d < |h| && d !in [c] + s
      ensures SameAt(h, n', d)
    {
      assert SameAt(h, n, d);
    }
  }

  lemma TakenFree(h: Headers, free: seq<nat>, h': Headers)
    requires free != [] && FreeListOk(h, To(free[0]), free) && free[0] < |h| && h' == h[free[0] := Nil]
    ensures FreeListOk(h', h[free[0]], free[1..])
  {
    ChainRest(h, To(free[0]), free, End);
    var c, s := free[0], free[1..];
    forall d | d in s
      ensures SameAt(h, h', d)
    {
      ChainedIsLinked(h, h[c], s, End, d);
    }
    ChainElsewhere(h, h', h[c], s, End);
    forall d: nat
      ensures FreeAt(h', s, d)
    {
      assert FreeAt(h, free, d);
      if d != c && d in free {
        var i :| 0 <= i < |free| && free[i] == d;
        assert s[i - 1] == d;
      }
    }
  }

  lemma GivenBack(h: Headers, free: seq<nat>, h': Headers, c: nat)
    requires FreeListOk(h, HeadLink(free, End), free) && IsUsed(h, c) && h' == h[c := HeadLink(free, End)]
    ensures FreeListOk(h', To(c), [c] + free)
  {
    assert FreeAt(h, free, c);
    ChainCons(h, HeadLink(free, End), free, End, c);
    forall d: nat
      ensures FreeAt(h', [c] + free, d)
    {
      assert FreeAt(h, free, d);
    }
  }

  /** Only links change, not which chunks there are. */
  lemma RelinkedDivided(per: nat, h: Headers, h': Headers, puddle: Puddles, list: seq<nat>, home: seq<nat>)
    requires Divided(per, h, puddle, list, home)
    requires |h'| == |h| && forall c | 0 <= c < |h| :: Live(h', c) <==> Live(h, c)
    ensures Divided(per, h', puddle, list, home)
  {
    forall p | p in list
      ensures Housed(per, h', puddle, home, p)
    {
      assert Housed(per, h, puddle, home, p);
      forall c | puddle[p].base <= c < puddle[p].base + per
        ensures HouseAt(h', home, p, c)
      {
        assert HouseAt(h, home, p, c);
      }
    }
    forall c | 0 <= c < |h'|
      ensures AtHome(per, h', puddle, list, home, c)
    {
      assert AtHome(per, h, puddle, list, home, c);
    }
  }

  // ----- Array sizes beyond the expansion size -----

  function TwoTo(e: nat): nat {
    if e == 0 then 1 else 2 * TwoTo(e - 1)
  }

  /** n >> e. */
  function ShiftRight(n: nat, e: nat): nat
    decreases e
  {
    if e == 0 then n else ShiftRight(n / 2, e - 1)
  }

  lemma {:induction false} ShiftPositive(n: nat, e: nat)
    ensures ShiftRight(n, e) > 0 <==> n >= TwoTo(e)
    decreases e
  {
    if e > 0 {
      ShiftPositive(n / 2, e - 1);
    }
  }

  /** The chunks per puddle that reclaiming counts on. */
  function ReclaimCount(expandSize: nat, e: nat): nat {
    ShiftRight(expandSize, e)
  }

  /** The chunks per puddle that expansion makes: at least one. */
  function ExpandCount(expandSize: nat, e: nat): nat {
    if ShiftRight(expandSize, e) == 0 then 1 else ShiftRight(expandSize, e)
  }

  /** The test by which reclaiming gives a puddle back. */
  predicate LooksEmpty(h: Headers, b: nat, n: nat) {
    |FreeBelow(h, b, n)| == n
  }

  ghost predicate NoneUsed(h: Headers, b: nat, n: nat) {
    forall c | b <= c < b + n :: !IsUsed(h, c)
  }

  /**
   * Giving back whatever looks empty spares every chunk in use exactly when the array size
   * does not exceed the expansion size; beyond it expansion makes one chunk per puddle where
   * reclaiming counts on none, and any puddle looks empty.
   */
  lemma ReclaimIsSafeIff(expandSize: nat, e: nat)
    ensures (forall h, b: nat | LooksEmpty(h, b, ReclaimCount(expandSize, e)) ::
               NoneUsed(h, b, ExpandCount(expandSize, e)))
            <==> expandSize >= TwoTo(e)
  {
    var n, m := ReclaimCount(expandSize, e), ExpandCount(expandSize, e);
    ShiftPositive(expandSize, e);
    if expandSize >= TwoTo(e) {
      forall h, b: nat | LooksEmpty(h, b, n)
        ensures NoneUsed(h, b, m)
      {
        AllFreeIff(h, b, n);
        assert forall c | b <= c < b + n :: IsFree(h, c) ==> !IsUsed(h, c);
      }
    } else {
      assert LooksEmpty([Nil], 0, n) && IsUsed([Nil], 0) && !NoneUsed([Nil], 0, m);
    }
  }
}
