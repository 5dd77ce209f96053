/**
 The four-tape merge sort of singly linked lists.  Records are numbered and their
 link fields live in one store, so relinking happens in place, as in memory.  A
 tape is a first and a last pointer with a count; what its last link holds is
 never looked at, and may be anything.
 */
module LinkedListSort {
  import opened Wrappers

  datatype Pointer = Null | Marker | Rec(id: nat)

  datatype Tape = Tape(first: Pointer, last: Pointer, count: nat)

  type Comparison = (nat, nat) -> int

  ghost predicate Comparable(compare: Comparison, a: nat, b: nat) {
    compare(a, b) <= 0 || compare(b, a) <= 0
  }

  ghost predicate Transits(compare: Comparison, a: nat, b: nat, c: nat) {
    compare(a, b) <= 0 && compare(b, c) <= 0 ==> compare(a, c) <= 0
  }

  ghost predicate TotalPreorder(compare: Comparison) {
    && (forall a, b :: Comparable(compare, a, b))
    && (forall a, b, c :: Transits(compare, a, b, c))
  }

  ghost predicate Sorted(compare: Comparison, s: seq<nat>) {
    forall i, j :: 0 <= i < j < |s| ==> compare(s[i], s[j]) <= 0
  }

  ghost predicate LinkAt(next: seq<Pointer>, s: seq<nat>, i: nat)
    requires i + 1 < |s| && s[i] < |next|
  {
    next[s[i]] == Rec(s[i + 1])
  }

  /** The links lead from `first` through exactly these records; the last link is not examined. */
  ghost predicate Chained(next: seq<Pointer>, first: Pointer, s: seq<nat>) {
    && (s != [] ==> first == Rec(s[0]))
    && (forall i :: 0 <= i < |s| ==> s[i] < |next|)
    && (forall i :: 0 <= i < |s| - 1 ==> LinkAt(next, s, i))
  }

  /** A proper list: a chain of distinct records whose last link is the end marker. */
  ghost predicate IsList(next: seq<Pointer>, first: Pointer, end: Pointer, s: seq<nat>) {
    && Chained(next, first, s)
    && (s == [] ==> first == end)
    && (s != [] ==> next[s[|s| - 1]] == end)
    && NoRepeats(s)
  }

  // ---------------------------------------------------------------- blocks

  ghost predicate BlockOk(compare: Comparison, block: seq<nat>, size: nat) {
    0 < |block| <= size && Sorted(compare, block)
  }

  ghost predicate BlocksOk(compare: Comparison, blocks: seq<seq<nat>>, size: nat) {
    forall i :: 0 <= i < |blocks| ==> BlockOk(compare, blocks[i], size)
  }

  /** All blocks have the full size, but for the last one if `shortLast`. */
  ghost predicate Full(blocks: seq<seq<nat>>, size: nat, shortLast: bool) {
    forall i :: 0 <= i < |blocks| && (i + 1 < |blocks| || !shortLast) ==> |blocks[i]| == size
  }

  /**
   Two tapes of sorted blocks dealt out alternately: the first tape has as many
   blocks as the second or one more, and only the very last block may be short.
   */
  ghost predicate Dealt(compare: Comparison, a: seq<seq<nat>>, b: seq<seq<nat>>, size: nat) {
    && (|a| == |b| || |a| == |b| + 1)
    && BlocksOk(compare, a, size) && BlocksOk(compare, b, size)
    && Full(a, size, |a| == |b| + 1) && Full(b, size, |a| == |b|)
  }

  ghost function Flat(blocks: seq<seq<nat>>): seq<nat> {
    if blocks == [] then [] else blocks[0] + Flat(blocks[1..])
  }

  lemma {:induction false} FlatSnoc(blocks: seq<seq<nat>>, block: seq<nat>)
    ensures Flat(blocks + [block]) == Flat(blocks) + block
    decreases |blocks|
  {
    if blocks == [] {
      assert (blocks + [block])[1..] == [];
    } else {
      assert (blocks + [block])[1..] == blocks[1..] + [block];
      FlatSnoc(blocks[1..], block);
    }
  }

  /** Everything in `z` may stand before everything in `s`. */
  ghost predicate Below(compare: Comparison, z: seq<nat>, s: seq<nat>) {
    forall i, j :: 0 <= i < |z| && 0 <= j < |s| ==> compare(z[i], s[j]) <= 0
  }

  /** Appending the head of `s`, which may stand before everything in `t`. */
  lemma TakeHead(compare: Comparison, z: seq<nat>, s: seq<nat>, t: seq<nat>)
    requires TotalPreorder(compare) && s != []
    requires Sorted(compare, z) && Sorted(compare, s) && Sorted(compare, t)
    requires Below(compare, z, s) && Below(compare, z, t)
    requires t != [] ==> compare(s[0], t[0]) <= 0
    ensures Sorted(compare, z + [s[0]]) && Below(compare, z + [s[0]], s[1..]) && Below(compare, z + [s[0]], t)
  {
    forall j | 0 <= j < |t| ensures compare(s[0], t[j]) <= 0 {
      assert j > 0 ==> compare(t[0], t[j]) <= 0;
      assert Transits(compare, s[0], t[0], t[j]);
    }
  }

  // ---------------------------------------------------------------- links

  lemma ChainedRest(next: seq<Pointer>, first: Pointer, s: seq<nat>)
    requires Chained(next, first, s) && s != []
    ensures Chained(next, next[s[0]], s[1..])
  {
    assert |s| > 1 ==> LinkAt(next, s, 0);
    forall i | 0 <= i < |s[1..]| - 1 ensures LinkAt(next, s[1..], i) {
      assert LinkAt(next, s, i + 1);
    }
  }

  /** Relinking a record leaves the chains it is not part of alone. */
  lemma ChainedElsewhere(next: seq<Pointer>, first: Pointer, s: seq<nat>, x: nat, p: Pointer)
    requires Chained(next, first, s) && x < |next| && x !in s
    ensures Chained(next[x := p], first, s)
  {
    var next' := next[x := p];
    forall i | 0 <= i < |s| - 1 ensures LinkAt(next', s, i) {
      assert LinkAt(next, s, i) && s[i] in s;
    }
  }

  lemma ChainedSnoc(next: seq<Pointer>, first: Pointer, s: seq<nat>, x: nat)
    requires Chained(next, first, s) && s != [] && x < |next|
    requires forall i :: 0 <= i < |s| - 1 ==> s[i] != s[|s| - 1]
    ensures Chained(next[s[|s| - 1] := Rec(x)], first, s + [x])
  {
    var next' := next[s[|s| - 1] := Rec(x)];
    forall i | 0 <= i < |s + [x]| - 1 ensures LinkAt(next', s + [x], i) {
      assert i < |s| - 1 ==> LinkAt(next, s, i);
    }
  }

  /** How often a record is in a list. */
  ghost function Count(s: seq<nat>, r: nat): nat {
    if s == [] then 0 else Count(s[1..], r) + if s[0] == r then 1 else 0
  }

  lemma {:induction false} CountSnoc(s: seq<nat>, x: nat, r: nat)
    ensures Count(s + [x], r) == Count(s, r) + if x == r then 1 else 0
    decreases |s|
  {
    if s == [] {
      assert (s + [x])[1..] == [];
    } else {
      assert (s + [x])[1..] == s[1..] + [x];
      CountSnoc(s[1..], x, r);
    }
  }

  lemma {:induction false} CountAt(s: seq<nat>, i: nat, r: nat)
    requires i < |s| && s[i] == r
    ensures Count(s, r) >= 1 && forall j :: 0 <= j < |s| && j != i && s[j] == r ==> Count(s, r) >= 2
    decreases |s|
  {
    if i > 0 {
      CountAt(s[1..], i - 1, r);
      forall j | 0 <= j < |s| && j != i && s[j] == r ensures Count(s, r) >= 2 {
        assert j > 0 ==> s[1..][j - 1] == r;
      }
    } else {
      forall j | 0 < j < |s| && s[j] == r ensures Count(s, r) >= 2 {
        CountAt(s[1..], j - 1, r);
      }
    }
  }

  lemma {:induction false} CountIsMultiplicity(s: seq<nat>, r: nat)
    ensures Count(s, r) == multiset(s)[r]
    decreases |s|
  {
    if s != [] {
      CountIsMultiplicity(s[1..], r);
      assert s == [s[0]] + s[1..];
    }
  }

  /** How often a record is on the four tapes. */
  ghost function Occurs(c: seq<seq<nat>>, r: nat): nat
    requires |c| == 4
  {
    Count(c[0], r) + Count(c[1], r) + Count(c[2], r) + Count(c[3], r)
  }

  /** No record is on two tapes, or twice on one. */
  ghost predicate NoneTwice(c: seq<seq<nat>>)
    requires |c| == 4
  {
    forall r :: Occurs(c, r) <= 1
  }

  ghost predicate SameRecords(c: seq<seq<nat>>, c': seq<seq<nat>>)
    requires |c| == 4 && |c'| == 4
  {
    forall r :: Occurs(c, r) == Occurs(c', r)
  }

  lemma SameRecordsTransits(c: seq<seq<nat>>, c': seq<seq<nat>>, c'': seq<seq<nat>>)
    requires |c| == 4 && |c'| == 4 && |c''| == 4
    requires SameRecords(c, c') && SameRecords(c', c'')
    ensures SameRecords(c, c'')
  {
    forall r ensures Occurs(c, r) == Occurs(c'', r) {
      assert Occurs(c, r) == Occurs(c', r);
    }
  }

  lemma OnOneTape(c: seq<seq<nat>>, k: nat, l: nat, i: nat)
    requires |c| == 4 && NoneTwice(c) && k < 4 && l < 4 && k != l && i < |c[k]|
    ensures c[k][i] !in c[l]
  {
    var x := c[k][i];
    assert Occurs(c, x) <= 1;
    CountAt(c[k], i, x);
    if x in c[l] {
      var j :| 0 <= j < |c[l]| && c[l][j] == x;
      CountAt(c[l], j, x);
    }
  }

  lemma OnceOnTape(c: seq<seq<nat>>, k: nat, i: nat, j: nat)
    requires |c| == 4 && NoneTwice(c) && k < 4 && i < j < |c[k]|
    ensures c[k][i] != c[k][j]
  {
    assert Occurs(c, c[k][i]) <= 1;
    CountAt(c[k], i, c[k][i]);
  }

  lemma TapeDistinct(c: seq<seq<nat>>, k: nat)
    requires |c| == 4 && NoneTwice(c) && k < 4
    ensures NoRepeats(c[k])
  {
    forall i, j | 0 <= i < j < |c[k]| ensures c[k][i] != c[k][j] {
      OnceOnTape(c, k, i, j);
    }
  }

  ghost function Moved(c: seq<seq<nat>>, from: nat, to: nat): seq<seq<nat>>
    requires from < |c| && to < |c| && from != to && c[from] != []
  {
    c[from := c[from][1..]][to := c[to] + [c[from][0]]]
  }

  lemma MovedKeepsRecords(c: seq<seq<nat>>, c': seq<seq<nat>>, from: nat, to: nat)
    requires |c| == 4 && from < 4 && to < 4 && from != to && c[from] != [] && c' == Moved(c, from, to)
    ensures SameRecords(c, c') && (NoneTwice(c) ==> NoneTwice(c'))
  {
    forall r ensures Occurs(c, r) == Occurs(c', r) {
      CountSnoc(c[to], c[from][0], r);
      assert Count(c'[from], r) + Count(c'[to], r) == Count(c[from], r) + Count(c[to], r);
      assert forall k :: 0 <= k < 4 && k != from && k != to ==> Count(c'[k], r) == Count(c[k], r);
    }
  }

  ghost predicate LinkKept(n: seq<Pointer>, n': seq<Pointer>, c: seq<seq<nat>>, x: nat)
    requires |c| == 4 && x < |n| == |n'|
  {
    Occurs(c, x) == 0 ==> n'[x] == n[x]
  }

  /** The links of records that are on no tape have not changed. */
  ghost predicate Elsewhere(n: seq<Pointer>, n': seq<Pointer>, c: seq<seq<nat>>)
    requires |c| == 4
  {
    |n'| == |n| && forall x | 0 <= x < |n| :: LinkKept(n, n', c, x)
  }

  /** Relinking the last record of a tape while records move between tapes. */
  lemma RelinkedLast(n0: seq<Pointer>, n: seq<Pointer>, c: seq<seq<nat>>, c': seq<seq<nat>>, k: nat, p: Pointer)
      returns (n': seq<Pointer>)
    requires |c| == 4 == |c'| && k < 4 && c[k] != [] && SameRecords(c, c') && Elsewhere(n0, n, c)
    requires c[k][|c[k]| - 1] < |n|
    ensures n' == n[c[k][|c[k]| - 1] := p] && Elsewhere(n0, n', c')
  {
    var last := c[k][|c[k]| - 1];
    n' := n[last := p];
    CountAt(c[k], |c[k]| - 1, last);
    forall x | 0 <= x < |n0|
      ensures LinkKept(n0, n', c', x)
    {
      assert LinkKept(n0, n, c, x) && Occurs(c, x) == Occurs(c', x);
    }
  }

  lemma ElsewhereSame(n0: seq<Pointer>, n: seq<Pointer>, c: seq<seq<nat>>, c': seq<seq<nat>>)
    requires |c| == 4 == |c'| && SameRecords(c, c') && Elsewhere(n0, n, c)
    ensures Elsewhere(n0, n, c')
  {
    forall x | 0 <= x < |n0|
      ensures LinkKept(n0, n, c', x)
    {
      assert LinkKept(n0, n, c, x) && Occurs(c, x) == Occurs(c', x);
    }
  }

  /** The record put on tape k may be relinked. */
  lemma RelinkedPushed(n0: seq<Pointer>, n: seq<Pointer>, c: seq<seq<nat>>, c': seq<seq<nat>>, k: nat, id: nat,
                       p: Pointer)
    requires |c| == 4 && k < 4 && c' == c[k := [id] + c[k]] && id < |n| && Elsewhere(n0, n, c)
    ensures Elsewhere(n0, n[id := p], c')
  {
    var n' := n[id := p];
    forall x | 0 <= x < |n0|
      ensures LinkKept(n0, n', c', x)
    {
      assert LinkKept(n0, n, c, x);
      PushOccurs(c, c', k, id, x);
    }
  }

  // ---------------------------------------------------------------- the store

  class Sorter {
    var next: seq<Pointer>
    var tape: seq<Tape>
    ghost var contents: seq<seq<nat>>
    /** The links as they were when sorting began. */
    ghost var origin: seq<Pointer>

    ghost predicate TapeOk(k: nat)
      requires k < |tape| == |contents|
      reads this
    {
      tape[k].count == |contents[k]| && Chained(next, tape[k].first, contents[k])
    }

    ghost predicate LastOk(k: nat)
      requires k < |tape| == |contents|
      reads this
    {
      contents[k] != [] ==> tape[k].last == Rec(contents[k][|contents[k]| - 1])
    }

    /** Four tapes that share no record; links of other records are as they were. */
    ghost predicate Valid()
      reads this
    {
      && |tape| == 4 == |contents|
      && (forall k :: 0 <= k < 4 ==> TapeOk(k))
      && NoneTwice(contents) && Elsewhere(origin, next, contents)
    }

    constructor (next: seq<Pointer>)
      ensures this.next == next
    {
      this.next, origin := next, next;
      tape, contents := [], [];
    }

    /** Takes the first record off one tape and appends it to another. */
    method MoveFirst(from: nat, to: nat)
      requires Valid() && from < 4 && to < 4 && from != to && contents[from] != [] && LastOk(to)
      modifies this`next, this`tape, this`contents
      ensures Valid() && LastOk(to)
      ensures contents == Moved(old(contents), from, to) && SameRecords(old(contents), contents)
      ensures forall k :: 0 <= k < 4 && k != to ==> tape[k].last == old(tape)[k].last
    {
      assert TapeOk(from) && TapeOk(to);
      ghost var c := contents;
      var chosen := tape[from].first.id;
      ChainedRest(next, tape[from].first, c[from]);
      tape := tape[from := Tape(next[chosen], tape[from].last, tape[from].count - 1)];
      contents := contents[from := c[from][1..]];
      var output := tape[to];
      if output.count == 0 {
        output := output.(first := Rec(chosen));
      } else {
        var last := output.last.id;
        forall k | 0 <= k < 4 && k != to ensures Chained(next[last := Rec(chosen)], tape[k].first, contents[k]) {
          OnOneTape(c, to, k, |c[to]| - 1);
          assert k != from ==> old(TapeOk(k));
          ChainedElsewhere(next, tape[k].first, contents[k], last, Rec(chosen));
        }
        forall i | 0 <= i < |c[to]| - 1 ensures c[to][i] != last {
          OnceOnTape(c, to, i, |c[to]| - 1);
        }
        ChainedSnoc(next, output.first, c[to], chosen);
        ghost var linked := RelinkedLast(origin, next, c, c, to, Rec(chosen));
        next := next[last := Rec(chosen)];
      }
      tape := tape[to := output.(last := Rec(chosen), count := output.count + 1)];
      contents := contents[to := c[to] + [chosen]];
      MovedKeepsRecords(c, contents, from, to);
      ElsewhereSame(origin, next, c, contents);
      forall k | 0 <= k < 4 ensures TapeOk(k) {
        assert k != from && k != to ==> old(TapeOk(k));
      }
    }

    /** Which input tape gives the next record, if any; the first one does if both are as good. */
    method Choose(compare: Comparison, base: nat, n0: nat, n1: nat, ghost x: seq<nat>, ghost y: seq<nat>)
        returns (chosen: Choice)
      requires TotalPreorder(compare)
      requires Valid() && base + 1 < 4
      requires IsLeading(x, contents[base], n0) && IsLeading(y, contents[base + 1], n1)
      ensures chosen == Neither <==> x == [] && y == []
      ensures chosen == First <==> x != [] && (y == [] || compare(x[0], y[0]) <= 0)
      ensures chosen == Second ==> y != [] && (x != [] ==> compare(y[0], x[0]) <= 0)
    {
      assert TapeOk(base) && TapeOk(base + 1);
      if n0 == 0 || tape[base].count == 0 {
        if n1 == 0 || tape[base + 1].count == 0 {
          return Neither;
        }
        return Second;
      } else if n1 == 0 || tape[base + 1].count == 0 {
        return First;
      } else if compare(tape[base].first.id, tape[base + 1].first.id) > 0 {
        assert Comparable(compare, x[0], y[0]);
        return Second;
      } else {
        return First;
      }
    }

    /** What the inner loop keeps: nothing but the three tapes changes. */
    ghost predicate MergingOn(c: seq<seq<nat>>, base: nat, out: nat, i: nat, j: nat, z: seq<nat>)
      requires |c| == 4 && base + 1 < 4 && out < 4 && out != base && out != base + 1
      reads this
    {
      && i <= |c[base]| && j <= |c[base + 1]| && Valid() && LastOk(out)
      && contents == Merged(c, base, out, i, j, z) && SameRecords(c, contents)
    }

    method TakeFirst(base: nat, out: nat, ghost other: nat, ghost c: seq<seq<nat>>, ghost i: nat, ghost j: nat,
                     ghost z: seq<nat>)
      requires |c| == 4 && base + 1 < 4 && out < 4 && out != base && out != base + 1
      requires other < 4 && other != out && i < |c[base]| && j <= |c[base + 1]| && MergingOn(c, base, out, i, j, z)
      modifies this`next, this`tape, this`contents
      ensures MergingOn(c, base, out, i + 1, j, z + [c[base][i]])
      ensures other < 4 && tape[other].last == old(tape)[other].last
    {
      MergedFirst(c, base, out, i, j, z);
      MoveFirst(base, out);
      SameRecordsTransits(c, old(contents), contents);
    }

    method TakeSecond(base: nat, out: nat, ghost other: nat, ghost c: seq<seq<nat>>, ghost i: nat, ghost j: nat,
                      ghost z: seq<nat>)
      requires |c| == 4 && base + 1 < 4 && out < 4 && out != base && out != base + 1
      requires other < 4 && other != out && i <= |c[base]| && j < |c[base + 1]| && MergingOn(c, base, out, i, j, z)
      modifies this`next, this`tape, this`contents
      ensures MergingOn(c, base, out, i, j + 1, z + [c[base + 1][j]])
      ensures other < 4 && tape[other].last == old(tape)[other].last
    {
      MergedSecond(c, base, out, i, j, z);
      MoveFirst(base + 1, out);
      SameRecordsTransits(c, old(contents), contents);
    }

    /** Moves the smaller of the two leading records, if there is one, to the output tape. */
    method MergeOne(compare: Comparison, base: nat, out: nat, ghost other: nat, n0: nat, n1: nat,
                    ghost c: seq<seq<nat>>,
                    ghost x: seq<nat>, ghost y: seq<nat>, ghost i: nat, ghost j: nat, ghost z: seq<nat>)
        returns (chosen: Choice, ghost z': seq<nat>)
      requires TotalPreorder(compare)
      requires |c| == 4 && base + 1 < 4 && out < 4 && out != base && out != base + 1 && other < 4 && other != out
      requires i <= |x| && IsLeading(x, c[base], i + n0) && j <= |y| && IsLeading(y, c[base + 1], j + n1)
      requires MergingOn(c, base, out, i, j, z)
      requires MergedSoFar(compare, x, y, i, j, z)
      modifies this`next, this`tape, this`contents
      ensures chosen == Neither ==> i == |x| && j == |y| && z' == z
      ensures chosen == First ==> n0 > 0 && i < |x| && MergingOn(c, base, out, i + 1, j, z')
      ensures chosen == First ==> MergedSoFar(compare, x, y, i + 1, j, z')
      ensures chosen == Second ==> n1 > 0 && j < |y| && MergingOn(c, base, out, i, j + 1, z')
      ensures chosen == Second ==> MergedSoFar(compare, x, y, i, j + 1, z')
      ensures chosen == Neither ==> MergingOn(c, base, out, i, j, z)
      ensures other < 4 && tape[other].last == old(tape)[other].last
    {
      StillLeading(x, c[base], i + n0, i);
      StillLeading(y, c[base + 1], j + n1, j);
      z' := z;
      chosen := Choose(compare, base, n0, n1, x[i..], y[j..]);
      if chosen == First {
        SoFarFirst(compare, x, y, i, j, z);
        TakeFirst(base, out, other, c, i, j, z);
        z' := z + [x[i]];
      } else if chosen == Second {
        SoFarSecond(compare, x, y, i, j, z);
        TakeSecond(base, out, other, c, i, j, z);
        z' := z + [y[j]];
      }
    }

    /** Merges the leading blocks `x` and `y` of the two input tapes onto the output tape. */
    method MergeBlocks(compare: Comparison, base: nat, out: nat, ghost other: nat, size: nat, ghost x: seq<nat>,
                       ghost y: seq<nat>)
        returns (ghost z: seq<nat>)
      requires TotalPreorder(compare)
      requires Valid() && base + 1 < 4 && out < 4 && out != base && out != base + 1 && LastOk(out)
      requires other < 4 && other != out
      requires IsLeading(x, contents[base], size) && Sorted(compare, x)
      requires IsLeading(y, contents[base + 1], size) && Sorted(compare, y)
      modifies this`next, this`tape, this`contents
      ensures MergingOn(old(contents), base, out, |x|, |y|, z)
      ensures other < 4 && tape[other].last == old(tape)[other].last
      ensures Sorted(compare, z) && |z| == |x| + |y|
    {
      ghost var c := contents;
      var n0, n1: nat := size, size;
      ghost var i, j := 0, 0;
      z := [];
      MergedNone(c, base, out);
      while true
        invariant i + n0 == size == j + n1 && i <= |x| && j <= |y|
        invariant MergingOn(c, base, out, i, j, z)
        invariant other < 4 && tape[other].last == old(tape)[other].last
        invariant MergedSoFar(compare, x, y, i, j, z)
        decreases n0 + n1
      {
        var chosen;
        chosen, z := MergeOne(compare, base, out, other, n0, n1, c, x, y, i, j, z);
        if chosen == Neither {
          break;
        } else if chosen == First {
          n0, i := n0 - 1, i + 1;
        } else {
          n1, j := n1 - 1, j + 1;
        }
      }
    }

    /** The four tapes hold these records, in this order, and no record got lost since `c`. */
    ghost predicate OnTapes(base: nat, c: seq<seq<nat>>, s: seq<nat>, t: seq<nat>, o: seq<nat>, o': seq<nat>)
      requires |c| == 4 && (base == 0 || base == 2)
      reads this
    {
      && Valid() && SameRecords(c, contents) && Size(contents) == Size(c) && LastOk(2 - base) && LastOk(3 - base)
      && contents[base] == s && contents[base + 1] == t && contents[2 - base] == o && contents[3 - base] == o'
    }

    /** Merges the leading blocks of the input tapes onto the first or the second output tape. */
    method MergePair(compare: Comparison, base: nat, dest: nat, size: nat, ghost c: seq<seq<nat>>,
                     ghost x: seq<nat>, ghost y: seq<nat>,
                     ghost s: seq<nat>, ghost t: seq<nat>, ghost o: seq<nat>, ghost o': seq<nat>)
        returns (ghost z: seq<nat>)
      requires TotalPreorder(compare) && |c| == 4 && (base == 0 || base == 2) && OnTapes(base, c, s, t, o, o')
      requires IsLeading(x, s, size) && Sorted(compare, x) && IsLeading(y, t, size) && Sorted(compare, y)
      requires dest == 2 - base || dest == 3 - base
      modifies this`next, this`tape, this`contents
      ensures OnTapes(base, c, s[|x|..], t[|y|..], if dest == 2 - base then o + z else o,
                      if dest == 2 - base then o' else o' + z)
      ensures Sorted(compare, z) && |z| == |x| + |y|
    {
      ghost var d := contents;
      z := MergeBlocks(compare, base, dest, 5 - 2 * base - dest, size, x, y);
      SameRecordsTransits(c, d, contents);
    }

    /** One pass over the two input tapes: pairs of blocks become blocks of twice the size. */
    method Pass(compare: Comparison, base: nat, size: nat, ghost a: seq<seq<nat>>, ghost b: seq<seq<nat>>)
        returns (ghost u: seq<seq<nat>>, ghost v: seq<seq<nat>>)
      requires TotalPreorder(compare) && size > 0
      requires Valid() && (base == 0 || base == 2) && contents[2 - base] == [] == contents[3 - base]
      requires Dealt(compare, a, b, size) && contents[base] == Flat(a) && contents[base + 1] == Flat(b)
      modifies this`next, this`tape, this`contents
      ensures OnTapes(base, old(contents), [], [], Flat(u), Flat(v)) && Dealt(compare, u, v, 2 * size)
      ensures |u| + |v| == |a|
    {
      ghost var c := contents;
      ghost var p, q := a, b;
      u, v := [], [];
      var dest := 2 - base;
      while tape[base].count != 0
        invariant OnTapes(base, c, Flat(p), Flat(q), Flat(u), Flat(v)) && Dealing(compare, p, q, size, u, v)
        invariant dest == (if |u| == |v| then 2 - base else 3 - base)
        invariant |u| + |v| + |p| == |a|
        decreases |p|
      {
        assert TapeOk(base);
        LeadingIsLeading(compare, p, q, size);
        ghost var z := MergePair(compare, base, dest, size, c, Leading(p), Leading(q),
                                 Flat(p), Flat(q), Flat(u), Flat(v));
        PairDealt(compare, p, q, size, u, v, z);
        u, v := DealtTo(u, v, z).0, DealtTo(u, v, z).1;
        p, q := Rest(p), Rest(q);
        dest := if dest == 2 - base then 3 - base else 2 - base;
      }
      assert TapeOk(base);
      FlatEmpty(compare, p, size);
    }

    /** Puts a record at the front of a tape. */
    method PushFront(k: nat, id: nat)
      requires Valid() && k < 4 && id < |next| && Occurs(contents, id) == 0
      modifies this`next, this`tape, this`contents
      ensures Valid() && contents == old(contents)[k := [id] + old(contents)[k]]
      ensures next == old(next)[id := old(tape)[k].first] && tape[k].first == Rec(id)
      ensures forall l :: 0 <= l < 4 && l != k ==> tape[l] == old(tape)[l]
    {
      ghost var c := contents;
      ghost var linked := next[id := tape[k].first];
      forall l | 0 <= l < 4 ensures Chained(linked, tape[l].first, c[l]) && tape[l].count == |c[l]| {
        assert TapeOk(l);
        Absent(c, l, id);
        ChainedElsewhere(next, tape[l].first, c[l], id, tape[k].first);
      }
      RelinkedPushed(origin, next, c, c[k := [id] + c[k]], k, id, tape[k].first);
      next := next[id := tape[k].first];
      ChainedCons(next, tape[k].first, c[k], id);
      tape := tape[k := tape[k].(first := Rec(id), count := tape[k].count + 1)];
      contents := contents[k := [id] + c[k]];
      forall l | 0 <= l < 4 ensures TapeOk(l) {
        assert l != k ==> old(TapeOk(l));
      }
      PushKeepsOnce(c, contents, k, id);
    }

    /** Deals the records of a list alternately onto the first two tapes, blocks of one record each. */
    method Distribute(first: Pointer, end: Pointer, junk: Pointer, ghost list: seq<nat>)
      requires IsList(next, first, end, list) && !end.Rec?
      modifies this
      ensures Valid() && contents[2] == [] == contents[3] && origin == old(next)
      ensures |contents[0]| == |contents[1]| || |contents[0]| == |contents[1]| + 1
      ensures DealtFrom(contents[0], list, 0) && DealtFrom(contents[1], list, 1)
      ensures forall r :: Occurs(contents, r) == Count(list, r)
      ensures |contents[0]| + |contents[1]| == |list|
      ensures list == [] ==> tape[0].first == Null
      ensures |list| == 1 ==> next[list[0]] == Null && contents[0] == list
    {
      EmptyTapes(junk);
      assert list[0..] == list;
      DealAll(first, end, list);
      assert list[..|list|] == list;
    }

    /** The loop of the distribution. */
    method DealAll(first: Pointer, end: Pointer, ghost list: seq<nat>)
      requires Distributed(first, end, list, 0) && !end.Rec?
      modifies this`next, this`tape, this`contents
      ensures Distributed(end, end, list, |list|)
    {
      var p, base := first, 0;
      ghost var t: nat := 0;
      while p != end
        invariant Distributed(p, end, list, t)
        invariant base == (if |contents[0]| == |contents[1]| then 0 else 1)
        decreases |list| - t
      {
        p := DealRecord(p, end, base, list, t);
        base := 1 - base;
        t := t + 1;
      }
      AllDealt(next, p, end, list, t);
    }

    method EmptyTapes(junk: Pointer)
      modifies this`tape, this`contents, this`origin
      ensures Valid() && contents == [[], [], [], []] && origin == next && tape[0].first == Null
    {
      tape := [Tape(Null, junk, 0), Tape(junk, junk, 0), Tape(junk, junk, 0), Tape(junk, junk, 0)];
      contents, origin := [[], [], [], []], next;
      forall k | 0 <= k < 4 ensures TapeOk(k) {
      }
    }

    /** After `t` records: what was dealt is on two tapes, the rest of the list is still linked. */
    ghost predicate Distributed(p: Pointer, end: Pointer, list: seq<nat>, t: nat)
      reads this
    {
      && Valid() && contents[2] == [] == contents[3]
      && t <= |list| && Remains(next, p, end, list, t)
      && (|contents[0]| == |contents[1]| || |contents[0]| == |contents[1]| + 1)
      && |contents[0]| + |contents[1]| == t
      && (forall r :: Occurs(contents, r) == Count(list[..t], r))
      && DealtFrom(contents[0], list, 0) && DealtFrom(contents[1], list, 1)
      && (t == 0 ==> tape[0].first == Null)
      && (t == 1 ==> list[0] < |next| && next[list[0]] == Null && contents[0] == [list[0]])
    }

    /** Moves one record from the list to the front of a tape. */
    method DealRecord(p: Pointer, end: Pointer, base: nat, ghost list: seq<nat>, ghost t: nat)
        returns (following: Pointer)
      requires Distributed(p, end, list, t) && p != end && !end.Rec?
      requires base == (if |contents[0]| == |contents[1]| then 0 else 1)
      modifies this`next, this`tape, this`contents
      ensures Distributed(following, end, list, t + 1)
      ensures base == 1 <==> |contents[0]| == |contents[1]|
    {
      ghost var c := contents;
      NextOfRemains(next, p, end, list, t);
      following := next[p.id];
      NotYet(list, t);
      assert Occurs(contents, list[t]) == Count(list[..t], list[t]);
      RemainsAfter(next, p, end, list, t, tape[base].first);
      DealtMore(contents[base], list, base);
      PushFront(base, p.id);
      DealtCounts(c, contents, base, list, t);
    }

    /**
     Sorts the list that starts at `first` by relinking its records.  The result is
     a proper list of the same records in order; it ends in the given marker unless
     it has fewer than two records, in which case it ends in the null pointer.
     */
    method Sort(compare: Comparison, first: Pointer, end: Pointer, junk: Pointer, ghost list: seq<nat>)
        returns (r: Pointer, count: nat, ghost sorted: seq<nat>)
      requires TotalPreorder(compare) && IsList(next, first, end, list) && !end.Rec?
      modifies this
      ensures Sorted(compare, sorted) && multiset(sorted) == multiset(list) && count == |list|
      ensures IsList(next, r, if |list| < 2 then Null else end, sorted)
      ensures IsList(next, r, end, sorted) <==> |list| >= 2 || end == Null
      ensures |next| == |old(next)| && forall x | 0 <= x < |next| && x !in list :: next[x] == old(next)[x]
    {
      Distribute(first, end, junk, list);
      ghost var c := contents;
      var base := MergeAll(compare, list);
      r, count, sorted := tape[base].first, tape[base].count, contents[base];
      assert TapeOk(base);
      TapeDistinct(contents, base);
      if count > 1 {
        EndTape(base, end);
      }
      OthersKept(origin, next, c, contents, list);
    }

    /** Closes a tape with the marker of the list. */
    method EndTape(base: nat, end: Pointer)
      requires Valid() && base < 4 && contents[base] != [] && LastOk(base)
      modifies this`next
      ensures Chained(next, tape[base].first, contents[base]) && next[contents[base][|contents[base]| - 1]] == end
      ensures Elsewhere(origin, next, contents)
    {
      assert TapeOk(base);
      ChainedEnd(next, tape[base].first, contents, base, end);
      ghost var linked := RelinkedLast(origin, next, contents, contents, base, end);
      next := next[tape[base].last.id := end];
    }

    /** Repeats passes until one sorted block is left. */
    method MergeAll(compare: Comparison, ghost list: seq<nat>) returns (base: nat)
      requires TotalPreorder(compare) && Valid() && contents[2] == [] == contents[3]
      requires |contents[0]| == |contents[1]| || |contents[0]| == |contents[1]| + 1
      requires |contents[0]| + |contents[1]| == |list| && forall r :: Occurs(contents, r) == Count(list, r)
      modifies this`next, this`tape, this`contents
      ensures Valid() && (base == 0 || base == 2) && |contents[base]| == |list|
      ensures Sorted(compare, contents[base]) && multiset(contents[base]) == multiset(list)
      ensures |list| >= 2 ==> LastOk(base)
      ensures SameRecords(old(contents), contents)
      ensures |list| < 2 ==> base == 0 && contents == old(contents) && tape == old(tape) && next == old(next)
    {
      ghost var c := contents;
      ghost var a, b := Singles(contents[0]), Singles(contents[1]);
      SinglesDealt(compare, contents[0], contents[1]);
      base := 0;
      var size: nat := 1;
      while tape[base + 1].count != 0
        invariant Sorting(compare, base, size, c, a, b)
        invariant size > 1 ==> LastOk(base)
        invariant size == 1 ==> base == 0 && contents == c && tape == old(tape) && next == old(next)
        invariant |list| < 2 ==> size == 1
        decreases |a| + |b|
      {
        assert TapeOk(base + 1);
        assert b != [];
        a, b := Pass(compare, base, size, a, b);
        base, size := 2 - base, 2 * size;
      }
      assert TapeOk(base + 1);
      OneBlockLeft(compare, a, b, size, list, contents, c, base);
    }

    /** Between two passes: all records are on two tapes, in blocks dealt out alternately. */
    ghost predicate Sorting(compare: Comparison, base: nat, size: nat, c: seq<seq<nat>>,
                            a: seq<seq<nat>>, b: seq<seq<nat>>)
      requires |c| == 4
      reads this
    {
      && Valid() && (base == 0 || base == 2) && size > 0
      && contents[2 - base] == [] == contents[3 - base]
      && SameRecords(c, contents) && Size(contents) == Size(c)
      && Dealt(compare, a, b, size) && contents[base] == Flat(a) && contents[base + 1] == Flat(b)
    }
  }

  ghost function Size(c: seq<seq<nat>>): nat
    requires |c| == 4
  {
    |c[0]| + |c[1]| + |c[2]| + |c[3]|
  }

  /** When the second tape is empty the first holds the whole list as one sorted block. */
  lemma OneBlockLeft(compare: Comparison, a: seq<seq<nat>>, b: seq<seq<nat>>, size: nat, list: seq<nat>,
                     contents: seq<seq<nat>>, c: seq<seq<nat>>, base: nat)
    requires |c| == 4 == |contents| && (base == 0 || base == 2)
    requires Dealt(compare, a, b, size) && contents[base] == Flat(a) && contents[base + 1] == Flat(b)
    requires contents[base + 1] == [] == contents[2 - base] == contents[3 - base]
    requires SameRecords(c, contents) && Size(contents) == Size(c) == |list|
    requires forall r :: Occurs(c, r) == Count(list, r)
    ensures Sorted(compare, contents[base]) && |contents[base]| == |list|
    ensures multiset(contents[base]) == multiset(list)
    ensures |list| <= size
  {
    var s := contents[base];
    FlatEmpty(compare, b, size);
    if |a| == 1 {
      assert a[1..] == [] && BlockOk(compare, a[0], size);
      assert Flat(a) == a[0];
    }
    forall r: nat ensures multiset(s)[r] == multiset(list)[r] {
      CountIsMultiplicity(s, r);
      CountIsMultiplicity(list, r);
      assert Occurs(c, r) == Occurs(contents, r);
      assert Occurs(c, r) == Count(list, r);
    }
    forall x: nat ensures x in multiset(s) <==> x in multiset(list) {
      assert multiset(s)[x] == multiset(list)[x];
    }
  }

  lemma OthersKept(n0: seq<Pointer>, n: seq<Pointer>, c: seq<seq<nat>>, c': seq<seq<nat>>, list: seq<nat>)
    requires |c| == 4 == |c'| && SameRecords(c, c') && Elsewhere(n0, n, c')
    requires forall r :: Occurs(c, r) == Count(list, r)
    ensures forall x | 0 <= x < |n| && x !in list :: n[x] == n0[x]
  {
    forall x | 0 <= x < |n| && x !in list
      ensures n[x] == n0[x]
    {
      assert LinkKept(n0, n, c', x) && Occurs(c, x) == Occurs(c', x) && Occurs(c, x) == Count(list, x);
      CountNone(list, x);
    }
  }

  lemma ChainedEnd(next: seq<Pointer>, first: Pointer, c: seq<seq<nat>>, k: nat, end: Pointer)
    requires |c| == 4 && k < 4 && NoneTwice(c) && Chained(next, first, c[k]) && c[k] != []
    ensures Chained(next[c[k][|c[k]| - 1] := end], first, c[k])
  {
    var s := c[k];
    var next' := next[s[|s| - 1] := end];
    forall i | 0 <= i < |s| - 1 ensures LinkAt(next', s, i) {
      OnceOnTape(c, k, i, |s| - 1);
      assert LinkAt(next, s, i);
    }
  }

  /** What is left of the list after `t` records: untouched, and properly ended. */
  ghost predicate Remains(next: seq<Pointer>, p: Pointer, end: Pointer, list: seq<nat>, t: nat)
    requires t <= |list|
  {
    && Chained(next, p, list[t..])
    && (t == |list| ==> p == end)
    && (t < |list| ==> list[|list| - 1] < |next| && next[list[|list| - 1]] == end)
    && NoRepeats(list)
  }

  lemma AllDealt(next: seq<Pointer>, p: Pointer, end: Pointer, list: seq<nat>, t: nat)
    requires t <= |list| && Remains(next, p, end, list, t) && p == end && !end.Rec?
    ensures t == |list|
  {
  }

  ghost predicate DealtAt(s: seq<nat>, list: seq<nat>, k: nat, j: nat)
    requires j < |s|
  {
    var at := 2 * (|s| - 1 - j) + k;
    at < |list| && s[j] == list[at]
  }

  /** A tape of every other record of the list from position k on, the last one first. */
  ghost predicate DealtFrom(s: seq<nat>, list: seq<nat>, k: nat) {
    forall j | 0 <= j < |s| :: DealtAt(s, list, k, j)
  }

  lemma DealtMore(s: seq<nat>, list: seq<nat>, k: nat)
    requires 2 * |s| + k < |list| && DealtFrom(s, list, k)
    ensures DealtFrom([list[2 * |s| + k]] + s, list, k)
  {
    var s' := [list[2 * |s| + k]] + s;
    forall j | 0 <= j < |s'|
      ensures DealtAt(s', list, k, j)
    {
      if j > 0 {
        var i := j - 1;
        assert DealtAt(s, list, k, i);
      }
    }
  }

  lemma DealtCounts(c: seq<seq<nat>>, c': seq<seq<nat>>, k: nat, list: seq<nat>, t: nat)
    requires |c| == 4 && k < 4 && t < |list| && c' == c[k := [list[t]] + c[k]]
    requires forall r :: Occurs(c, r) == Count(list[..t], r)
    ensures forall r :: Occurs(c', r) == Count(list[..t + 1], r)
  {
    assert list[..t + 1] == list[..t] + [list[t]];
    forall r ensures Occurs(c', r) == Count(list[..t + 1], r) {
      assert Occurs(c, r) == Count(list[..t], r);
      CountSnoc(list[..t], list[t], r);
      PushOccurs(c, c', k, list[t], r);
    }
  }

  lemma NextOfRemains(next: seq<Pointer>, p: Pointer, end: Pointer, list: seq<nat>, t: nat)
    requires t <= |list| && Remains(next, p, end, list, t) && p != end && !end.Rec?
    ensures t < |list| && p == Rec(list[t]) && list[t] < |next|
    ensures next[list[t]] == if t + 1 < |list| then Rec(list[t + 1]) else end
  {
    assert t + 1 < |list| ==> LinkAt(next, list[t..], 0);
  }

  lemma RemainsAfter(next: seq<Pointer>, p: Pointer, end: Pointer, list: seq<nat>, t: nat, q: Pointer)
    requires t < |list| && Remains(next, p, end, list, t) && list[t] < |next|
    ensures Remains(next[list[t] := q], next[list[t]], end, list, t + 1)
  {
    ChainedRest(next, p, list[t..]);
    assert list[t..][1..] == list[t + 1..];
    if t + 1 == |list| {
      assert next[list[t]] == end;
    }
    ChainedElsewhere(next, next[list[t]], list[t + 1..], list[t], q);
  }

  lemma NotYet(list: seq<nat>, t: nat)
    requires t < |list| && NoRepeats(list)
    ensures Count(list[..t], list[t]) == 0
  {
    CountNone(list[..t], list[t]);
  }

  lemma {:induction false} CountNone(s: seq<nat>, r: nat)
    requires r !in s
    ensures Count(s, r) == 0
    decreases |s|
  {
    if s != [] {
      CountNone(s[1..], r);
    }
  }

  lemma Absent(c: seq<seq<nat>>, k: nat, x: nat)
    requires |c| == 4 && k < 4 && Occurs(c, x) == 0
    ensures x !in c[k]
  {
    if x in c[k] {
      var i :| 0 <= i < |c[k]| && c[k][i] == x;
      CountAt(c[k], i, x);
    }
  }

  lemma ChainedCons(next: seq<Pointer>, first: Pointer, s: seq<nat>, x: nat)
    requires Chained(next, first, s) && x < |next| && next[x] == first
    ensures Chained(next, Rec(x), [x] + s)
  {
    forall i | 0 <= i < |[x] + s| - 1 ensures LinkAt(next, [x] + s, i) {
      assert i > 0 ==> LinkAt(next, s, i - 1);
    }
  }

  lemma PushOccurs(c: seq<seq<nat>>, c': seq<seq<nat>>, k: nat, x: nat, r: nat)
    requires |c| == 4 && k < 4 && c' == c[k := [x] + c[k]]
    ensures Occurs(c', r) == Occurs(c, r) + if x == r then 1 else 0
  {
    assert ([x] + c[k])[1..] == c[k];
  }

  lemma PushKeepsOnce(c: seq<seq<nat>>, c': seq<seq<nat>>, k: nat, x: nat)
    requires |c| == 4 && k < 4 && c' == c[k := [x] + c[k]] && NoneTwice(c) && Occurs(c, x) == 0
    ensures NoneTwice(c')
  {
    forall r ensures Occurs(c', r) <= 1 {
      PushOccurs(c, c', k, x, r);
    }
  }

  ghost function Singles(s: seq<nat>): seq<seq<nat>> {
    seq(|s|, i requires 0 <= i < |s| => [s[i]])
  }

  lemma {:induction false} FlatSingles(s: seq<nat>)
    ensures Flat(Singles(s)) == s
    decreases |s|
  {
    if s != [] {
      assert Singles(s)[1..] == Singles(s[1..]);
      FlatSingles(s[1..]);
    }
  }

  lemma SinglesDealt(compare: Comparison, s: seq<nat>, t: seq<nat>)
    requires |s| == |t| || |s| == |t| + 1
    ensures Dealt(compare, Singles(s), Singles(t), 1)
    ensures Flat(Singles(s)) == s && Flat(Singles(t)) == t
  {
    FlatSingles(s);
    FlatSingles(t);
  }

  /** The output tapes with one more block, on the tape whose turn it is. */
  ghost function DealtTo(u: seq<seq<nat>>, v: seq<seq<nat>>, z: seq<nat>): (seq<seq<nat>>, seq<seq<nat>>) {
    if |u| == |v| then (u + [z], v) else (u, v + [z])
  }

  /** How merging one pair of blocks shows on the tapes and in the dealing. */
  lemma PairDealt(compare: Comparison, p: seq<seq<nat>>, q: seq<seq<nat>>, size: nat,
                  u: seq<seq<nat>>, v: seq<seq<nat>>, z: seq<nat>)
    requires Dealing(compare, p, q, size, u, v) && p != [] && size > 0
    requires Sorted(compare, z) && |z| == |Leading(p)| + |Leading(q)|
    ensures Dealing(compare, Rest(p), Rest(q), size, DealtTo(u, v, z).0, DealtTo(u, v, z).1)
    ensures |Leading(p)| <= |Flat(p)| && Flat(p)[|Leading(p)|..] == Flat(Rest(p))
    ensures |Leading(q)| <= |Flat(q)| && Flat(q)[|Leading(q)|..] == Flat(Rest(q))
    ensures Flat(DealtTo(u, v, z).0) == if |u| == |v| then Flat(u) + z else Flat(u)
    ensures Flat(DealtTo(u, v, z).1) == if |u| == |v| then Flat(v) else Flat(v) + z
  {
    DealOne(compare, p, q, size, u, v, z);
    FlatRest(p);
    FlatRest(q);
    FlatSnoc(u, z);
    FlatSnoc(v, z);
  }

  ghost function Leading(blocks: seq<seq<nat>>): seq<nat> {
    if blocks == [] then [] else blocks[0]
  }

  ghost function Rest(blocks: seq<seq<nat>>): seq<seq<nat>> {
    if blocks == [] then [] else blocks[1..]
  }

  lemma FlatRest(blocks: seq<seq<nat>>)
    ensures |Leading(blocks)| <= |Flat(blocks)| && Flat(blocks)[|Leading(blocks)|..] == Flat(Rest(blocks))
  {
  }

  lemma FlatEmpty(compare: Comparison, blocks: seq<seq<nat>>, size: nat)
    requires BlocksOk(compare, blocks, size) && Flat(blocks) == []
    ensures blocks == []
  {
    assert blocks != [] ==> BlockOk(compare, blocks[0], size);
  }

  /** A pass under way: what is left to merge and what has been merged are both dealt properly. */
  ghost predicate Dealing(compare: Comparison, p: seq<seq<nat>>, q: seq<seq<nat>>, size: nat,
                          u: seq<seq<nat>>, v: seq<seq<nat>>) {
    && Dealt(compare, p, q, size) && Dealt(compare, u, v, 2 * size)
    && (p != [] ==> Full(u, 2 * size, false) && Full(v, 2 * size, false))
  }

  lemma LeadingIsLeading(compare: Comparison, p: seq<seq<nat>>, q: seq<seq<nat>>, size: nat)
    requires Dealt(compare, p, q, size)
    ensures IsLeading(Leading(p), Flat(p), size) && Sorted(compare, Leading(p))
    ensures IsLeading(Leading(q), Flat(q), size) && Sorted(compare, Leading(q))
  {
    if p != [] {
      assert BlockOk(compare, p[0], size);
      if |p| == 1 {
        assert p[1..] == [];
      }
    }
    if q != [] {
      assert BlockOk(compare, q[0], size);
      if |q| == 1 {
        assert q[1..] == [];
      }
    }
  }

  /** Merging the leading blocks keeps everything dealt: only the last result can be short. */
  lemma DealOne(compare: Comparison, p: seq<seq<nat>>, q: seq<seq<nat>>, size: nat,
                u: seq<seq<nat>>, v: seq<seq<nat>>, z: seq<nat>)
    requires Dealing(compare, p, q, size, u, v) && p != [] && size > 0
    requires Sorted(compare, z) && |z| == |Leading(p)| + |Leading(q)|
    ensures Dealing(compare, Rest(p), Rest(q), size, DealtTo(u, v, z).0, DealtTo(u, v, z).1)
  {
    assert BlockOk(compare, p[0], size) && (q != [] ==> BlockOk(compare, q[0], size));
    RestDealt(compare, p, q, size);
    BlockDealt(compare, u, v, 2 * size, z);
  }

  lemma RestDealt(compare: Comparison, p: seq<seq<nat>>, q: seq<seq<nat>>, size: nat)
    requires Dealt(compare, p, q, size) && p != []
    ensures Dealt(compare, Rest(p), Rest(q), size)
  {
  }

  lemma BlockDealt(compare: Comparison, u: seq<seq<nat>>, v: seq<seq<nat>>, size: nat, z: seq<nat>)
    requires Dealt(compare, u, v, size) && Full(u, size, false) && Full(v, size, false) && BlockOk(compare, z, size)
    ensures Dealt(compare, DealtTo(u, v, z).0, DealtTo(u, v, z).1, size)
    ensures |z| == size ==> Full(DealtTo(u, v, z).0, size, false) && Full(DealtTo(u, v, z).1, size, false)
  {
  }

  /** `x` is the leading block of the tape: a full one, or all there is. */
  ghost predicate IsLeading(x: seq<nat>, s: seq<nat>, size: nat) {
    x <= s && |x| <= size && (|x| < size ==> x == s)
  }

  lemma StillLeading(x: seq<nat>, s: seq<nat>, size: nat, i: nat)
    requires IsLeading(x, s, size) && i <= |x|
    ensures IsLeading(x[i..], s[i..], size - i)
    ensures i < |x| ==> s[i] == x[i] && x[i..][0] == x[i]
  {
  }

  /** `z` is sorted and may stand before what is left of both blocks. */
  ghost predicate MergedSoFar(compare: Comparison, x: seq<nat>, y: seq<nat>, i: nat, j: nat, z: seq<nat>) {
    && i <= |x| && j <= |y| && |z| == i + j
    && Sorted(compare, x) && Sorted(compare, y) && Sorted(compare, z)
    && Below(compare, z, x[i..]) && Below(compare, z, y[j..])
  }

  lemma SoFarFirst(compare: Comparison, x: seq<nat>, y: seq<nat>, i: nat, j: nat, z: seq<nat>)
    requires TotalPreorder(compare) && MergedSoFar(compare, x, y, i, j, z)
    requires i < |x| && (j < |y| ==> compare(x[i], y[j]) <= 0)
    ensures MergedSoFar(compare, x, y, i + 1, j, z + [x[i]])
  {
    TakeHead(compare, z, x[i..], y[j..]);
    assert x[i..][1..] == x[i + 1..];
  }

  lemma SoFarSecond(compare: Comparison, x: seq<nat>, y: seq<nat>, i: nat, j: nat, z: seq<nat>)
    requires TotalPreorder(compare) && MergedSoFar(compare, x, y, i, j, z)
    requires j < |y| && (i < |x| ==> compare(y[j], x[i]) <= 0)
    ensures MergedSoFar(compare, x, y, i, j + 1, z + [y[j]])
  {
    TakeHead(compare, z, y[j..], x[i..]);
    assert y[j..][1..] == y[j + 1..];
  }

  datatype Choice = Neither | First | Second

  /** The tapes when `i` and `j` records have been taken off the inputs and `z` put on the output. */
  ghost function Merged(c: seq<seq<nat>>, base: nat, out: nat, i: nat, j: nat, z: seq<nat>): seq<seq<nat>>
    requires |c| == 4 && base + 1 < 4 && out < 4 && out != base && out != base + 1
    requires i <= |c[base]| && j <= |c[base + 1]|
  {
    c[base := c[base][i..]][base + 1 := c[base + 1][j..]][out := c[out] + z]
  }

  lemma MergedNone(c: seq<seq<nat>>, base: nat, out: nat)
    requires |c| == 4 && base + 1 < 4 && out < 4 && out != base && out != base + 1
    ensures Merged(c, base, out, 0, 0, []) == c
  {
    assert c[base][0..] == c[base] && c[base + 1][0..] == c[base + 1] && c[out] + [] == c[out];
  }

  lemma MergedFirst(c: seq<seq<nat>>, base: nat, out: nat, i: nat, j: nat, z: seq<nat>)
    requires |c| == 4 && base + 1 < 4 && out < 4 && out != base && out != base + 1
    requires i < |c[base]| && j <= |c[base + 1]|
    ensures Moved(Merged(c, base, out, i, j, z), base, out) == Merged(c, base, out, i + 1, j, z + [c[base][i]])
  {
    assert c[base][i..][1..] == c[base][i + 1..];
    assert c[out] + z + [c[base][i]] == c[out] + (z + [c[base][i]]);
  }

  lemma MergedSecond(c: seq<seq<nat>>, base: nat, out: nat, i: nat, j: nat, z: seq<nat>)
    requires |c| == 4 && base + 1 < 4 && out < 4 && out != base && out != base + 1
    requires i <= |c[base]| && j < |c[base + 1]|
    ensures Moved(Merged(c, base, out, i, j, z), base + 1, out) == Merged(c, base, out, i, j + 1, z + [c[base + 1][j]])
  {
    assert c[base + 1][j..][1..] == c[base + 1][j + 1..];
    assert c[out] + z + [c[base + 1][j]] == c[out] + (z + [c[base + 1][j]]);
  }
}
