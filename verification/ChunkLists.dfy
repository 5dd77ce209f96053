/**
 * The free lists of mempool.c as values: chunk headers, chains through them, and the
 * free chunks of one puddle. Chunks are numbered; a puddle is a run of consecutive
 * numbers, as its chunks are consecutive in memory.
 */
module ChunkLists {
  import opened Wrappers

  /**
   * What is at an address: nothing (the puddle was given back), or the header of a chunk,
   * which has no link while the chunk is in use, else the next free chunk or the end marker.
   */
  datatype Link = Gone | Nil | End | To(id: nat)

  type Headers = seq<Link>

  predicate IsFree(h: Headers, c: nat) {
    c < |h| && (h[c].End? || h[c].To?)
  }

  predicate IsUsed(h: Headers, c: nat) {
    c < |h| && h[c].Nil?
  }

  predicate Live(h: Headers, c: nat) {
    c < |h| && !h[c].Gone?
  }

  function HeadLink(s: seq<nat>, end: Link): Link {
    if s == [] then end else To(s[0])
  }

  predicate LinkOk(h: Headers, s: seq<nat>, end: Link, i: nat)
    requires i < |s|
  {
    s[i] < |h| && h[s[i]] == HeadLink(s[i + 1..], end)
  }

  /** The links lead through exactly these chunks and then to end. */
  ghost predicate Chain(h: Headers, first: Link, s: seq<nat>, end: Link) {
    first == HeadLink(s, end) && forall i | 0 <= i < |s| :: LinkOk(h, s, end, i)
  }

  predicate SameAt(h: Headers, h': Headers, c: nat) {
    c < |h| && c < |h'| && h[c] == h'[c]
  }

  /** Chains do not mind changes elsewhere. */
  lemma ChainElsewhere(h: Headers, h': Headers, first: Link, s: seq<nat>, end: Link)
    requires Chain(h, first, s, end) && forall c | c in s :: SameAt(h, h', c)
    ensures Chain(h', first, s, end)
  {
    forall i | 0 <= i < |s|
      ensures LinkOk(h', s, end, i)
    {
      assert LinkOk(h, s, end, i);
      assert s[i] in s && SameAt(h, h', s[i]);
    }
  }

  /** A chunk put in front. */
  lemma ChainCons(h: Headers, first: Link, s: seq<nat>, end: Link, c: nat)
    requires Chain(h, first, s, end) && c !in s && c < |h|
    ensures Chain(h[c := first], To(c), [c] + s, end)
  {
    var h', s' := h[c := first], [c] + s;
    forall i | 0 <= i < |s'|
      ensures LinkOk(h', s', end, i)
    {
      if i > 0 {
        assert LinkOk(h, s, end, i - 1);
        assert s'[i] in s && s'[i + 1..] == s[i..];
      } else {
        assert s'[1..] == s;
      }
    }
  }

  /** The first chunk taken off. */
  lemma ChainRest(h: Headers, first: Link, s: seq<nat>, end: Link)
    requires Chain(h, first, s, end) && s != []
    ensures s[0] < |h| && Chain(h, h[s[0]], s[1..], end)
  {
    assert LinkOk(h, s, end, 0);
    forall i | 0 <= i < |s[1..]|
      ensures LinkOk(h, s[1..], end, i)
    {
      assert LinkOk(h, s, end, i + 1);
      assert s[1..][i + 1..] == s[i + 2..];
    }
  }

  /** A new end, written into the last header. */
  lemma ChainNewEnd(h: Headers, first: Link, s: seq<nat>, end: Link, end': Link)
    requires Chain(h, first, s, end) && s != [] && NoRepeats(s)
    ensures s[|s| - 1] < |h| && Chain(h[s[|s| - 1] := end'], first, s, end')
  {
    assert LinkOk(h, s, end, |s| - 1);
    var h' := h[s[|s| - 1] := end'];
    forall i | 0 <= i < |s|
      ensures LinkOk(h', s, end', i)
    {
      assert LinkOk(h, s, end, i);
    }
  }

  /** Two chains, the first of which leads to the second, are one. */
  lemma ChainAppend(h: Headers, first: Link, a: seq<nat>, b: seq<nat>, end: Link)
    requires Chain(h, first, a, HeadLink(b, end)) && Chain(h, HeadLink(b, end), b, end)
    ensures Chain(h, first, a + b, end)
  {
    var s := a + b;
    assert HeadLink(s, end) == HeadLink(a, HeadLink(b, end));
    forall i | 0 <= i < |s|
      ensures LinkOk(h, s, end, i)
    {
      if i < |a| {
        assert LinkOk(h, a, HeadLink(b, end), i);
        assert s[i + 1..] == a[i + 1..] + b;
      } else {
        assert LinkOk(h, b, end, i - |a|);
        assert s[i + 1..] == b[i - |a| + 1..];
      }
    }
  }

  /** Headers in a chain that ends at the marker are links. */
  lemma ChainedIsLinked(h: Headers, first: Link, s: seq<nat>, end: Link, c: nat)
    requires Chain(h, first, s, end) && end == End && c in s
    ensures IsFree(h, c)
  {
    var i: nat :| i < |s| && s[i] == c;
    assert LinkOk(h, s, end, i);
  }

  // ----- Free chunks of a puddle -----

  /** The free chunks among the first j of a puddle at b, last one first. */
  function FreeBelow(h: Headers, b: nat, j: nat): seq<nat> {
    if j == 0 then []
    else
      var c := b + j - 1;
      if IsFree(h, c) then [c] + FreeBelow(h, b, j - 1) else FreeBelow(h, b, j - 1)
  }

  lemma {:induction false} InFreeBelow(h: Headers, b: nat, j: nat, c: nat)
    ensures c in FreeBelow(h, b, j) <==> b <= c < b + j && IsFree(h, c)
  {
    if j > 0 {
      InFreeBelow(h, b, j - 1, c);
    }
  }

  lemma {:induction false} FreeBelowOnce(h: Headers, b: nat, j: nat)
    ensures NoRepeats(FreeBelow(h, b, j)) && |FreeBelow(h, b, j)| <= j
  {
    if j > 0 {
      FreeBelowOnce(h, b, j - 1);
      var c, s := b + j - 1, FreeBelow(h, b, j - 1);
      InFreeBelow(h, b, j - 1, c);
      OneMoreInFront(c, s);
    }
  }

  lemma OneMoreInFront(c: nat, s: seq<nat>)
    requires NoRepeats(s) && c !in s
    ensures NoRepeats([c] + s)
  {
    var t := [c] + s;
    forall i, j | 0 <= i < j < |t|
      ensures t[i] != t[j]
    {
      assert t[j] == s[j - 1] && s[j - 1] in s;
    }
  }

  /** All chunks of a puddle are free exactly when there are as many free ones as chunks. */
  lemma {:induction false} AllFreeIff(h: Headers, b: nat, j: nat)
    ensures |FreeBelow(h, b, j)| == j <==> forall c | b <= c < b + j :: IsFree(h, c)
  {
    FreeBelowOnce(h, b, j);
    if j > 0 {
      AllFreeIff(h, b, j - 1);
      FreeBelowOnce(h, b, j - 1);
      var c := b + j - 1;
      if |FreeBelow(h, b, j)| == j {
        assert IsFree(h, c);
      }
    }
  }
}
