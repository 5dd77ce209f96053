/**
 * What is on the wire and what goes wrong, in plain terms: the order of bytes, when a
 * write is refused and with which error, where a string ends, and what a failed read
 * returns.
 */
module PacketBytes {
  import opened PacketFormat
  import opened PacketWriter
  import opened PacketReader

  // ----- The order of bytes -----

  lemma Scaled(a: int, p: int)
    ensures 256 * (a * p) == a * (256 * p)
  {
  }

  lemma LeadDecides(a: int, b: int, p: int, x: int, y: int)
    requires a < b && 0 <= x < p && 0 <= y
    ensures a * p + x < b * p + y
  {
    assert (b - a - 1) * p >= 0;
    assert b * p == a * p + (b - a - 1) * p + p;
  }

  lemma AllButEnds(s: Bytes)
    requires |s| > 1
    ensures var w := |s| - 1;
      s[..w][1..] == s[1..w] == s[1..][..w - 1] && s[..w][0] == s[0] && s[1..][w - 1] == s[w]
  {
  }

  /** The first byte is the most significant one. */
  lemma {:induction false} FirstByteLeads(s: Bytes)
    requires s != []
    ensures FromBigEndian(s) == s[0] * Power256(|s| - 1) + FromBigEndian(s[1..])
  {
    var w := |s| - 1;
    if w > 0 {
      AllButEnds(s);
      FirstByteLeads(s[..w]);
      Scaled(s[0], Power256(w - 1));
      assert Power256(w) == 256 * Power256(w - 1);
      assert FromBigEndian(s[1..]) == 256 * FromBigEndian(s[1..w]) + s[w];
    } else {
      assert s[1..] == [] == s[..0];
    }
  }

  /** Unsigned integers of one width compare like their bytes, from the first on. */
  lemma {:induction false} NumbersCompareByBytes(s: Bytes, t: Bytes, i: nat)
    requires i < |s| == |t| && s[..i] == t[..i] && s[i] < t[i]
    ensures FromBigEndian(s) < FromBigEndian(t)
  {
    FirstByteLeads(s);
    FirstByteLeads(t);
    if i == 0 {
      FromBigEndianRoundTrip(s[1..]);
      LeadDecides(s[0], t[0], Power256(|s| - 1), FromBigEndian(s[1..]), FromBigEndian(t[1..]));
    } else {
      RestAgrees(s, t, i);
      NumbersCompareByBytes(s[1..], t[1..], i - 1);
    }
  }

  lemma RestAgrees(s: Bytes, t: Bytes, i: nat)
    requires 0 < i < |s| == |t| && s[..i] == t[..i]
    ensures s[0] == t[0] && s[1..][..i - 1] == t[1..][..i - 1]
  {
    assert s[0] == s[..i][0] && t[0] == t[..i][0];
    assert s[1..][..i - 1] == s[..i][1..] && t[1..][..i - 1] == t[..i][1..];
  }

  // ----- Writes that are refused -----

  /** There is no room for n bytes within the limit, or none to grow by as much. */
  predicate BeyondLimit(w: Draft, n: nat) {
    |w.bytes| + n > w.limit
  }

  predicate NoGrowth(w: Draft, n: nat) {
    |w.bytes| + n > w.size && w.size + n > w.limit
  }

  /** The i-th write is the first to fail, and fails with the error e. */
  ghost predicate FailsFirst(w: Draft, xs: seq<Bytes>, i: nat, e: Error) {
    && i < |xs| && xs[i] != []
    && var before := PutAll(w, xs[..i]);
       && before.error == Fine && before.bytes == w.bytes + Concat(xs[..i])
       && if BeyondLimit(before, |xs[i]|) then e == LimitExceeded
          else NoGrowth(before, |xs[i]|) && e == SizeOverflow
  }

  lemma {:induction false} PutAllPrefix(w: Draft, xs: seq<Bytes>, i: nat)
    requires 0 < i <= |xs|
    ensures PutAll(w, xs[..i]) == PutAll(Put(w, xs[0]), xs[1..][..i - 1])
    ensures Concat(xs[..i]) == xs[0] + Concat(xs[1..][..i - 1])
  {
    assert xs[..i][1..] == xs[1..][..i - 1];
  }

  /**
   * A writer ends up with an error exactly if some write was the first to fail. What was
   * written before it stays, nothing of it or after it is added, and the error tells
   * whether it went beyond the limit or could not be grown for.
   */
  lemma {:induction false} FirstRefusalDecides(w: Draft, xs: seq<Bytes>) returns (i: nat)
    requires w.error == Fine
    ensures i <= |xs|
    ensures i == |xs| <==> PutAll(w, xs).error == Fine
    ensures i < |xs| ==> FailsFirst(w, xs, i, PutAll(w, xs).error)
    ensures PutAll(w, xs).bytes == w.bytes + Concat(xs[..i])
    decreases |xs|
  {
    i := 0;
    if xs != [] {
      var w' := Put(w, xs[0]);
      if w'.error != Fine {
        ErrorsStick(w', xs[1..]);
        assert xs[..0] == [];
      } else {
        var j := FirstRefusalDecides(w', xs[1..]);
        i := j + 1;
        PutAllPrefix(w, xs, i);
        assert w'.bytes == w.bytes + xs[0];
        if j < |xs| - 1 {
          assert xs[1..][j] == xs[i];
        }
      }
    }
  }

  /** The buffer holds what is written and grows only within the limit, never beyond what a growth step adds. */
  lemma {:induction false} BufferHolds(w: Draft, xs: seq<Bytes>)
    requires |w.bytes| <= w.size
    ensures var w' := PutAll(w, xs);
      && |w'.bytes| <= w'.size && w.size <= w'.size <= Larger(w.size, w.limit)
      && w'.limit == w.limit && w'.expand == w.expand
      && (w'.size == w.size || w.size + w.expand <= w'.size || w'.size == w.limit)
    decreases |xs|
  {
    if xs != [] {
      BufferHolds(Put(w, xs[0]), xs[1..]);
    }
  }

  // ----- Strings -----

  /** The first NUL at or after p stands n bytes further on. */
  predicate EndsAfter(data: Bytes, p: nat, n: nat) {
    p + n < |data| && data[p + n] == 0 && 0 !in data[p..p + n]
  }

  /**
   * A string is read exactly if a NUL follows within the bound; it is too long exactly if
   * more bytes than the bound are there and no NUL among them, and truncated exactly if
   * the data ends before.
   */
  lemma TextReads(data: Bytes, p: nat, bound: nat)
    requires p <= |data|
    ensures forall n: nat | EndsAfter(data, p, n) && n <= bound ::
              DecodeText(data, p, bound) == Done(data[p..p + n], p + n + 1)
    ensures DecodeText(data, p, bound).Done? ==> exists n: nat :: n <= bound && EndsAfter(data, p, n)
    ensures DecodeText(data, p, bound) == Failed(LimitExceeded) <==>
              p + bound < |data| && 0 !in data[p..p + bound + 1]
    ensures DecodeText(data, p, bound) == Failed(Truncated) <==>
              |data| - p <= bound && 0 !in data[p..]
  {
    var n := NulFree(data[p..]);
    assert data[p..][..n] == data[p..p + n];
    if p + n < |data| {
      assert data[p + n] == data[p..][n];
      assert EndsAfter(data, p, n);
    }
    forall m: nat | EndsAfter(data, p, m)
      ensures m == n
    {
      NulFreeFrom(data, p, m);
    }
    if p + bound < |data| {
      TooLongIff(data, p, bound);
    }
    assert p + n == |data| ==> data[p..] == data[p..p + n];
    assert p + n < |data| ==> data[p..][n] in data[p..];
  }

  lemma TooLongIff(data: Bytes, p: nat, bound: nat)
    requires p + bound < |data|
    ensures NulFree(data[p..]) > bound <==> 0 !in data[p..p + bound + 1]
  {
    var n := NulFree(data[p..]);
    assert data[p..][..n] == data[p..p + n];
    if 0 !in data[p..p + bound + 1] {
      NulFreeFrom(data, p, bound + 1);
    }
    if n > bound {
      assert forall i | p <= i < p + bound + 1 :: data[i] == data[p..p + n][i - p];
    }
    assert n <= bound ==> data[p..p + bound + 1][n] == data[p..][n] == 0;
  }

  // ----- Reads that fail -----

  predicate Blank(k: Kind, v: Value) {
    match k
    case Unsigned(_) => v == Number(0)
    case Signed(_) => v == Number(0)
    case _ => v == Chunk([])
  }

  /** From the first failed read on, every read returns zero or nothing, and the cursor stays. */
  lemma {:induction false} BlankAfterError(c: Cursor, ks: Schema, j: nat)
    requires Bounded(c) && j < |ks| && AfterAll(c, ks[..j + 1]).error != Fine
    ensures |GotAll(c, ks)| == |ks| && Blank(ks[j], GotAll(c, ks)[j])
    ensures AfterAll(c, ks[..j + 1]).pos == AfterAll(c, ks[..j]).pos
    decreases |ks|
  {
    var c' := After(c, ks[0]);
    AsManyGot(c, ks);
    if j == 0 {
      assert ks[..1] == [ks[0]] && ks[..1][1..] == [] && ks[..0] == [];
    } else {
      assert ks[..j + 1][1..] == ks[1..][..j] && ks[..j][1..] == ks[1..][..j - 1];
      BlankAfterError(c', ks[1..], j - 1);
    }
  }

  lemma {:induction false} AsManyGot(c: Cursor, ks: Schema)
    requires Bounded(c)
    ensures |GotAll(c, ks)| == |ks|
    decreases |ks|
  {
    if ks != [] {
      AsManyGot(After(c, ks[0]), ks[1..]);
    }
  }
}
