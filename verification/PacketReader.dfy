/**
 * The packet reader of packet.c: a bounded cursor over borrowed bytes with a sticky
 * error, and the round trip from writer to reader.
 */
module PacketReader {
  import opened PacketFormat
  import opened PacketWriter

  datatype Cursor = Cursor(data: Bytes, pos: nat, error: Error)

  predicate Bounded(c: Cursor) {
    c.pos <= |c.data|
  }

  /** What a read of the kind does to the cursor. */
  function After(c: Cursor, k: Kind): (r: Cursor)
    requires Bounded(c)
    ensures Bounded(r) && r.data == c.data
  {
    if c.error != Fine then c
    else
      match Decode(k, c.data, c.pos)
      case Done(_, q) => c.(pos := q)
      case Failed(e) => c.(error := e)
  }

  /** What the read returns: the field, or zero after any error. */
  function Got(c: Cursor, k: Kind): Value
    requires Bounded(c)
  {
    var blank := if k.Unsigned? || k.Signed? then Number(0) else Chunk([]);
    if c.error != Fine then blank
    else
      match Decode(k, c.data, c.pos)
      case Done(v, _) => v
      case Failed(_) => blank
  }

  function Finished(c: Cursor): Cursor {
    if c.error == Fine && c.pos != |c.data| then c.(error := TrailingData) else c
  }

  class Reader {
    const data: Bytes
    var pos: nat
    var error: Error

    ghost predicate Valid()
      reads this
    {
      pos <= |data|
    }

    ghost function Model(): Cursor
      reads this
    {
      Cursor(data, pos, error)
    }

    /** packet_reader_init_at on data that is there. */
    constructor (data: Bytes, pos: nat)
      ensures Valid()
      ensures Model() == if pos <= |data| then Cursor(data, pos, Fine) else Cursor(data, 0, InvalidEncoding)
    {
      this.data := data;
      this.pos := pos;
      this.error := Fine;
      new;
      if this.pos > |this.data| {
        this.pos := 0;
        Fail(InvalidEncoding);
      }
    }

    /** packet_reader_fail: the first error stays. */
    method Fail(e: Error)
      modifies this`error
      ensures error == if old(error) == Fine then e else old(error)
    {
      if error == Fine {
        error := e;
      }
    }

    /** packet_reader_remaining. */
    method Remaining() returns (n: nat)
      requires Valid()
      ensures n == |data| - pos
    {
      n := |data| - pos;
    }

    /** packet_reader_take: the only way forward for everything but strings. */
    method Take(n: nat) returns (ok: bool, view: Bytes)
      requires Valid()
      modifies this
      ensures Valid()
      ensures ok <==> old(error) == Fine && old(pos) + n <= |data|
      ensures ok ==> pos == old(pos) + n && view == data[old(pos)..pos] && error == Fine
      ensures !ok ==> view == [] && pos == old(pos)
      ensures !ok ==> error == if old(error) == Fine then Truncated else old(error)
    {
      if error != Fine {
        return false, [];
      }
      var remaining := Remaining();
      if n > remaining {
        Fail(Truncated);
        return false, [];
      }
      if n == 0 {
        return true, [];
      }
      view := data[pos..pos + n];
      pos := pos + n;
      return true, view;
    }

    /** packet_reader_skip. */
    method Skip(n: nat) returns (ok: bool)
      requires Valid()
      modifies this
      ensures Valid()
      ensures ok <==> error == Fine
      ensures Model() == After(old(Model()), Raw(n))
    {
      if n == 0 && error == Fine {
        return true;
      }
      var view;
      ok, view := Take(n);
    }

    /** packet_reader_read_view. */
    method ReadView(n: nat) returns (view: Bytes)
      requires Valid()
      modifies this
      ensures Valid()
      ensures Model() == After(old(Model()), Raw(n))
      ensures Chunk(view) == Got(old(Model()), Raw(n))
    {
      var ok;
      ok, view := Take(n);
    }

    /** packet_reader_read_uint8/16/32/64. */
    method ReadUnsigned(width: nat) returns (n: nat)
      requires Valid()
      modifies this
      ensures Valid()
      ensures Model() == After(old(Model()), Unsigned(width))
      ensures Number(n) == Got(old(Model()), Unsigned(width))
    {
      var ok, view := Take(width);
      n := 0;
      if ok {
        var i := 0;
        while i < |view|
          invariant 0 <= i <= |view|
          invariant n == FromBigEndian(view[..i])
        {
          n := 256 * n + view[i];
          i := i + 1;
          assert view[..i][..i - 1] == view[..i - 1];
        }
        assert view[..i] == view;
      }
    }

    /** packet_reader_read_int8/16/32/64: the same bits, read as two's complement. */
    method ReadSigned(width: nat) returns (n: int)
      requires Valid()
      modifies this
      ensures Valid()
      ensures Model() == After(old(Model()), Signed(width))
      ensures Number(n) == Got(old(Model()), Signed(width))
    {
      var u := ReadUnsigned(width);
      n := FromPattern(u, width);
    }

    /** memchr for NUL over the first n bytes at the cursor. */
    method FindNul(n: nat) returns (i: nat)
      requires Valid() && pos + n <= |data|
      ensures i <= n && 0 !in data[pos..pos + i]
      ensures i < n ==> data[pos + i] == 0
    {
      i := 0;
      while i < n && data[pos + i] != 0
        invariant 0 <= i <= n && 0 !in data[pos..pos + i]
      {
        SliceSnoc(data, pos, i);
        i := i + 1;
      }
    }

    /** packet_reader_read_string_view. */
    method ReadText(bound: nat) returns (view: Bytes)
      requires Valid() && bound <= SIZE_MAX && |data| <= SIZE_MAX
      modifies this
      ensures Valid()
      ensures Model() == After(old(Model()), Text(bound))
      ensures Chunk(view) == Got(old(Model()), Text(bound))
    {
      if error != Fine {
        return [];
      }
      var remaining := Remaining();
      if remaining == 0 {
        Fail(Truncated);
        return [];
      }
      var reach := bound + (if bound != SIZE_MAX then 1 else 0);
      var search := if remaining < reach then remaining else reach;
      var n := FindNul(search);
      ScanDecides(data, pos, bound, search, n);
      if n == search {
        Fail(if remaining > bound then LimitExceeded else Truncated);
        return [];
      }
      // n is within the bound here, so the second length check cannot fire
      view := data[pos..pos + n];
      pos := pos + n + 1;
    }

    /** packet_reader_finish. */
    method Finish() returns (ok: bool)
      requires Valid()
      modifies this`error
      ensures Model() == Finished(old(Model()))
      ensures ok <==> error == Fine
    {
      if error == Fine && pos != |data| {
        Fail(TrailingData);
      }
      ok := error == Fine;
    }
  }

  /** What a scan of the bytes at p says about the longest NUL-free run there. */
  lemma NulFreeFrom(data: Bytes, p: nat, n: nat)
    requires p + n <= |data| && 0 !in data[p..p + n]
    ensures NulFree(data[p..]) >= n
    ensures p + n == |data| || data[p + n] == 0 ==> NulFree(data[p..]) == n
  {
    var s := data[p..];
    assert s[..n] == data[p..p + n];
    NulFreeAtLeast(s, n);
    if p + n == |data| || data[p + n] == 0 {
      NulFreeIs(s, n);
    }
  }

  /** How far to look is enough to tell what the field is. */
  lemma ScanDecides(data: Bytes, p: nat, bound: nat, search: nat, n: nat)
    requires p <= |data| <= SIZE_MAX && bound <= SIZE_MAX
    requires var reach := bound + (if bound != SIZE_MAX then 1 else 0);
             search == if |data| - p < reach then |data| - p else reach
    requires n <= search && 0 !in data[p..p + n] && (n < search ==> data[p + n] == 0)
    ensures n < search ==> n <= bound && DecodeText(data, p, bound) == Done(data[p..p + n], p + n + 1)
    ensures n == search ==>
              DecodeText(data, p, bound) == Failed(if |data| - p > bound then LimitExceeded else Truncated)
  {
    NulFreeFrom(data, p, n);
  }

  lemma {:induction false} NulFreeAtLeast(s: Bytes, n: nat)
    requires n <= |s| && 0 !in s[..n]
    ensures NulFree(s) >= n
  {
    if n > 0 {
      assert s[0] == s[..n][0];
      assert forall b | b in s[1..][..n - 1] :: b in s[..n];
      NulFreeAtLeast(s[1..], n - 1);
    }
  }

  // ----- Whole runs of a reader -----

  function AfterAll(c: Cursor, ks: Schema): (r: Cursor)
    requires Bounded(c)
    ensures Bounded(r) && r.data == c.data
    decreases |ks|
  {
    if ks == [] then c else AfterAll(After(c, ks[0]), ks[1..])
  }

  function GotAll(c: Cursor, ks: Schema): seq<Value>
    requires Bounded(c)
    decreases |ks|
  {
    if ks == [] then [] else [Got(c, ks[0])] + GotAll(After(c, ks[0]), ks[1..])
  }

  lemma {:induction false} FirstErrorStays(c: Cursor, ks: Schema)
    requires Bounded(c) && c.error != Fine
    ensures AfterAll(c, ks) == c
    decreases |ks|
  {
    if ks != [] {
      FirstErrorStays(c, ks[1..]);
    }
  }

  /**
   * Reading on without looking and checking once at the end is as good as checking every
   * read: the values are those of the strict decoder, the error is its first error.
   */
  lemma {:induction false} CheckOnceAtTheEnd(c: Cursor, ks: Schema)
    requires Bounded(c) && c.error == Fine
    ensures match DecodeAll(ks, c.data, c.pos)
            case Done(vs, q) => AfterAll(c, ks) == c.(pos := q) && GotAll(c, ks) == vs
            case Failed(e) => e != Fine && AfterAll(c, ks).error == e
    decreases |ks|
  {
    if ks != [] {
      var c' := After(c, ks[0]);
      match Decode(ks[0], c.data, c.pos)
      case Done(_, _) => CheckOnceAtTheEnd(c', ks[1..]);
      case Failed(_) => FirstErrorStays(c', ks[1..]);
    }
  }

  // ----- From writer to reader -----

  /** The separate writes that a list of fields is made of. */
  function Writes(ks: Schema, vs: seq<Value>): (xs: seq<Bytes>)
    requires AllFit(ks, vs)
    ensures Concat(xs) == EncodeAll(ks, vs)
  {
    if ks == [] then [] else
      var xs := [Encode(ks[0], vs[0])] + Writes(ks[1..], vs[1..]);
      assert xs[1..] == Writes(ks[1..], vs[1..]);
      xs
  }

  function Open(data: Bytes): Cursor {
    Cursor(data, 0, Fine)
  }

  /**
   * The round trip: what a writer finished without error, a reader with the same schema
   * reads back to the last byte.
   */
  lemma RoundTrip(w: Draft, ks: Schema, vs: seq<Value>)
    requires AllFit(ks, vs) && w.bytes == [] && PutAll(w, Writes(ks, vs)).error == Fine
    ensures var c := Open(PutAll(w, Writes(ks, vs)).bytes);
            GotAll(c, ks) == vs && Finished(AfterAll(c, ks)).error == Fine
  {
    var x := EncodeAll(ks, vs);
    FinishedHoldsAll(w, Writes(ks, vs));
    assert PutAll(w, Writes(ks, vs)).bytes == x;
    assert x[..|x|] == x;
    DecodeAllEncoded(ks, vs, x, x, 0);
    CheckOnceAtTheEnd(Open(x), ks);
  }

  /** Every strict prefix of a message is rejected as truncated. */
  lemma PrefixIsTruncated(ks: Schema, vs: seq<Value>, n: nat)
    requires AllFit(ks, vs) && n < |EncodeAll(ks, vs)|
    ensures Finished(AfterAll(Open(EncodeAll(ks, vs)[..n]), ks)).error == Truncated
  {
    var d := EncodeAll(ks, vs)[..n];
    assert d[0..] == d;
    CutListTruncated(ks, vs, d, 0);
    CheckOnceAtTheEnd(Open(d), ks);
  }

  /** Every proper extension of a message is rejected for its trailing data. */
  lemma ExtensionIsTrailing(ks: Schema, vs: seq<Value>, more: Bytes)
    requires AllFit(ks, vs) && more != []
    ensures Finished(AfterAll(Open(EncodeAll(ks, vs) + more), ks)).error == TrailingData
  {
    var x := EncodeAll(ks, vs);
    var d := x + more;
    assert d[..|x|] == x;
    DecodeAllEncoded(ks, vs, x, d, 0);
    CheckOnceAtTheEnd(Open(d), ks);
  }

  /** A reader finishes without error on exactly the encodings, and returns the one value list they encode. */
  lemma AcceptsExactlyEncodings(data: Bytes, ks: Schema)
    ensures Finished(AfterAll(Open(data), ks)).error == Fine
            <==> exists vs :: AllFit(ks, vs) && EncodeAll(ks, vs) == data
    ensures forall vs | AllFit(ks, vs) && EncodeAll(ks, vs) == data :: GotAll(Open(data), ks) == vs
  {
    var c := Open(data);
    CheckOnceAtTheEnd(c, ks);
    if Finished(AfterAll(c, ks)).error == Fine {
      DecodedAllIsEncoding(ks, data, 0);
      var vs := DecodeAll(ks, data, 0).value;
      assert data[..|data|] == data;
      assert AllFit(ks, vs) && EncodeAll(ks, vs) == data;
    }
    forall vs | AllFit(ks, vs) && EncodeAll(ks, vs) == data
      ensures GotAll(c, ks) == vs && Finished(AfterAll(c, ks)).error == Fine
    {
      assert data[..|data|] == data;
      DecodeAllEncoded(ks, vs, data, data, 0);
    }
  }
}
