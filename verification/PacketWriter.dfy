/**
 * The packet writer of packet.c: a growable buffer with a payload limit and a
 * sticky error. Draft is its abstract value; Put is what one write does to it.
 */
module PacketWriter {
  import opened PacketFormat

  const SIZE_MAX: nat := 0xFFFF_FFFF_FFFF_FFFF

  /** PACKET_PAYLOAD_MAX. */
  const PAYLOAD_MAX: nat := 65534

  datatype Draft = Draft(bytes: Bytes, size: nat, limit: nat, expand: nat, error: Error)

  /** The packet that packet_new makes. */
  function NewDraft(size: nat, expand: nat): Draft {
    Draft([], size, PAYLOAD_MAX, expand, Fine)
  }

  /**
   * When a write of n bytes goes through: it must fit the limit, and either fit the
   * buffer as it is or leave room for n bytes beyond the whole buffer.
   */
  predicate Room(w: Draft, n: nat) {
    && w.error == Fine
    && |w.bytes| + n <= w.limit
    && (|w.bytes| + n <= w.size || w.size + n <= w.limit)
  }

  function Larger(a: nat, b: nat): nat {
    if a < b then b else a
  }

  function SizeAfter(w: Draft, n: nat): nat {
    if |w.bytes| + n <= w.size then w.size
    else
      var wanted := w.size + Larger(w.expand, n);
      if wanted > w.limit then w.limit else wanted
  }

  function Refusal(w: Draft, n: nat): Error {
    if w.error != Fine then w.error
    else if |w.bytes| + n > w.limit then LimitExceeded
    else SizeOverflow
  }

  /** The effect of writing the bytes x; writing nothing is never refused. */
  function Put(w: Draft, x: Bytes): Draft {
    if x == [] then w
    else if Room(w, |x|) then w.(bytes := w.bytes + x, size := SizeAfter(w, |x|))
    else w.(error := Refusal(w, |x|))
  }

  class Writer {
    var data: array<Byte>
    var len: nat
    var limit: nat
    var expand: nat
    var error: Error

    ghost predicate Valid()
      reads this
    {
      len <= data.Length <= SIZE_MAX && limit <= SIZE_MAX
    }

    ghost function Model(): Draft
      requires Valid()
      reads this, data
    {
      Draft(data[..len], data.Length, limit, expand, error)
    }

    /** packet_new. */
    constructor (size: nat, expand: nat)
      requires size <= SIZE_MAX
      ensures Valid() && fresh(data)
      ensures Model() == NewDraft(size, expand)
    {
      this.data := new Byte[size](_ => 0);
      this.len := 0;
      this.limit := PAYLOAD_MAX;
      this.expand := expand;
      this.error := Fine;
    }

    /** packet_writer_set_limit. */
    method SetLimit(limit: nat)
      requires Valid() && limit <= SIZE_MAX
      modifies this
      ensures Valid() && data == old(data)
      ensures Model() == if |old(Model()).bytes| > limit then old(Model()).(error := LimitExceeded)
                         else old(Model()).(limit := limit)
    {
      if len > limit {
        error := LimitExceeded;
        return;
      }
      this.limit := limit;
    }

    /** packet_ensure: exactly when it makes room for n more bytes, and how it refuses. */
    method Ensure(n: nat) returns (ok: bool)
      requires Valid() && n > 0
      modifies this
      ensures Valid() && (data == old(data) || fresh(data))
      ensures ok <==> Room(old(Model()), n)
      ensures ok ==>
                && Model() == old(Model()).(size := SizeAfter(old(Model()), n))
                && len + n <= data.Length
      ensures !ok ==> Model() == old(Model()).(error := Refusal(old(Model()), n))
    {
      if error != Fine {
        return false;
      }
      if len > limit || n > limit - len {
        error := LimitExceeded;
        return false;
      }
      if len <= data.Length && n <= data.Length - len {
        return true;
      }
      var growth := Larger(expand, n);
      if data.Length > limit || growth > limit - data.Length {
        growth := limit - (if data.Length < limit then data.Length else limit);
      }
      if growth < n || data.Length > SIZE_MAX - growth {
        error := SizeOverflow;
        return false;
      }
      Resize(data.Length + growth);
      return true;
    }

    /** xrealloc to a larger size. */
    method Resize(size: nat)
      requires Valid() && data.Length <= size <= SIZE_MAX
      modifies this`data
      ensures Valid() && fresh(data) && data.Length == size
      ensures data[..len] == old(data[..len])
    {
      var larger := new Byte[size](_ => 0);
      var i := 0;
      while i < len
        invariant 0 <= i <= len
        invariant data == old(data) && data[..len] == old(data[..len])
        invariant larger[..i] == data[..i]
      {
        larger[i] := data[i];
        i := i + 1;
      }
      data := larger;
    }

    /** packet_writer_write_[u]int8/16/32/64: byte by byte, most significant first. */
    method WriteInteger(n: int, width: nat)
      requires Valid() && width > 0
      modifies this, data
      ensures Valid() && (data == old(data) || fresh(data))
      ensures Model() == Put(old(Model()), BigEndian(n, width))
    {
      ghost var before := Model();
      var ok := Ensure(width);
      if !ok {
        return;
      }
      ghost var start := len;
      ghost var x := BigEndian(n, width);
      var k := width;
      while k > 0
        invariant 0 <= k <= width && len == start + (width - k) && start + width <= data.Length
        invariant data[..len] == before.bytes + x[..width - k]
        invariant Valid() && data.Length == SizeAfter(before, width)
        invariant limit == before.limit && expand == before.expand && error == before.error
        invariant data == old(data) || fresh(data)
      {
        k := k - 1;
        data[len] := ShiftedByte(n, k);
        len := len + 1;
        assert x[width - k - 1] == ShiftedByte(n, k);
        assert x[..width - k] == x[..width - k - 1] + [x[width - k - 1]];
      }
      assert x[..width] == x;
    }

    /** The copy that packet_writer_write_bytes and its siblings make once there is room. */
    method Append(s: Bytes)
      requires Valid() && len + |s| <= data.Length
      modifies this`len, data
      ensures Valid() && data == old(data) && len == old(len) + |s|
      ensures data[..len] == old(data[..len]) + s
    {
      ghost var before := data[..len];
      ghost var start := len;
      var i := 0;
      while i < |s|
        invariant 0 <= i <= |s| && len == start + i && start + |s| <= data.Length
        invariant data == old(data) && limit == old(limit)
        invariant data[..len] == before + s[..i]
      {
        data[len] := s[i];
        len := len + 1;
        i := i + 1;
      }
    }

    /** packet_writer_write_bytes and packet_writer_write_string_n. */
    method WriteBytes(s: Bytes)
      requires Valid()
      modifies this, data
      ensures Valid() && (data == old(data) || fresh(data))
      ensures Model() == Put(old(Model()), s)
    {
      if |s| == 0 {
        return;
      }
      var ok := Ensure(|s|);
      if !ok {
        return;
      }
      Append(s);
    }

    /** packet_writer_write_cstring_n. */
    method WriteText(s: Bytes)
      requires Valid() && |s| <= SIZE_MAX
      modifies this, data
      ensures Valid() && (data == old(data) || fresh(data))
      ensures |s| < SIZE_MAX ==> Model() == Put(old(Model()), s + [0])
      ensures |s| == SIZE_MAX ==> Model() == old(Model()).(error := SizeOverflow)
    {
      if |s| == SIZE_MAX {
        error := SizeOverflow;
        return;
      }
      var ok := Ensure(|s| + 1);
      if !ok {
        return;
      }
      AppendText(s);
    }

    /** The copy of a string, and its NUL. */
    method AppendText(s: Bytes)
      requires Valid() && len + |s| < data.Length
      modifies this`len, data
      ensures Valid() && data == old(data) && len == old(len) + |s| + 1
      ensures data[..len] == old(data[..len]) + (s + [0])
    {
      Append(s);
      data[len] := 0;
      len := len + 1;
    }

    /** packet_writer_finish. */
    method Finish() returns (ok: bool)
      requires Valid()
      ensures ok <==> Model().error == Fine
    {
      ok := error == Fine;
    }
  }

  // ----- Whole runs of a writer -----

  function PutAll(w: Draft, xs: seq<Bytes>): Draft
    decreases |xs|
  {
    if xs == [] then w else PutAll(Put(w, xs[0]), xs[1..])
  }

  function Concat(xs: seq<Bytes>): Bytes {
    if xs == [] then [] else xs[0] + Concat(xs[1..])
  }

  lemma {:induction false} ErrorsStick(w: Draft, xs: seq<Bytes>)
    requires w.error != Fine
    ensures PutAll(w, xs).error == w.error && PutAll(w, xs).bytes == w.bytes
    decreases |xs|
  {
    if xs != [] {
      ErrorsStick(Put(w, xs[0]), xs[1..]);
    }
  }

  /**
   * One look at the error when all is written is enough: without one, every write went
   * in, whole and in order, and the limit held throughout.
   */
  lemma {:induction false} FinishedHoldsAll(w: Draft, xs: seq<Bytes>)
    requires PutAll(w, xs).error == Fine && |w.bytes| <= w.limit
    ensures PutAll(w, xs).bytes == w.bytes + Concat(xs)
    ensures |PutAll(w, xs).bytes| <= w.limit
    decreases |xs|
  {
    if xs == [] {
      assert w.bytes + [] == w.bytes;
    } else {
      var w' := Put(w, xs[0]);
      if w'.error != Fine {
        ErrorsStick(w', xs[1..]);
        assert false;
      }
      FinishedHoldsAll(w', xs[1..]);
      assert w'.bytes == w.bytes + xs[0];
      assert w'.bytes + Concat(xs[1..]) == w.bytes + Concat(xs);
    }
  }

  /**
   * A write can be refused although the payload limit has room for it: growth stops at
   * the limit, and is then compared with the whole request.
   */
  lemma FittingWriteRefused() returns (w: Draft, x: Bytes)
    ensures w == Put(NewDraft(65522, 0), seq(65520, _ => 0))
    ensures w.error == Fine && |w.bytes| <= w.size && w.limit == PAYLOAD_MAX
    ensures |w.bytes| + |x| <= w.limit && Put(w, x).error == SizeOverflow
  {
    w := Draft(seq(65520, _ => 0), 65522, PAYLOAD_MAX, 0, Fine);
    x := seq(14, _ => 0);
  }

  /** How far the buffer can run ahead of what is in it. */
  predicate Slack(w: Draft, size: nat, m: nat) {
    w.size <= size || w.size < |w.bytes| + Larger(w.expand, m)
  }

  predicate AllWithin(xs: seq<Bytes>, m: nat) {
    forall i | 0 <= i < |xs| :: |xs[i]| <= m
  }

  /**
   * What a caller can do about it: as long as the whole message leaves headroom for one
   * growth step and one more write, no write is refused.
   */
  lemma {:induction false} HeadroomSuffices(w: Draft, xs: seq<Bytes>, size: nat, m: nat)
    requires w.error == Fine && Slack(w, size, m) && AllWithin(xs, m)
    requires size + m <= w.limit
    requires |w.bytes| + |Concat(xs)| + Larger(w.expand, m) + m <= w.limit
    ensures PutAll(w, xs).error == Fine
    decreases |xs|
  {
    if xs != [] {
      var x := xs[0];
      var w' := Put(w, x);
      assert |x| <= m;
      assert w'.error == Fine && |w'.bytes| == |w.bytes| + |x|;
      assert AllWithin(xs[1..], m) by {
        forall i | 0 <= i < |xs[1..]|
          ensures |xs[1..][i]| <= m
        {
          assert xs[1..][i] == xs[i + 1];
        }
      }
      HeadroomSuffices(w', xs[1..], size, m);
    }
  }
}
