/**
 * Whole messages on the real writer and the real reader: the fields of a schema are
 * written by the calls that packet.c offers for their kinds, and read back by theirs.
 */
module PacketExchange {
  import opened PacketFormat
  import opened PacketWriter
  import opened PacketReader

  /** The kinds of field that packet.c has calls for. */
  predicate Offered(k: Kind) {
    match k
    case Unsigned(w) => w in {1, 2, 4, 8}
    case Signed(w) => w in {1, 2, 4, 8}
    case Text(bound) => bound <= SIZE_MAX
    case Raw(length) => length <= SIZE_MAX
  }

  predicate AllOffered(ks: Schema) {
    forall i | 0 <= i < |ks| :: Offered(ks[i])
  }

  /** A string is in memory together with its NUL. */
  predicate Stored(v: Value) {
    v.Chunk? ==> |v.bytes| < SIZE_MAX
  }

  predicate AllStored(vs: seq<Value>) {
    forall i | 0 <= i < |vs| :: Stored(vs[i])
  }

  /** The call that writes a field of the kind; a signed integer is shifted and masked as it is. */
  method WriteField(w: Writer, k: Kind, v: Value)
    requires w.Valid() && Offered(k) && Fits(k, v) && Stored(v)
    modifies w, w.data
    ensures w.Valid() && (w.data == old(w.data) || fresh(w.data))
    ensures w.Model() == Put(old(w.Model()), Encode(k, v))
  {
    match k
    case Unsigned(width) => w.WriteInteger(v.n, width);
    case Signed(width) =>
      SignedBytes(v.n, width);
      w.WriteInteger(v.n, width);
    case Text(_) => w.WriteText(v.bytes);
    case Raw(_) => w.WriteBytes(v.bytes);
  }

  /** The call that reads a field of the kind. */
  method ReadField(r: Reader, k: Kind) returns (v: Value)
    requires r.Valid() && Offered(k) && |r.data| <= SIZE_MAX
    modifies r
    ensures r.Valid() && r.Model() == After(old(r.Model()), k) && v == Got(old(r.Model()), k)
  {
    match k
    case Unsigned(width) =>
      var n := r.ReadUnsigned(width);
      return Number(n);
    case Signed(width) =>
      var n := r.ReadSigned(width);
      return Number(n);
    case Text(bound) =>
      var view := r.ReadText(bound);
      return Chunk(view);
    case Raw(length) =>
      var view := r.ReadView(length);
      return Chunk(view);
  }

  lemma {:induction false} AsManyValues(ks: Schema, vs: seq<Value>)
    requires AllFit(ks, vs)
    ensures |vs| == |ks|
  {
    if ks != [] {
      AsManyValues(ks[1..], vs[1..]);
    }
  }

  /** Writes a message, field by field, without looking at the error in between. */
  method WriteFields(w: Writer, ks: Schema, vs: seq<Value>)
    requires w.Valid() && AllOffered(ks) && AllFit(ks, vs) && AllStored(vs)
    modifies w, w.data
    ensures w.Valid() && (w.data == old(w.data) || fresh(w.data))
    ensures w.Model() == PutAll(old(w.Model()), Writes(ks, vs))
  {
    AsManyValues(ks, vs);
    var i := 0;
    while i < |ks|
      invariant 0 <= i <= |ks| == |vs| && w.Valid() && (w.data == old(w.data) || fresh(w.data))
      invariant AllFit(ks[i..], vs[i..])
      invariant PutAll(w.Model(), Writes(ks[i..], vs[i..])) == PutAll(old(w.Model()), Writes(ks, vs))
    {
      assert Stored(vs[i]) && Offered(ks[i]);
      assert ks[i..][1..] == ks[i + 1..] && vs[i..][1..] == vs[i + 1..];
      assert Writes(ks[i..], vs[i..])[1..] == Writes(ks[i + 1..], vs[i + 1..]);
      WriteField(w, ks[i], vs[i]);
      i := i + 1;
    }
  }

  /** Reads a message, field by field, without looking at the error in between. */
  method ReadFields(r: Reader, ks: Schema) returns (vs: seq<Value>)
    requires r.Valid() && AllOffered(ks) && |r.data| <= SIZE_MAX
    modifies r
    ensures r.Valid() && r.Model() == AfterAll(old(r.Model()), ks) && vs == GotAll(old(r.Model()), ks)
  {
    vs := [];
    var i := 0;
    while i < |ks|
      invariant 0 <= i <= |ks| && r.Valid()
      invariant AfterAll(r.Model(), ks[i..]) == AfterAll(old(r.Model()), ks)
      invariant vs + GotAll(r.Model(), ks[i..]) == GotAll(old(r.Model()), ks)
    {
      assert ks[i..][1..] == ks[i + 1..];
      ghost var c := r.Model();
      var v := ReadField(r, ks[i]);
      assert vs + GotAll(c, ks[i..]) == vs + [v] + GotAll(r.Model(), ks[i + 1..]);
      vs := vs + [v];
      i := i + 1;
    }
  }

  /** Reads a whole message: it finishes on exactly the encodings, with the values encoded. */
  method ReadMessage(data: Bytes, ks: Schema) returns (ok: bool, vs: seq<Value>)
    requires AllOffered(ks) && |data| <= SIZE_MAX
    ensures ok ==> AllFit(ks, vs) && EncodeAll(ks, vs) == data
    ensures !ok ==> forall us | AllFit(ks, us) :: EncodeAll(ks, us) != data
  {
    var r := new Reader(data, 0);
    vs := ReadFields(r, ks);
    ok := r.Finish();
    AcceptsExactlyEncodings(data, ks);
  }

  /**
   * A message on its way from a writer to a reader. If the writer finishes without error,
   * so does the reader, and it has every value; the writer does so exactly if its draft does.
   */
  method Exchange(size: nat, expand: nat, ks: Schema, vs: seq<Value>)
      returns (sent: bool, received: bool, us: seq<Value>)
    requires size <= SIZE_MAX && AllOffered(ks) && AllFit(ks, vs) && AllStored(vs)
    ensures sent <==> PutAll(NewDraft(size, expand), Writes(ks, vs)).error == Fine
    ensures sent ==> received && us == vs
  {
    var w := new Writer(size, expand);
    WriteFields(w, ks, vs);
    sent := w.Finish();
    received, us := false, [];
    if sent {
      ghost var x := EncodeAll(ks, vs);
      FinishedHoldsAll(NewDraft(size, expand), Writes(ks, vs));
      assert w.data[..w.len] == x;
      received, us := ReadMessage(w.data[..w.len], ks);
      AcceptsExactlyEncodings(x, ks);
    }
  }
}
