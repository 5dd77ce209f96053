/**
 * The wire format of packet.c: big-endian integers, NUL-terminated strings and
 * raw byte runs, written one after the other. The declarative side of the codec:
 * what a value looks like on the wire, and what a cursor finds there.
 */
module PacketFormat {

  type Byte = x: int | 0 <= x < 256

  type Bytes = seq<Byte>

  /** packet_error_t; allocation failure and the unused codes are left out. */
  datatype Error = Fine | Truncated | InvalidEncoding | LimitExceeded | TrailingData | SizeOverflow

  datatype Result<T> = Done(value: T, next: nat) | Failed(error: Error)

  /**
   * What a reader asks for next. A string is read under the caller's bound; packet.c
   * offers integers of 1, 2, 4 and 8 bytes, and nothing below depends on which.
   */
  datatype Kind =
    | Unsigned(width: nat)
    | Signed(width: nat)
    | Text(bound: nat)
    | Raw(length: nat)

  datatype Value = Number(n: int) | Chunk(bytes: Bytes)

  function Power256(w: nat): (r: int)
    ensures r > 0
  {
    if w == 0 then 1 else 256 * Power256(w - 1)
  }

  /** The values that a field of the kind can carry. */
  predicate Fits(k: Kind, v: Value) {
    match k
    case Unsigned(w) => v.Number? && 0 <= v.n < Power256(w)
    case Signed(w) => v.Number? && -Power256(w) <= 2 * v.n < Power256(w)
    case Text(bound) => v.Chunk? && 0 !in v.bytes && |v.bytes| <= bound
    case Raw(length) => v.Chunk? && |v.bytes| == length
  }

  /** The w low bytes of n, most significant first; a negative n in two's complement. */
  function BigEndian(n: int, w: nat): (r: Bytes)
    ensures |r| == w
  {
    seq(w, i requires 0 <= i < w => ShiftedByte(n, w - 1 - i))
  }

  /** The byte that a right shift by k bytes and a mask pick out of n. */
  function ShiftedByte(n: int, k: nat): Byte {
    n / Power256(k) % 256
  }

  function FromBigEndian(s: Bytes): nat {
    if s == [] then 0 else 256 * FromBigEndian(s[..|s| - 1]) + s[|s| - 1]
  }

  /** The bit pattern of a signed integer in two's complement. */
  function Pattern(n: int, w: nat): nat
    requires -Power256(w) <= 2 * n < Power256(w)
  {
    if n < 0 then n + Power256(w) else n
  }

  function FromPattern(u: nat, w: nat): int {
    if 2 * u >= Power256(w) then u - Power256(w) else u
  }

  function Encode(k: Kind, v: Value): Bytes
    requires Fits(k, v)
  {
    match k
    case Unsigned(w) => BigEndian(v.n, w)
    case Signed(w) => BigEndian(Pattern(v.n, w), w)
    case Text(_) => v.bytes + [0]
    case Raw(_) => v.bytes
  }

  /** The length of the longest NUL-free run at the head of s. */
  function NulFree(s: Bytes): (r: nat)
    ensures r <= |s| && 0 !in s[..r]
    ensures r < |s| ==> s[r] == 0
  {
    if s == [] || s[0] == 0 then 0
    else
      var r := 1 + NulFree(s[1..]);
      assert s[..r] == [s[0]] + s[1..][..r - 1];
      r
  }

  function DecodeText(data: Bytes, p: nat, bound: nat): Result<Bytes>
    requires p <= |data|
  {
    var n := NulFree(data[p..]);
    if n > bound then Failed(LimitExceeded)
    else if n == |data| - p then Failed(Truncated)
    else Done(data[p..p + n], p + n + 1)
  }

  /** The field of kind k that starts at position p. */
  function Decode(k: Kind, data: Bytes, p: nat): Result<Value>
    requires p <= |data|
  {
    match k
    case Unsigned(w) =>
      if w > |data| - p then Failed(Truncated)
      else Done(Number(FromBigEndian(data[p..p + w])), p + w)
    case Signed(w) =>
      if w > |data| - p then Failed(Truncated)
      else Done(Number(FromPattern(FromBigEndian(data[p..p + w]), w)), p + w)
    case Text(bound) =>
      (match DecodeText(data, p, bound)
       case Done(s, q) => Done(Chunk(s), q)
       case Failed(e) => Failed(e))
    case Raw(length) =>
      if length > |data| - p then Failed(Truncated)
      else Done(Chunk(data[p..p + length]), p + length)
  }

  /** The bytes x stand in data at position p. */
  predicate At(data: Bytes, p: nat, x: Bytes) {
    p + |x| <= |data| && data[p..p + |x|] == x
  }

  lemma AtConcat(data: Bytes, p: nat, x: Bytes, y: Bytes)
    ensures At(data, p, x + y) <==> At(data, p, x) && At(data, p + |x|, y)
  {
    var m := p + |x|;
    if At(data, p, x) && At(data, m, y) {
      assert data[p..m + |y|] == data[p..m] + data[m..m + |y|];
    }
    if At(data, p, x + y) {
      assert data[p..m] == data[p..p + |x + y|][..|x|];
      assert data[m..m + |y|] == data[p..p + |x + y|][|x|..];
    }
  }

  lemma SliceSnoc(data: Bytes, p: nat, n: nat)
    requires p + n < |data|
    ensures data[p..p + n + 1] == data[p..p + n] + [data[p + n]]
  {
  }

  // ----- Integers -----

  lemma DivisionIs(n: int, d: int, q: int, r: int)
    requires 0 <= r < d && n == q * d + r
    ensures n / d == q
  {
    var a := n / d - q;
    assert a * d == r - n % d;
    assert a >= 1 ==> (a - 1) * d >= 0;
    assert a <= -1 ==> (a + 1) * d <= 0;
  }

  lemma DivideTwice(n: int, d: int)
    requires d > 0
    ensures n / 256 / d == n / (256 * d)
  {
    var q, r := n / 256 / d, n / 256 % d;
    assert n / 256 == q * d + r;
    assert n == q * (256 * d) + (256 * r + n % 256);
    DivisionIs(n, 256 * d, q, 256 * r + n % 256);
  }

  /** The last byte is the remainder by 256, the others those of the quotient. */
  lemma LastByte(n: int, w: nat)
    requires w > 0
    ensures BigEndian(n, w) == BigEndian(n / 256, w - 1) + [n % 256]
  {
    var x, y := BigEndian(n, w), BigEndian(n / 256, w - 1) + [n % 256];
    forall i | 0 <= i < w
      ensures x[i] == y[i]
    {
      var k := w - 1 - i;
      assert x[i] == ShiftedByte(n, k);
      if k > 0 {
        assert y[i] == ShiftedByte(n / 256, k - 1);
        assert Power256(k) == 256 * Power256(k - 1);
        DivideTwice(n, Power256(k - 1));
      }
    }
  }

  lemma {:induction false} BigEndianRoundTrip(n: nat, w: nat)
    requires n < Power256(w)
    ensures FromBigEndian(BigEndian(n, w)) == n
  {
    if w > 0 {
      LastByte(n, w);
      BigEndianRoundTrip(n / 256, w - 1);
      assert BigEndian(n, w)[..w - 1] == BigEndian(n / 256, w - 1);
    }
  }

  lemma OneByteMore(u: nat, last: Byte)
    ensures (256 * u + last) / 256 == u && (256 * u + last) % 256 == last
  {
  }

  lemma {:induction false} FromBigEndianRoundTrip(s: Bytes)
    ensures FromBigEndian(s) < Power256(|s|)
    ensures BigEndian(FromBigEndian(s), |s|) == s
  {
    if s != [] {
      var w := |s| - 1;
      var u, last := FromBigEndian(s[..w]), s[w];
      FromBigEndianRoundTrip(s[..w]);
      OneByteMore(u, last);
      LastByte(256 * u + last, w + 1);
      assert s == s[..w] + [last];
    }
  }

  /** The bytes of a negative number are those of its bit pattern. */
  lemma {:induction false} SameBytes(n: int, m: int, w: nat)
    ensures BigEndian(n + m * Power256(w), w) == BigEndian(n, w)
    decreases w
  {
    if w > 0 {
      var k := m * Power256(w - 1);
      var n' := n + 256 * k;
      assert n + m * Power256(w) == n';
      assert n' / 256 == n / 256 + k && n' % 256 == n % 256;
      LastByte(n, w);
      LastByte(n', w);
      SameBytes(n / 256, m, w - 1);
    }
  }

  /** What the writer puts down for a signed integer is the encoding of its bit pattern. */
  lemma SignedBytes(n: int, w: nat)
    requires Fits(Signed(w), Number(n))
    ensures BigEndian(n, w) == Encode(Signed(w), Number(n))
  {
    SameBytes(n, 1, w);
  }

  // ----- Strings -----

  lemma {:induction false} NulFreeIs(s: Bytes, n: nat)
    requires n <= |s| && 0 !in s[..n]
    requires n < |s| ==> s[n] == 0
    ensures NulFree(s) == n
  {
    if n > 0 {
      assert s[0] == s[..n][0];
      assert forall b | b in s[1..][..n - 1] :: b in s[..n];
      NulFreeIs(s[1..], n - 1);
    }
  }

  lemma {:induction false} DecodeWrittenText(s: Bytes, bound: nat, data: Bytes, p: nat)
    requires 0 !in s && |s| <= bound
    requires At(data, p, s + [0])
    ensures DecodeText(data, p, bound) == Done(s, p + |s| + 1)
  {
    var n := |s|;
    AtConcat(data, p, s, [0]);
    assert data[p + n] == data[p + n..p + n + 1][0] == 0;
    assert data[p..][..n] == s;
    NulFreeIs(data[p..], n);
  }

  // ----- One field -----

  lemma {:induction false} DecodeWrittenNumber(k: Kind, v: Value, u: nat, data: Bytes, p: nat)
    requires (k.Unsigned? || k.Signed?) && Fits(k, v)
    requires u == if k.Signed? then Pattern(v.n, k.width) else v.n
    requires At(data, p, BigEndian(u, k.width))
    ensures Decode(k, data, p) == Done(v, p + k.width)
  {
    BigEndianRoundTrip(u, k.width);
    assert data[p..p + k.width] == BigEndian(u, k.width);
  }

  /** A value written at p is read back from p, and the cursor ends up right after it. */
  lemma {:induction false} DecodeEncoded(k: Kind, v: Value, data: Bytes, p: nat)
    requires Fits(k, v)
    requires At(data, p, Encode(k, v))
    ensures Decode(k, data, p) == Done(v, p + |Encode(k, v)|)
  {
    match k
    case Unsigned(w) => DecodeWrittenNumber(k, v, v.n, data, p);
    case Signed(w) => DecodeWrittenNumber(k, v, Pattern(v.n, w), data, p);
    case Text(bound) => DecodeWrittenText(v.bytes, bound, data, p);
    case Raw(_) =>
  }

  lemma {:induction false} DecodedNumber(k: Kind, data: Bytes, p: nat)
    requires k.Unsigned? || k.Signed?
    requires p + k.width <= |data|
    ensures var d := Decode(k, data, p);
            d.Done? && Fits(k, d.value) && At(data, p, Encode(k, d.value)) && d.next == p + k.width
  {
    FromBigEndianRoundTrip(data[p..p + k.width]);
  }

  lemma {:induction false} DecodedText(bound: nat, data: Bytes, p: nat)
    requires p <= |data|
    requires DecodeText(data, p, bound).Done?
    ensures var d := DecodeText(data, p, bound);
            0 !in d.value && |d.value| <= bound && At(data, p, d.value + [0]) && d.next == p + |d.value| + 1
  {
    var n := NulFree(data[p..]);
    assert data[p..][..n] == data[p..p + n];
    assert data[p + n] == data[p..][n] == 0;
    SliceSnoc(data, p, n);
  }

  /** Whatever is read fits its kind, and what the cursor passed over is its encoding. */
  lemma {:induction false} DecodedIsEncoding(k: Kind, data: Bytes, p: nat)
    requires p <= |data|
    requires Decode(k, data, p).Done?
    ensures var d := Decode(k, data, p);
            Fits(k, d.value) && At(data, p, Encode(k, d.value)) && d.next == p + |Encode(k, d.value)|
  {
    match k
    case Unsigned(w) => DecodedNumber(k, data, p);
    case Signed(w) => DecodedNumber(k, data, p);
    case Text(bound) => DecodedText(bound, data, p);
    case Raw(_) =>
  }

  /** A field cut short anywhere is reported as truncated. */
  lemma {:induction false} CutFieldTruncated(k: Kind, v: Value, data: Bytes, p: nat)
    requires Fits(k, v)
    requires p <= |data| < p + |Encode(k, v)|
    requires data[p..] == Encode(k, v)[..|data| - p]
    ensures Decode(k, data, p) == Failed(Truncated)
  {
    if k.Text? {
      var m := |data| - p;
      assert data[p..] == v.bytes[..m];
      assert data[p..][..m] == data[p..];
      assert forall b | b in data[p..] :: b in v.bytes;
      NulFreeIs(data[p..], m);
    }
  }

  // ----- A list of fields -----

  type Schema = seq<Kind>

  predicate AllFit(ks: Schema, vs: seq<Value>) {
    if ks == [] then vs == []
    else vs != [] && Fits(ks[0], vs[0]) && AllFit(ks[1..], vs[1..])
  }

  function EncodeAll(ks: Schema, vs: seq<Value>): Bytes
    requires AllFit(ks, vs)
  {
    if ks == [] then [] else Encode(ks[0], vs[0]) + EncodeAll(ks[1..], vs[1..])
  }

  function DecodeAll(ks: Schema, data: Bytes, p: nat): Result<seq<Value>>
    requires p <= |data|
  {
    if ks == [] then Done([], p)
    else
      match Decode(ks[0], data, p)
      case Failed(e) => Failed(e)
      case Done(v, q) =>
        match DecodeAll(ks[1..], data, q)
        case Failed(e) => Failed(e)
        case Done(vs, r) => Done([v] + vs, r)
  }

  lemma DecodeAllStep(ks: Schema, data: Bytes, p: nat, q: nat, vs: seq<Value>, r: nat)
    requires ks != [] && vs != [] && p <= |data| && q <= |data|
    requires Decode(ks[0], data, p) == Done(vs[0], q)
    requires DecodeAll(ks[1..], data, q) == Done(vs[1..], r)
    ensures DecodeAll(ks, data, p) == Done(vs, r)
  {
    assert vs == [vs[0]] + vs[1..];
  }

  /** The first field of a message that stands at p, and what stands after it. */
  lemma PeelFirst(ks: Schema, vs: seq<Value>, x: Bytes, data: Bytes, p: nat) returns (q: nat, y: Bytes)
    requires ks != [] && AllFit(ks, vs)
    requires x == EncodeAll(ks, vs) && At(data, p, x)
    ensures q <= |data| && Decode(ks[0], data, p) == Done(vs[0], q)
    ensures y == EncodeAll(ks[1..], vs[1..]) && At(data, q, y)
    ensures q + |y| == p + |x|
  {
    var head := Encode(ks[0], vs[0]);
    y := EncodeAll(ks[1..], vs[1..]);
    AtConcat(data, p, head, y);
    DecodeEncoded(ks[0], vs[0], data, p);
    q := p + |head|;
  }

  /** Reading by the schema it was written with gives back the same values. */
  lemma {:induction false} DecodeAllEncoded(ks: Schema, vs: seq<Value>, x: Bytes, data: Bytes, p: nat)
    requires AllFit(ks, vs)
    requires x == EncodeAll(ks, vs) && At(data, p, x)
    ensures DecodeAll(ks, data, p) == Done(vs, p + |x|)
  {
    if ks != [] {
      var q, y := PeelFirst(ks, vs, x, data, p);
      DecodeAllEncoded(ks[1..], vs[1..], y, data, q);
      DecodeAllStep(ks, data, p, q, vs, p + |x|);
    }
  }

  /** The converse: the bytes passed over are the encoding of the values read. */
  lemma {:induction false} DecodedAllIsEncoding(ks: Schema, data: Bytes, p: nat)
    requires p <= |data|
    requires DecodeAll(ks, data, p).Done?
    ensures var d := DecodeAll(ks, data, p);
            AllFit(ks, d.value) && At(data, p, EncodeAll(ks, d.value)) &&
            d.next == p + |EncodeAll(ks, d.value)|
  {
    if ks != [] {
      var d := DecodeAll(ks, data, p);
      var first := Decode(ks[0], data, p);
      DecodedIsEncoding(ks[0], data, p);
      DecodedAllIsEncoding(ks[1..], data, first.next);
      var rest := DecodeAll(ks[1..], data, first.next);
      assert d.value == [first.value] + rest.value;
      assert d.value[1..] == rest.value;
      AtConcat(data, p, Encode(ks[0], first.value), EncodeAll(ks[1..], rest.value));
    }
  }

  lemma CutBehind(x: Bytes, y: Bytes, data: Bytes, p: nat, q: nat)
    requires q == p + |x| && q <= |data| < q + |y| && data[p..] == (x + y)[..|data| - p]
    ensures At(data, p, x) && data[q..] == y[..|data| - q]
  {
    assert data[p..q] == data[p..][..|x|] == x;
    assert data[q..] == data[p..][|x|..];
  }

  /** The first field of a cut message may be whole. */
  lemma CutBehindFirst(ks: Schema, vs: seq<Value>, data: Bytes, p: nat, q: nat, y: Bytes)
    requires ks != [] && AllFit(ks, vs) && y == EncodeAll(ks[1..], vs[1..]) && q == p + |Encode(ks[0], vs[0])|
    requires q <= |data| < q + |y| && data[p..] == EncodeAll(ks, vs)[..|data| - p]
    ensures Decode(ks[0], data, p) == Done(vs[0], q) && data[q..] == y[..|data| - q]
  {
    CutBehind(Encode(ks[0], vs[0]), y, data, p, q);
    DecodeEncoded(ks[0], vs[0], data, p);
  }

  /** Either the first field of a cut message is cut, or it is whole and the rest is cut. */
  lemma CutFirst(ks: Schema, vs: seq<Value>, data: Bytes, p: nat) returns (q: nat, y: Bytes)
    requires AllFit(ks, vs)
    requires p <= |data| < p + |EncodeAll(ks, vs)|
    requires data[p..] == EncodeAll(ks, vs)[..|data| - p]
    ensures ks != [] && y == EncodeAll(ks[1..], vs[1..])
    ensures q <= |data| ==>
              && Decode(ks[0], data, p) == Done(vs[0], q)
              && |data| < q + |y| && data[q..] == y[..|data| - q]
    ensures q > |data| ==> Decode(ks[0], data, p) == Failed(Truncated)
  {
    var x := Encode(ks[0], vs[0]);
    y := EncodeAll(ks[1..], vs[1..]);
    q := p + |x|;
    if q <= |data| {
      CutBehindFirst(ks, vs, data, p, q, y);
    } else {
      assert data[p..] == x[..|data| - p];
      CutFieldTruncated(ks[0], vs[0], data, p);
    }
  }

  /** A list of fields cut short anywhere is reported as truncated. */
  lemma {:induction false} CutListTruncated(ks: Schema, vs: seq<Value>, data: Bytes, p: nat)
    requires AllFit(ks, vs)
    requires p <= |data| < p + |EncodeAll(ks, vs)|
    requires data[p..] == EncodeAll(ks, vs)[..|data| - p]
    ensures DecodeAll(ks, data, p) == Failed(Truncated)
    decreases ks
  {
    var q, y := CutFirst(ks, vs, data, p);
    if q <= |data| {
      CutListTruncated(ks[1..], vs[1..], data, q);
    }
  }
}
