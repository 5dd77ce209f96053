/**
 * The MAP validator of map_protocol.c: a cursor that checks its way through the bytes
 * without building anything. It accepts exactly what the grammar spells.
 */
module MapValidator {
  import opened PacketFormat
  import opened PacketWriter
  import opened PacketReader
  import opened MapGrammar
  import opened MapReading
  import opened MapTiles
  import opened MapCommand
  import opened Wrappers

  ghost predicate Ready(r: Reader)
    reads r
  {
    r.Valid() && r.error == Fine && |r.data| <= SIZE_MAX
  }

  // ----- Pieces -----

  /** The map_packet_* helpers: one read, its error check and the caller's range check. */
  method CheckPiece(r: Reader, piece: Piece) returns (ok: bool, v: Value)
    requires Ready(r)
    modifies r
    ensures ok <==> ReadPiece(piece, r.data, old(r.pos)).Yes?
    ensures ok ==> Ready(r) && ReadPiece(piece, r.data, old(r.pos)) == Yes(v, r.pos)
  {
    match piece
    case Num(width, lo, hi) =>
      var n := r.ReadUnsigned(width);
      v := Number(n);
      FitsIfRead(piece, r.data, old(r.pos));
      ok := r.error == Fine && lo <= n <= hi;
    case Offset(lower, upper) =>
      var n := r.ReadSigned(1);
      v := Number(n);
      FitsIfRead(piece, r.data, old(r.pos));
      ok := r.error == Fine && lower <= n <= upper;
    case Str =>
      var view := r.ReadText(PAYLOAD_MAX);
      v := Chunk(view);
      FitsIfRead(piece, r.data, old(r.pos));
      ok := r.error == Fine;
    case Skip(count) =>
      ok := r.Skip(count);
      FitsIfRead(piece, r.data, old(r.pos));
      v := Chunk(if ok then r.data[r.pos - count..r.pos] else []);
  }

  lemma FitsIfRead(piece: Piece, data: Bytes, p: nat)
    requires p <= |data|
    ensures var d := Decode(KindOf(piece), data, p); d.Done? ==> Fits(KindOf(piece), d.value)
  {
    if Decode(KindOf(piece), data, p).Done? {
      DecodedIsEncoding(KindOf(piece), data, p);
    }
  }

  /** Pieces that follow one another. */
  method CheckPieces(r: Reader, ps: seq<Piece>) returns (ok: bool, vs: seq<Value>)
    requires Ready(r)
    modifies r
    ensures ok <==> ReadPieces(ps, r.data, old(r.pos)).Yes?
    ensures ok ==> Ready(r) && ReadPieces(ps, r.data, old(r.pos)) == Yes(vs, r.pos)
    decreases |ps|
  {
    if |ps| == 0 {
      return true, [];
    }
    var v;
    vs := [];
    ok, v := CheckPiece(r, ps[0]);
    if ok {
      ok, vs := CheckPieces(r, ps[1..]);
      vs := [v] + vs;
    }
  }

  function Then(first: Parse<seq<Value>>, second: Parse<seq<Value>>): Parse<seq<Value>> {
    if first.Yes? && second.Yes? then Yes(first.value + second.value, second.next) else No
  }

  lemma {:induction false} PiecesConcat(a: seq<Piece>, b: seq<Piece>, data: Bytes, p: nat)
    requires p <= |data|
    ensures var first := ReadPieces(a, data, p);
            ReadPieces(a + b, data, p) == if first.No? then No else Then(first, ReadPieces(b, data, first.next))
    decreases |a|
  {
    if a == [] {
      assert a + b == b;
      var second := ReadPieces(b, data, p);
      if second.Yes? {
        assert [] + second.value == second.value;
      }
    } else {
      var one := ReadPiece(a[0], data, p);
      assert (a + b)[0] == a[0] && (a + b)[1..] == a[1..] + b;
      if one.Yes? {
        PiecesConcat(a[1..], b, data, one.next);
        var first := ReadPieces(a[1..], data, one.next);
        if first.Yes? {
          var second := ReadPieces(b, data, first.next);
          if second.Yes? {
            assert [one.value] + (first.value + second.value) == ([one.value] + first.value) + second.value;
          }
        }
      }
    }
  }

  /**
   * Pieces that are there when a flag says so, behind those done and before the rest of
   * a record whose pieces start at p0.
   */
  method CheckGiven(r: Reader, ghost p0: nat, ghost done: seq<Piece>, ghost got: seq<Value>,
                    present: bool, ps: seq<Piece>, ghost rest: seq<Piece>)
    returns (ok: bool, vs: seq<Value>)
    requires Ready(r) && p0 <= |r.data| && ReadPieces(done, r.data, p0) == Yes(got, r.pos)
    modifies r
    ensures ok ==> Ready(r) && ReadPieces(done + Given(present, ps), r.data, p0) == Yes(got + vs, r.pos)
    ensures ok && present ==> ReadPieces(ps, r.data, old(r.pos)) == Yes(vs, r.pos)
    ensures !ok ==> ReadPieces(done + Given(present, ps) + rest, r.data, p0) == No
  {
    if !present {
      assert done + Given(present, ps) == done && got + [] == got;
      return true, [];
    }
    PiecesConcat(done, ps, r.data, p0);
    PiecesConcat(done + ps, rest, r.data, p0);
    ok, vs := CheckPieces(r, ps);
  }

  // ----- Layers -----

  method CheckLook(r: Reader, flags: nat) returns (ok: bool, moving: bool, ghost look: seq<Value>)
    requires Ready(r)
    modifies r
    ensures ok <==> ReadPieces(LookPieces(flags), r.data, old(r.pos)).Yes?
    ensures ok ==> Ready(r) && ReadPieces(LookPieces(flags), r.data, old(r.pos)) == Yes(look, r.pos)
    ensures ok ==> moving == Moving(flags, look)
  {
    ghost var p0 := r.pos;
    ghost var a, b := Given(Bit(flags, 0), [ANY_BYTE]), Given(Bit(flags, 1), [Str, Str]);
    ghost var c := Given(Bit(flags, 2), [Skip(2), Num(1, 0, 15)]);
    moving, look := false, [];
    assert [] + a == a && a + b + c == a + (b + c);
    var va, vb, vc;
    ok, va := CheckGiven(r, p0, [], [], Bit(flags, 0), [ANY_BYTE], b + c);
    if !ok { return; }
    ok, vb := CheckGiven(r, p0, a, [] + va, Bit(flags, 1), [Str, Str], c);
    if !ok { return; }
    assert a + b + c + [] == a + b + c;
    ghost var before := r.pos;
    ok, vc := CheckGiven(r, p0, a + b, [] + va + vb, Bit(flags, 2), [Skip(2), Num(1, 0, 15)], []);
    if !ok { return; }
    look := [] + va + vb + vc;
    if Bit(flags, 2) {
      AnimationFlags(vc, r.data, before);
      moving := vc[1].n % 2 == 1;
      assert look[|look| - 1] == vc[1];
    }
  }

  lemma AnimationFlags(vs: seq<Value>, data: Bytes, p: nat)
    requires p <= |data| && ReadPieces([Skip(2), Num(1, 0, 15)], data, p).Yes?
    requires vs == ReadPieces([Skip(2), Num(1, 0, 15)], data, p).value
    ensures |vs| == 2 && vs[1].Number? && vs[1].n >= 0
  {
    var ps := [Skip(2), Num(1, 0, 15)];
    var one := ReadPiece(ps[0], data, p);
    var two := ReadPiece(ps[1..][0], data, one.next);
    assert ReadPieces(ps[1..], data, one.next).value[0] == two.value;
  }

  method CheckShape(r: Reader, flags: nat, moving: bool) returns (ok: bool)
    requires Ready(r)
    modifies r
    ensures ok <==> ReadPieces(ShapePieces(flags, moving), r.data, old(r.pos)).Yes?
    ensures ok ==> Ready(r) && ReadPieces(ShapePieces(flags, moving), r.data, old(r.pos)).next == r.pos
  {
    ghost var p0 := r.pos;
    ghost var a, b, c := Given(moving, [ANY_BYTE]), Given(Bit(flags, 3), [Skip(2)]), Given(Bit(flags, 5), [Skip(2)]);
    assert [] + a == a && a + b + c == a + (b + c);
    var va, vb, vc;
    ok, va := CheckGiven(r, p0, [], [], moving, [ANY_BYTE], b + c);
    if !ok { return; }
    ok, vb := CheckGiven(r, p0, a, [] + va, Bit(flags, 3), [Skip(2)], c);
    if !ok { return; }
    assert a + b + c + [] == a + b + c;
    ok, vc := CheckGiven(r, p0, a + b, [] + va + vb, Bit(flags, 5), [Skip(2)], []);
  }

  method CheckPaint(r: Reader, flags2: nat) returns (ok: bool)
    requires Ready(r)
    modifies r
    ensures ok <==> ReadPieces(PaintPieces(flags2), r.data, old(r.pos)).Yes?
    ensures ok ==> Ready(r) && ReadPieces(PaintPieces(flags2), r.data, old(r.pos)).next == r.pos
  {
    ghost var p0 := r.pos;
    ghost var a, b := Given(Bit(flags2, 0), [ANY_BYTE]), Given(Bit(flags2, 1), [Skip(2)]);
    ghost var c := Given(Bit(flags2, 2), [Skip(4)]);
    assert [] + a == a && a + b + c == a + (b + c);
    var va, vb, vc;
    ok, va := CheckGiven(r, p0, [], [], Bit(flags2, 0), [ANY_BYTE], b + c);
    if !ok { return; }
    ok, vb := CheckGiven(r, p0, a, [] + va, Bit(flags2, 1), [Skip(2)], c);
    if !ok { return; }
    assert a + b + c + [] == a + b + c;
    ok, vc := CheckGiven(r, p0, a + b, [] + va + vb, Bit(flags2, 2), [Skip(4)], []);
  }

  method CheckMark(r: Reader, flags2: nat) returns (ok: bool)
    requires Ready(r)
    modifies r
    ensures ok <==> ReadPieces(MarkPieces(flags2), r.data, old(r.pos)).Yes?
    ensures ok ==> Ready(r) && ReadPieces(MarkPieces(flags2), r.data, old(r.pos)).next == r.pos
  {
    ghost var p0 := r.pos;
    ghost var a, b := Given(Bit(flags2, 3), [Skip(4), Num(1, 0, 1)]), Given(Bit(flags2, 4), [Num(1, 0, 100)]);
    ghost var c := Given(Bit(flags2, 7), [Str, ANY_BYTE]);
    assert [] + a == a && a + b + c == a + (b + c);
    var va, vb, vc;
    ok, va := CheckGiven(r, p0, [], [], Bit(flags2, 3), [Skip(4), Num(1, 0, 1)], b + c);
    if !ok { return; }
    ok, vb := CheckGiven(r, p0, a, [] + va, Bit(flags2, 4), [Num(1, 0, 100)], c);
    if !ok { return; }
    assert a + b + c + [] == a + b + c;
    ok, vc := CheckGiven(r, p0, a + b, [] + va + vb, Bit(flags2, 7), [Str, ANY_BYTE], []);
  }

  method CheckExtras(r: Reader, flags2: nat) returns (ok: bool)
    requires Ready(r)
    modifies r
    ensures ok <==> ReadPieces(ExtraPieces(flags2), r.data, old(r.pos)).Yes?
    ensures ok ==> Ready(r) && ReadPieces(ExtraPieces(flags2), r.data, old(r.pos)).next == r.pos
  {
    PiecesConcat(PaintPieces(flags2), MarkPieces(flags2), r.data, r.pos);
    ok := CheckPaint(r, flags2);
    if ok {
      ok := CheckMark(r, flags2);
    }
  }

  /** A byte read without a bound answers every bounded read of it. */
  lemma ByteRange(lo: nat, hi: nat, data: Bytes, p: nat) returns (n: nat)
    requires p <= |data| && ReadPieces([ANY_BYTE], data, p).Yes?
    ensures ReadPieces([ANY_BYTE], data, p) == Yes([Number(n)], p + 1) && p < |data| && data[p] == n
    ensures ReadPieces([Num(1, lo, hi)], data, p) == if lo <= n <= hi then Yes([Number(n)], p + 1) else No
  {
    n := JoinByte(0, 255, [], data, p);
    var ps, qs := [ANY_BYTE], [Num(1, lo, hi)];
    assert ps[1..] == [] && qs[1..] == [];
    assert ReadPiece(ps[0], data, p) == Yes(Number(n), p + 1);
    assert [Number(n)] + [] == [Number(n)];
  }

  /** Face and flags of a drawn layer, whose number was read at p. */
  method CheckHead(r: Reader, layer: nat, ghost p: nat) returns (ok: bool, flags: nat)
    requires Ready(r) && p < |r.data| && r.pos == p + 1 && layer < REAL_LAYERS
    requires ReadPieces([Num(1, 0, REAL_LAYERS - 1)], r.data, p) == Yes([Number(layer)], r.pos)
    modifies r
    ensures ok <==> ReadPieces(DRAWN_HEAD, r.data, p).Yes?
    ensures var head := ReadPieces(DRAWN_HEAD, r.data, p);
            ok ==> Ready(r) && head.next == r.pos
                   && NumberOf(head.value[0]) == layer && NumberOf(head.value[2]) == flags
  {
    var vs;
    flags := 0;
    ok, vs := CheckPieces(r, [Skip(3), ANY_BYTE]);
    HeadThen(layer, r.data, p);
    if ok {
      flags := vs[1].n;
    }
  }

  /** The second flag word, if the first announces it. */
  method CheckMore(r: Reader, flags: nat) returns (ok: bool, flags2: nat)
    requires Ready(r)
    modifies r
    ensures ok <==> ReadPieces(MorePieces(flags), r.data, old(r.pos)).Yes?
    ensures var more := ReadPieces(MorePieces(flags), r.data, old(r.pos));
            ok ==> Ready(r) && more.next == r.pos && flags2 == if more.value == [] then 0 else NumberOf(more.value[0])
  {
    ghost var p := r.pos;
    var vs;
    flags2 := 0;
    ok, vs := CheckPieces(r, Given(Bit(flags, 7), [Num(4, 0, 1023)]));
    if ok {
      MoreFrom(flags, r.data, p);
      flags2 := if |vs| == 0 then 0 else vs[0].n;
    }
  }

  /** A drawn layer behind its number. */
  method CheckDrawn(r: Reader, layer: nat, ghost p: nat) returns (ok: bool)
    requires Ready(r) && p < |r.data| && r.pos == p + 1 && layer < REAL_LAYERS
    requires ReadPieces([Num(1, 0, REAL_LAYERS - 1)], r.data, p) == Yes([Number(layer)], r.pos)
    modifies r
    ensures ok <==> ReadDrawn(r.data, p).Yes?
    ensures ok ==> Ready(r) && ReadDrawn(r.data, p).next == r.pos && ReadDrawn(r.data, p).value.layer == layer
  {
    var flags, moving, flags2;
    ghost var look;
    ok, flags := CheckHead(r, layer, p);
    if !ok { return; }
    ok, moving, look := CheckLook(r, flags);
    if !ok { return; }
    ok := CheckShape(r, flags, moving);
    if !ok { return; }
    ok, flags2 := CheckMore(r, flags);
    if !ok { return; }
    ok := CheckExtras(r, flags2);
  }

  lemma HeadThen(layer: nat, data: Bytes, p: nat)
    requires p + 1 <= |data| && layer < REAL_LAYERS
    requires ReadPieces([Num(1, 0, REAL_LAYERS - 1)], data, p) == Yes([Number(layer)], p + 1)
    ensures var rest := ReadPieces([Skip(3), ANY_BYTE], data, p + 1);
            && (ReadPieces(DRAWN_HEAD, data, p).Yes? <==> rest.Yes?)
            && (rest.Yes? ==>
                  && |rest.value| == 2 && rest.value[1].Number? && rest.value[1].n >= 0
                  && ReadPieces(DRAWN_HEAD, data, p) == Yes([Number(layer)] + rest.value, rest.next))
  {
    var a, b := [Num(1, 0, REAL_LAYERS - 1)], [Skip(3), ANY_BYTE];
    assert DRAWN_HEAD == a + b;
    PiecesConcat(a, b, data, p);
    if ReadPieces(b, data, p + 1).Yes? {
      HeadFrom(data, p);
    }
  }

  /** The same verdict and, if favourable, the same place to go on. */
  predicate Same<T, U>(a: Parse<T>, b: Parse<U>) {
    (a.Yes? <==> b.Yes?) && (a.Yes? ==> a.next == b.next)
  }

  /** A table of flags marks the numbers already seen. */
  ghost predicate Marks(seen: array<bool>, numbers: set<int>)
    reads seen
  {
    && (forall i | 0 <= i < seen.Length :: seen[i] <==> i in numbers)
  }

  lemma AnyByteReads(data: Bytes, p: nat)
    requires p < |data|
    ensures ReadPieces([ANY_BYTE], data, p).Yes?
  {
    var ps := [ANY_BYTE];
    PowerBytes();
    FitsIfRead(ANY_BYTE, data, p);
    assert ReadPiece(ANY_BYTE, data, p).Yes?;
    assert ps[1..] == [];
  }

  lemma NoByte(data: Bytes, p: nat)
    requires p <= |data| && ReadPieces([ANY_BYTE], data, p).No?
    ensures p == |data| && LayerAt(data, p).No?
  {
    if p < |data| {
      AnyByteReads(data, p);
    }
  }

  lemma DrawnNumber(data: Bytes, p: nat, layer: nat)
    requires p < |data| && ReadPieces([ANY_BYTE], data, p) == Yes([Number(layer)], p + 1)
    ensures ReadDrawn(data, p).Yes? ==> layer < REAL_LAYERS && ReadDrawn(data, p).value.layer == layer
  {
    if ReadDrawn(data, p).Yes? {
      HeadNumber(data, p, layer);
    }
  }

  lemma HeadNumber(data: Bytes, p: nat, layer: nat)
    requires p < |data| && ReadPieces([ANY_BYTE], data, p) == Yes([Number(layer)], p + 1)
    requires ReadPieces(DRAWN_HEAD, data, p).Yes?
    ensures layer < REAL_LAYERS && ReadPieces(DRAWN_HEAD, data, p).value[0] == Number(layer)
  {
    var n := ByteRange(0, REAL_LAYERS - 1, data, p);
    var a, b := [Num(1, 0, REAL_LAYERS - 1)], [Skip(3), ANY_BYTE];
    assert DRAWN_HEAD == a + b;
    PiecesConcat(a, b, data, p);
  }

  /** One layer whose number is new; the table then marks it. */
  method CheckLayer(r: Reader, seen: array<bool>, ghost numbers: set<int>) returns (ok: bool, layer: nat)
    requires Ready(r) && seen.Length == REAL_LAYERS && Marks(seen, numbers)
    modifies r, seen
    ensures ok <==> LayerAt(r.data, old(r.pos)).Yes? && LayerAt(r.data, old(r.pos)).value.layer !in numbers
    ensures ok ==> Ready(r) && LayerAt(r.data, old(r.pos)).next == r.pos
    ensures ok ==> layer == LayerAt(r.data, old(r.pos)).value.layer && Marks(seen, numbers + {layer})
  {
    ghost var p := r.pos;
    var vs;
    layer := 0;
    ok, vs := CheckPieces(r, [ANY_BYTE]);
    if !ok {
      NoByte(r.data, p);
      return;
    }
    ghost var n := ByteRange(0, REAL_LAYERS - 1, r.data, p);
    var kind := vs[0].n;
    layer := kind;
    DrawnNumber(r.data, p, layer);
    if kind == LAYER_CLEAR {
      ok, vs := CheckPieces(r, [ANY_BYTE]);
      if !ok {
        NoByte(r.data, p + 1);
        NoRange(r.data, p + 1);
        return;
      }
      ghost var m := ByteRange(0, REAL_LAYERS - 1, r.data, p + 1);
      layer := vs[0].n;
    }
    if layer >= REAL_LAYERS || seen[layer] {
      return false, layer;
    }
    seen[layer] := true;
    if kind != LAYER_CLEAR {
      ok := CheckDrawn(r, layer, p);
    }
  }

  lemma NoRange(data: Bytes, p: nat)
    requires p == |data|
    ensures ReadPieces([Num(1, 0, REAL_LAYERS - 1)], data, p).No?
  {
  }

  lemma ManyStep<T>(s: Syntax<T>, read: Reading<T>, n: nat, seen: set<int>, data: Bytes, p: nat)
    requires n > 0
    ensures var one := read(data, p);
            Same(ReadMany(s, read, n, seen, data, p),
                 if one.No? || s.key(one.value) in seen then No
                 else ReadMany(s, read, n - 1, seen + {s.key(one.value)}, data, one.next))
  {
  }

  /** read stands for LayerAt, which need not be looked into where layers are only counted. */
  ghost predicate ReadsLayers(read: Reading<Layer>) {
    forall data, p: nat {:trigger LayerAt(data, p)} :: read(data, p) == LayerAt(data, p)
  }

  /** One turn of the loop over n layers. */
  method CheckNextLayer(r: Reader, seen: array<bool>, ghost read: Reading<Layer>, ghost n: nat, ghost numbers: set<int>)
    returns (ok: bool, layer: nat)
    requires Ready(r) && seen.Length == REAL_LAYERS && Marks(seen, numbers) && n > 0 && ReadsLayers(read)
    modifies r, seen
    ensures ok ==> Ready(r) && Marks(seen, numbers + {layer})
    ensures ok ==> Same(ReadMany(LAYER_SYNTAX, read, n, numbers, r.data, old(r.pos)),
                        ReadMany(LAYER_SYNTAX, read, n - 1, numbers + {layer}, r.data, r.pos))
    ensures !ok ==> ReadMany(LAYER_SYNTAX, read, n, numbers, r.data, old(r.pos)).No?
  {
    ManyStep(LAYER_SYNTAX, read, n, numbers, r.data, r.pos);
    ok, layer := CheckLayer(r, seen, numbers);
  }

  /** The loop head: the verdict depends on the n layers still to come. */
  ghost predicate AtLayer(r: Reader, seen: array<bool>, read: Reading<Layer>, verdict: Parse<seq<Layer>>,
                          n: nat, numbers: set<int>)
    reads r, seen
  {
    && Ready(r) && seen.Length == REAL_LAYERS && Marks(seen, numbers)
    && Same(verdict, ReadMany(LAYER_SYNTAX, read, n, numbers, r.data, r.pos))
  }

  method LayerTurn(r: Reader, seen: array<bool>, ghost read: Reading<Layer>, ghost verdict: Parse<seq<Layer>>,
                   ghost n: nat, ghost numbers: set<int>)
    returns (ok: bool, ghost numbers': set<int>)
    requires AtLayer(r, seen, read, verdict, n, numbers) && n > 0 && ReadsLayers(read)
    modifies r, seen
    ensures ok ==> AtLayer(r, seen, read, verdict, n - 1, numbers')
    ensures !ok ==> verdict.No?
  {
    var layer;
    ok, layer := CheckNextLayer(r, seen, read, n, numbers);
    numbers' := numbers + {layer};
  }

  method CheckLayers(r: Reader, ghost read: Reading<Layer>, n: nat) returns (ok: bool)
    requires Ready(r) && ReadsLayers(read)
    modifies r
    ensures ok <==> ReadMany(LAYER_SYNTAX, read, n, {}, r.data, old(r.pos)).Yes?
    ensures ok ==> Ready(r) && ReadMany(LAYER_SYNTAX, read, n, {}, r.data, old(r.pos)).next == r.pos
  {
    ghost var verdict := ReadMany(LAYER_SYNTAX, read, n, {}, r.data, r.pos);
    var seen := new bool[REAL_LAYERS](_ => false);
    ghost var numbers: set<int> := {};
    var i := 0;
    while i < n
      invariant 0 <= i <= n && AtLayer(r, seen, read, verdict, n - i, numbers)
      modifies r, seen
    {
      ok, numbers := LayerTurn(r, seen, read, verdict, n - i, numbers);
      if !ok {
        return;
      }
      i := i + 1;
    }
    ok := true;
  }

  // ----- Animations -----

  const ANIM_ENTRY: seq<Piece> := [Num(1, 0, SUB_LAYERS - 1), Num(1, 1, 2), Skip(2)]

  /** n more animations whose sub-layers are new. */
  function ReadFresh(n: nat, seen: set<int>, data: Bytes, p: nat): Parse<seq<Value>>
    requires p <= |data|
  {
    var (vs, q) :- ReadPieces(AnimPieces(n), data, p);
    if FreshAnims(vs, seen) then Yes(vs, q) else No
  }

  lemma FreshStep(n: nat, seen: set<int>, data: Bytes, p: nat)
    requires n > 0 && p <= |data|
    ensures var one := ReadPieces(ANIM_ENTRY, data, p);
            Same(ReadFresh(n, seen, data, p),
                 if one.No? || NumberOf(one.value[0]) in seen then No
                 else ReadFresh(n - 1, seen + {NumberOf(one.value[0])}, data, one.next))
  {
    var one := ReadPieces(ANIM_ENTRY, data, p);
    assert AnimPieces(n) == ANIM_ENTRY + AnimPieces(n - 1);
    PiecesConcat(ANIM_ENTRY, AnimPieces(n - 1), data, p);
    if one.Yes? {
      EntryNumber(data, p);
      var others := ReadPieces(AnimPieces(n - 1), data, one.next);
      if others.Yes? {
        assert (one.value + others.value)[0] == one.value[0];
        assert (one.value + others.value)[3..] == others.value;
      }
    }
  }

  lemma EntryNumber(data: Bytes, p: nat)
    requires p <= |data| && ReadPieces(ANIM_ENTRY, data, p).Yes?
    ensures var vs := ReadPieces(ANIM_ENTRY, data, p).value;
            |vs| == 3 && vs[0].Number? && 0 <= vs[0].n < SUB_LAYERS
  {
    var one := ReadPiece(ANIM_ENTRY[0], data, p);
    assert ReadPieces(ANIM_ENTRY, data, p).value[0] == one.value;
  }

  /** One turn of the loop over n animations. */
  method CheckNextAnim(r: Reader, seen: array<bool>, ghost n: nat, ghost numbers: set<int>)
    returns (ok: bool, ghost number: int)
    requires Ready(r) && seen.Length == SUB_LAYERS && Marks(seen, numbers) && n > 0
    modifies r, seen
    ensures ok ==> Ready(r) && Marks(seen, numbers + {number})
    ensures ok ==> Same(ReadFresh(n, numbers, r.data, old(r.pos)),
                        ReadFresh(n - 1, numbers + {number}, r.data, r.pos))
    ensures !ok ==> ReadFresh(n, numbers, r.data, old(r.pos)).No?
  {
    ghost var p := r.pos;
    FreshStep(n, numbers, r.data, p);
    number := 0;
    var vs;
    ok, vs := CheckPieces(r, ANIM_ENTRY);
    if ok {
      EntryNumber(r.data, p);
      number := vs[0].n;
      ok := !seen[vs[0].n];
      seen[vs[0].n] := true;
    }
  }

  method CheckAnimList(r: Reader, n: nat) returns (ok: bool)
    requires Ready(r)
    modifies r
    ensures ok <==> ReadFresh(n, {}, r.data, old(r.pos)).Yes?
    ensures ok ==> Ready(r) && ReadFresh(n, {}, r.data, old(r.pos)).next == r.pos
  {
    ghost var verdict := ReadFresh(n, {}, r.data, r.pos);
    var seen := new bool[SUB_LAYERS](_ => false);
    ghost var numbers: set<int> := {};
    var i := 0;
    while i < n
      invariant 0 <= i <= n && Ready(r) && Marks(seen, numbers)
      invariant Same(verdict, ReadFresh(n - i, numbers, r.data, r.pos))
      modifies r, seen
    {
      ghost var number;
      ok, number := CheckNextAnim(r, seen, n - i, numbers);
      if !ok {
        return;
      }
      numbers := numbers + {number};
      i := i + 1;
    }
    ok := true;
  }

  method CheckAnims(r: Reader) returns (ok: bool)
    requires Ready(r)
    modifies r
    ensures ok <==> ReadAnims(r.data, old(r.pos)).Yes?
    ensures ok ==> Ready(r) && ReadAnims(r.data, old(r.pos)).next == r.pos
  {
    var vs;
    ghost var p := r.pos;
    ok, vs := CheckPieces(r, EXT_FLAGS);
    if ok {
      ghost var ext := JoinByte(0, 1, [], r.data, p);
      if vs[0].n == 1 {
        ok, vs := CheckPieces(r, ANIM_COUNT);
        if ok {
          ghost var count := JoinByte(0, SUB_LAYERS, [], r.data, p + 1);
          ok := CheckAnimList(r, vs[0].n);
        }
      }
    }
  }

  // ----- Tiles -----

  /** k stands for MAP_PARTS. */
  ghost predicate IsMap(k: TileParts) {
    k.layer == LAYER_SYNTAX && forall mask: nat {:trigger GroundPieces(mask)} :: k.ground(mask) == GroundPieces(mask)
  }

  method CheckGround(r: Reader, mask: nat) returns (ok: bool)
    requires Ready(r)
    modifies r
    ensures ok <==> ReadPieces(GroundPieces(mask), r.data, old(r.pos)).Yes?
    ensures ok ==> Ready(r) && ReadPieces(GroundPieces(mask), r.data, old(r.pos)).next == r.pos
  {
    ghost var p0 := r.pos;
    ghost var a, b := Given(Bit(mask, 0), [Skip(2)]), Given(Bit(mask, 5), [Num(1, 0, 1)]);
    ghost var c, d := Given(Bit(mask, 2), [Skip(1)]), Given(Bit(mask, 3), [Skip(SUB_LAYERS - 1)]);
    assert [] + a == a && a + b + c + d == a + (b + c + d) == a + b + (c + d);
    var va, vb, vc, vd;
    ok, va := CheckGiven(r, p0, [], [], Bit(mask, 0), [Skip(2)], b + c + d);
    if !ok { return; }
    ok, vb := CheckGiven(r, p0, a, [] + va, Bit(mask, 5), [Num(1, 0, 1)], c + d);
    if !ok { return; }
    ok, vc := CheckGiven(r, p0, a + b, [] + va + vb, Bit(mask, 2), [Skip(1)], d);
    if !ok { return; }
    assert a + b + c + d + [] == a + b + c + d;
    ok, vd := CheckGiven(r, p0, a + b + c, [] + va + vb + vc, Bit(mask, 3), [Skip(SUB_LAYERS - 1)], []);
  }

  method CheckGroundOf(r: Reader, ghost k: TileParts, mask: nat) returns (ok: bool)
    requires Ready(r) && IsMap(k)
    modifies r
    ensures ok <==> ReadPieces(k.ground(mask), r.data, old(r.pos)).Yes?
    ensures ok ==> Ready(r) && ReadPieces(k.ground(mask), r.data, old(r.pos)).next == r.pos
  {
    assert k.ground(mask) == GroundPieces(mask);
    ok := CheckGround(r, mask);
  }

  /** What follows the word of a tile that is not cleared. */
  method CheckShown(r: Reader, ghost k: TileParts, ghost read: Reading<Layer>, ghost x: nat, ghost y: nat, mask: nat)
    returns (ok: bool)
    requires Ready(r) && ReadsLayers(read) && IsMap(k)
    modifies r
    ensures ok <==> ReadShown(k, read, x, y, mask, r.data, old(r.pos)).Yes?
    ensures ok ==> Ready(r) && ReadShown(k, read, x, y, mask, r.data, old(r.pos)).next == r.pos
  {
    ok := CheckGroundOf(r, k, mask);
    if !ok { return; }
    ghost var p1 := r.pos;
    var vs;
    ok, vs := CheckPieces(r, LAYER_COUNT);
    if !ok { return; }
    ghost var count := JoinByte(0, REAL_LAYERS, [], r.data, p1);
    ok := CheckLayers(r, read, vs[0].n);
    if !ok { return; }
    ok := CheckAnims(r);
  }

  /** One tile: the body of the loop in socket_command_map_validate_level. */
  method CheckTile(r: Reader, ghost read: Reading<Layer>, width: nat, height: nat) returns (ok: bool)
    requires Ready(r) && ReadsLayers(read)
    modifies r
    ensures ok <==> ReadTile(MAP_PARTS, read, r.data, old(r.pos), width, height).Yes?
    ensures ok ==> Ready(r) && ReadTile(MAP_PARTS, read, r.data, old(r.pos), width, height).next == r.pos
    ensures ok ==> r.pos > old(r.pos)
  {
    ghost var p := r.pos;
    var vs;
    ok, vs := CheckPieces(r, TILE_WORD);
    if !ok {
      return;
    }
    ghost var w := JoinWord([], r.data, p);
    var word := vs[0].n;
    var x, y, mask := word / 2048, word / 64 % 32, word % 64;
    if x >= width || y >= height {
      return false;
    }
    if Bit(mask, 1) {
      return mask == 2 || mask == 18;
    }
    if Bit(mask, 4) {
      return false;
    }
    ok := CheckShown(r, MAP_PARTS, read, x, y, mask);
    if ok {
      ShownOnward(read, x, y, mask, r.data, p + 2);
    }
  }

  lemma ShownOnward(read: Reading<Layer>, x: nat, y: nat, mask: nat, data: Bytes, p: nat)
    requires ReadsLayers(read) && p <= |data| && ReadShown(MAP_PARTS, read, x, y, mask, data, p).Yes?
    ensures ReadShown(MAP_PARTS, read, x, y, mask, data, p).next >= p
  {
    LayersExact();
    ReadsExact(read);
    ShownIs(MAP_PARTS, read, x, y, mask, data, p);
  }

  lemma ReadsExact(read: Reading<Layer>)
    requires ReadsLayers(read)
    ensures Exact(LAYER_SYNTAX, read)
  {
    LayersExact();
    var s := LAYER_SYNTAX;
    forall l, data, p: nat
      ensures Complete(s, read, l, data, p)
    {
      assert read(data, p) == LayerAt(data, p);
      assert Complete(s, LayerAt, l, data, p);
    }
    forall data, p: nat
      ensures Sound(s, read, data, p)
    {
      assert read(data, p) == LayerAt(data, p);
      assert Sound(s, LayerAt, data, p);
    }
  }

  /** read stands for TileAt(width, height). */
  ghost predicate ReadsTiles(read: Reading<Tile>, width: nat, height: nat) {
    forall data, p: nat {:trigger TileAt(width, height)(data, p)} ::
      read(data, p) == TileAt(width, height)(data, p)
  }

  lemma ToEndStep<T>(read: Reading<T>, data: Bytes, p: nat)
    requires p < |data|
    ensures var one := read(data, p);
            Same(ReadToEnd(read, data, p),
                 if one.No? || one.next <= p then No else ReadToEnd(read, data, one.next))
  {
  }

  method CheckNextTile(r: Reader, ghost read: Reading<Tile>, width: nat, height: nat) returns (ok: bool)
    requires Ready(r) && ReadsTiles(read, width, height) && r.pos < |r.data|
    modifies r
    ensures ok ==> Ready(r) && r.pos > old(r.pos)
    ensures ok ==> Same(ReadToEnd(read, r.data, old(r.pos)), ReadToEnd(read, r.data, r.pos))
    ensures !ok ==> ReadToEnd(read, r.data, old(r.pos)).No?
  {
    ToEndStep(read, r.data, r.pos);
    assert read(r.data, r.pos) == TileAt(width, height)(r.data, r.pos);
    assert ReadsLayers(LayerAt);
    ok := CheckTile(r, LayerAt, width, height);
  }

  /** socket_command_map_validate_level. */
  method CheckLevel(r: Reader, ghost read: Reading<Tile>, width: nat, height: nat) returns (ok: bool)
    requires Ready(r) && r.pos == 0 && ReadsTiles(read, width, height)
    modifies r
    ensures ok <==> ReadToEnd(read, r.data, 0).Yes?
  {
    ghost var verdict := ReadToEnd(read, r.data, 0);
    while r.pos < |r.data|
      invariant Ready(r)
      invariant Same(verdict, ReadToEnd(read, r.data, r.pos))
      decreases |r.data| - r.pos
    {
      ok := CheckNextTile(r, read, width, height);
      if !ok {
        return;
      }
    }
    ok := r.pos == |r.data|;
  }

  // ----- The command -----

  /** Depth and size of a level. */
  method CheckLevelHead(r: Reader) returns (ok: bool, depth: int, size: nat)
    requires Ready(r)
    modifies r
    ensures var first := ReadPieces(DEPTH, r.data, old(r.pos));
            && (ok <==> first.Yes? && ReadPieces(SIZE, r.data, first.next).Yes?)
            && (ok ==>
                  && Ready(r) && first.value == [Number(depth)] && -MAX_DEPTH <= depth <= MAX_DEPTH
                  && ReadPieces(SIZE, r.data, first.next) == Yes([Number(size)], r.pos))
  {
    ghost var p := r.pos;
    var vs;
    depth, size := 0, 0;
    ok, vs := CheckPieces(r, DEPTH);
    if !ok { return; }
    ghost var d := DepthIs(r.data, p, []);
    depth := vs[0].n;
    ok, vs := CheckPieces(r, SIZE);
    if !ok { return; }
    ghost var n := SizeIs(r.data, p + 1, []);
    size := vs[0].n;
  }

  /** level_mask: one flag for every depth. */
  ghost predicate MarksDepths(seen: array<bool>, depths: set<int>)
    reads seen
  {
    forall i | 0 <= i < seen.Length :: seen[i] <==> i - MAX_DEPTH in depths
  }

  /** One level: its depth is new, its size fits, and its bytes are tiles. */
  method CheckOneLevel(r: Reader, seen: array<bool>, ghost depths: set<int>, ghost read: Reading<Tile>,
                       width: nat, height: nat)
    returns (ok: bool, ghost depth: int)
    requires Ready(r) && ReadsTiles(read, width, height)
    requires seen.Length == LEVELS && MarksDepths(seen, depths)
    modifies r, seen
    ensures ok <==> ReadLevel(read, r.data, old(r.pos)).Yes?
                    && ReadLevel(read, r.data, old(r.pos)).value.depth !in depths
    ensures ok ==> Ready(r) && ReadLevel(read, r.data, old(r.pos)).next == r.pos
    ensures ok ==> ReadLevel(read, r.data, old(r.pos)).value.depth == depth && MarksDepths(seen, depths + {depth})
    ensures ok ==> -MAX_DEPTH <= depth <= MAX_DEPTH
  {
    var d, size;
    ok, d, size := CheckLevelHead(r);
    depth := d;
    if !ok { return; }
    var remaining := r.Remaining();
    if size > remaining {
      return false, depth;
    }
    var bit := d + MAX_DEPTH;
    assert bit - MAX_DEPTH == d;
    if seen[bit] {
      return false, depth;
    }
    seen[bit] := true;
    ok := CheckSlice(r, size, read, width, height);
  }

  /** The bytes of a level, through a cursor of their own. */
  method CheckSlice(r: Reader, size: nat, ghost read: Reading<Tile>, width: nat, height: nat) returns (ok: bool)
    requires Ready(r) && ReadsTiles(read, width, height) && r.pos + size <= |r.data|
    modifies r
    ensures ok <==> ReadToEnd(read, Slice(r.data, old(r.pos), size), 0).Yes?
    ensures Ready(r) && r.pos == old(r.pos) + size
  {
    var view := r.ReadView(size);
    var level := new Reader(view, 0);
    ok := CheckLevel(level, read, width, height);
  }

  /** read stands for LevelAt(width, height). */
  ghost predicate ReadsLevels(read: Reading<Level>, width: nat, height: nat) {
    forall data, p: nat {:trigger LevelAt(width, height)(data, p)} ::
      read(data, p) == LevelAt(width, height)(data, p)
  }

  function Grow<T>(got: seq<T>, r: Parse<seq<T>>): Parse<seq<T>> {
    if r.Yes? then Yes(got + r.value, r.next) else No
  }

  lemma GrowTwice<T>(got: seq<T>, t: T, r: Parse<seq<T>>)
    ensures Grow(got, Grow([t], r)) == Grow(got + [t], r)
  {
    if r.Yes? {
      assert got + ([t] + r.value) == got + [t] + r.value;
    }
  }

  lemma ManyFrom<T>(s: Syntax<T>, read: Reading<T>, n: nat, seen: set<int>, data: Bytes, p: nat)
    requires n > 0 && read(data, p).Yes? && s.key(read(data, p).value) !in seen
    ensures var one := read(data, p);
            ReadMany(s, read, n, seen, data, p) ==
            Grow([one.value], ReadMany(s, read, n - 1, seen + {s.key(one.value)}, data, one.next))
  {
  }

  ghost predicate KeyedByDepth(s: Syntax<Level>) {
    forall l: Level :: s.key(l) == l.depth
  }

  /** One turn of the loop over n levels. */
  method CheckNextLevel(r: Reader, seen: array<bool>, ghost s: Syntax<Level>, ghost read: Reading<Level>,
                        ghost n: nat, ghost depths: set<int>, width: nat, height: nat)
    returns (ok: bool, ghost level: Level)
    requires Ready(r) && ReadsLevels(read, width, height) && KeyedByDepth(s)
    requires seen.Length == LEVELS && MarksDepths(seen, depths) && n > 0
    modifies r, seen
    ensures ok ==> Ready(r) && MarksDepths(seen, depths + {level.depth})
    ensures ok ==> ReadMany(s, read, n, depths, r.data, old(r.pos)) ==
                   Grow([level], ReadMany(s, read, n - 1, depths + {level.depth}, r.data, r.pos))
    ensures !ok ==> ReadMany(s, read, n, depths, r.data, old(r.pos)).No?
  {
    ghost var p := r.pos;
    ManyStep(s, read, n, depths, r.data, p);
    assert read(r.data, p) == LevelAt(width, height)(r.data, p);
    assert ReadsTiles(TileAt(width, height), width, height);
    ghost var depth;
    ok, depth := CheckOneLevel(r, seen, depths, TileAt(width, height), width, height);
    level := Level(0, []);
    if ok {
      level := read(r.data, p).value;
      ManyFrom(s, read, n, depths, r.data, p);
    }
  }

  ghost predicate AllDepths(ls: seq<Level>, depths: set<int>) {
    forall d :: HasDepth(ls, d) <==> d in depths
  }

  lemma MoreDepths(ls: seq<Level>, l: Level, depths: set<int>)
    requires AllDepths(ls, depths)
    ensures AllDepths(ls + [l], depths + {l.depth})
  {
    forall d
      ensures HasDepth(ls + [l], d) <==> d in depths + {l.depth}
    {
      if HasDepth(ls, d) {
        var i :| 0 <= i < |ls| && ls[i].depth == d;
        assert (ls + [l])[i].depth == d;
      }
      if d == l.depth {
        assert (ls + [l])[|ls|].depth == d;
      }
    }
  }

  /** The loop head: the levels got so far, and the verdict that depends on the n still to come. */
  ghost predicate AtLevel(r: Reader, seen: array<bool>, s: Syntax<Level>, read: Reading<Level>,
                          verdict: Parse<seq<Level>>,
                          n: nat, got: seq<Level>, depths: set<int>)
    reads r, seen
  {
    && Ready(r) && seen.Length == LEVELS && MarksDepths(seen, depths) && AllDepths(got, depths)
    && verdict == Grow(got, ReadMany(s, read, n, depths, r.data, r.pos))
  }

  method LevelTurn(r: Reader, seen: array<bool>, ghost s: Syntax<Level>, ghost read: Reading<Level>,
                   ghost verdict: Parse<seq<Level>>, ghost n: nat, ghost got: seq<Level>, ghost depths: set<int>,
                   width: nat, height: nat)
    returns (ok: bool, ghost got': seq<Level>, ghost depths': set<int>)
    requires AtLevel(r, seen, s, read, verdict, n, got, depths) && n > 0
    requires ReadsLevels(read, width, height) && KeyedByDepth(s)
    modifies r, seen
    ensures ok ==> AtLevel(r, seen, s, read, verdict, n - 1, got', depths')
    ensures !ok ==> verdict.No?
  {
    ghost var level;
    ok, level := CheckNextLevel(r, seen, s, read, n, depths, width, height);
    got', depths' := got, depths;
    if ok {
      GrowTwice(got, level, ReadMany(s, read, n - 1, depths + {level.depth}, r.data, r.pos));
      MoreDepths(got, level, depths);
      got', depths' := got + [level], depths + {level.depth};
    }
  }

  lemma GrowNothing<T>(r: Parse<seq<T>>)
    ensures Grow([], r) == r
  {
    if r.Yes? {
      assert [] + r.value == r.value;
    }
  }

  /** The loop over the levels; level0 tells whether depth 0 was among them. */
  method CheckLevels(r: Reader, n: nat, ghost s: Syntax<Level>, ghost read: Reading<Level>, width: nat, height: nat)
    returns (ok: bool, level0: bool)
    requires Ready(r) && ReadsLevels(read, width, height) && KeyedByDepth(s)
    modifies r
    ensures ok <==> ReadMany(s, read, n, {}, r.data, old(r.pos)).Yes?
    ensures ok ==> Ready(r) && ReadMany(s, read, n, {}, r.data, old(r.pos)).next == r.pos
    ensures ok ==> level0 == HasDepth(ReadMany(s, read, n, {}, r.data, old(r.pos)).value, 0)
  {
    ghost var verdict := ReadMany(s, read, n, {}, r.data, r.pos);
    var seen := new bool[LEVELS](_ => false);
    ghost var depths: set<int> := {};
    ghost var got: seq<Level> := [];
    level0 := false;
    GrowNothing(verdict);
    var i := 0;
    while i < n
      invariant 0 <= i <= n && AtLevel(r, seen, s, read, verdict, n - i, got, depths)
      modifies r, seen
    {
      ok, got, depths := LevelTurn(r, seen, s, read, verdict, n - i, got, depths, width, height);
      if !ok {
        return;
      }
      i := i + 1;
    }
    ok := true;
    assert verdict.value == got + [] == got;
    assert MAX_DEPTH - MAX_DEPTH == 0;
    level0 := seen[MAX_DEPTH];
  }

  lemma {:induction false} GoodAt(ps: seq<Piece>, vs: seq<Value>, i: nat)
    requires AllGood(ps, vs) && i < |ps|
    ensures i < |vs| && Good(ps[i], vs[i])
  {
    if i > 0 {
      GoodAt(ps[1..], vs[1..], i - 1);
    }
  }

  /** The numbers that the consistency checks look at. */
  lemma IntroNumbers(stat: nat, intro: seq<Value>, place: seq<Value>)
    requires 1 <= stat <= 2 && AllGood(IntroPieces(stat), intro) && AllGood(PLACE_PIECES, place)
    ensures |place| == 3 && place[0].Number? && place[1].Number?
    ensures |intro| == (if stat == 1 then 10 else 12) && intro[8].Number? && intro[9].Number?
    ensures stat == 2 ==> intro[11].Number? && 1 <= intro[8].n <= TILE_DOWN
  {
    var ps := IntroPieces(stat);
    AsManyValues(ps, intro);
    AsManyValues(PLACE_PIECES, place);
    GoodAt(PLACE_PIECES, place, 0);
    GoodAt(PLACE_PIECES, place, 1);
    GoodAt(ps, intro, 8);
    GoodAt(ps, intro, 9);
    if stat == 2 {
      GoodAt(ps, intro, 11);
    }
  }

  /** The depth offset of a connected map, and the player's place on a new one. */
  method CheckAgreement(stat: nat, intro: seq<Value>, place: seq<Value>) returns (ok: bool)
    requires stat <= 2 && AllGood(IntroPieces(stat), intro) && AllGood(PLACE_PIECES, place)
    ensures ok <==> Consistent(stat, intro, place)
  {
    if stat == 0 {
      return true;
    }
    IntroNumbers(stat, intro, place);
    if stat == 1 {
      ok := !(place[0].n >= intro[8].n || place[1].n >= intro[9].n);
    } else {
      var tile, zoff := intro[8].n, intro[11].n;
      ok := !((tile == TILE_UP && zoff != 1) || (tile == TILE_DOWN && zoff != -1) || (tile < TILE_UP && zoff != 0));
    }
  }

  /** Everything before the number of levels. */
  method CheckIntro(r: Reader) returns (ok: bool)
    requires Ready(r)
    modifies r
    ensures ok <==> ReadIntro(r.data, old(r.pos)).Yes?
    ensures ok ==> Ready(r) && ReadIntro(r.data, old(r.pos)).next == r.pos
  {
    ghost var p := r.pos;
    var vs, intro, place;
    ok, vs := CheckPieces(r, STAT);
    if !ok { return; }
    ghost var n := JoinByte(0, 2, [], r.data, p);
    var stat := vs[0].n;
    ok, intro := CheckPieces(r, IntroPieces(stat));
    if !ok { return; }
    ghost var p2 := r.pos;
    ok, place := CheckPieces(r, PLACE_PIECES);
    if !ok { return; }
    Join(IntroPieces(stat), [], r.data, p + 1);
    Join(PLACE_PIECES, [], r.data, p2);
    ok := CheckAgreement(stat, intro, place);
  }

  method CheckCommand(r: Reader, ghost s: Syntax<Level>, ghost read: Reading<Level>, width: nat, height: nat)
    returns (ok: bool)
    requires Ready(r) && ReadsLevels(read, width, height) && KeyedByDepth(s)
    modifies r
    ensures ok <==> ReadCommandOf(s, read, r.data, old(r.pos)).Yes?
  {
    var vs, level0;
    ok := CheckIntro(r);
    if !ok { return; }
    ghost var p1 := r.pos;
    ok, vs := CheckPieces(r, LEVEL_COUNT);
    if !ok { return; }
    ghost var n := JoinByte(1, LEVELS, [], r.data, p1);
    ok, level0 := CheckLevels(r, vs[0].n, s, read, width, height);
    if !ok { return; }
    ok := r.Finish();
    ok := ok && level0;
  }

  /**
   * map_protocol_validate: the verdict is favourable exactly when there is data, the
   * position and the limits make sense, and the bytes from pos on are the encoding of a
   * well-formed MAP command.
   */
  method Validate(data: Option<Bytes>, pos: nat, width: int, height: int) returns (ok: bool)
    requires data.Some? ==> |data.value| <= SIZE_MAX
    ensures ok <==> data.Some? && pos <= |data.value| && 1 <= width <= 32 && 1 <= height <= 32 &&
                    exists c :: Spells(c, data.value[pos..], width, height)
  {
    if data.None? || pos > |data.value| || width <= 0 || width > 32 || height <= 0 || height > 32 {
      return false;
    }
    var r := new Reader(data.value, pos);
    AcceptsExactlyCommands(data.value, pos, width, height);
    assert ReadsLevels(LevelAt(width, height), width, height) && KeyedByDepth(LevelSyntax(width, height));
    ok := CheckCommand(r, LevelSyntax(width, height), LevelAt(width, height), width, height);
  }
}
