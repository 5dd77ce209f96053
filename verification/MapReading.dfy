/**
 * Reading the MAP grammar from bytes. For every construct two laws: what is spelled at
 * a position is read back from there (..Back), and whatever is read is well formed and
 * spelled by the bytes passed over (..Is). Together they make reading the exact and
 * unambiguous inverse of spelling.
 */
module MapReading {
  import opened PacketFormat
  import opened MapGrammar

  datatype Parse<T> = Yes(value: T, next: nat) | No
  {
    predicate IsFailure() { No? }
    function PropagateFailure<U>(): Parse<U>
      requires No?
    { No }
    function Extract(): (T, nat)
      requires Yes?
    { (value, next) }
  }

  /** The cursor neither falls back nor leaves the data. */
  predicate Onward<T>(r: Parse<T>, data: Bytes, p: nat) {
    r.Yes? ==> p <= r.next <= |data|
  }

  // ----- Pieces -----

  function ReadPiece(piece: Piece, data: Bytes, p: nat): (r: Parse<Value>)
    requires p <= |data|
    ensures Onward(r, data, p)
  {
    match Decode(KindOf(piece), data, p)
    case Done(v, q) => if Good(piece, v) then Yes(v, q) else No
    case Failed(_) => No
  }

  function ReadPieces(ps: seq<Piece>, data: Bytes, p: nat): (r: Parse<seq<Value>>)
    requires p <= |data|
    ensures Onward(r, data, p)
    ensures r.Yes? ==> |r.value| == |ps|
  {
    if ps == [] then Yes([], p)
    else
      var (v, q) :- ReadPiece(ps[0], data, p);
      var (vs, r) :- ReadPieces(ps[1..], data, q);
      Yes([v] + vs, r)
  }

  lemma ReadPiecesStep(ps: seq<Piece>, data: Bytes, p: nat, q: nat, vs: seq<Value>, r: nat)
    requires ps != [] && vs != [] && p <= |data| && q <= |data|
    requires ReadPiece(ps[0], data, p) == Yes(vs[0], q)
    requires ReadPieces(ps[1..], data, q) == Yes(vs[1..], r)
    ensures ReadPieces(ps, data, p) == Yes(vs, r)
  {
    assert vs == [vs[0]] + vs[1..];
  }

  /** Pieces spelled at p, with the bytes rest behind them, are read back up to rest. */
  lemma {:induction false} Peel(ps: seq<Piece>, vs: seq<Value>, rest: Bytes, data: Bytes, p: nat)
    returns (q: nat)
    requires AllGood(ps, vs) && At(data, p, Spell(ps, vs) + rest)
    ensures q == p + |Spell(ps, vs)| && q <= |data| && At(data, q, rest)
    ensures ReadPieces(ps, data, p) == Yes(vs, q)
    decreases |ps|
  {
    if ps == [] {
      q := p;
      assert Spell(ps, vs) + rest == rest;
    } else {
      assert vs == [vs[0]] + vs[1..];
      SpellStep(ps, vs[0], vs[1..], rest);
      var m := PeelOne(ps[0], vs[0], Spell(ps[1..], vs[1..]) + rest, Spell(ps, vs) + rest, data, p);
      q := Peel(ps[1..], vs[1..], rest, data, m);
      ReadPiecesStep(ps, data, p, m, vs, q);
    }
  }

  lemma PeelOne(piece: Piece, v: Value, rest: Bytes, whole: Bytes, data: Bytes, p: nat) returns (q: nat)
    requires Good(piece, v) && whole == Encode(KindOf(piece), v) + rest && At(data, p, whole)
    ensures q == p + |Encode(KindOf(piece), v)| && q <= |data| && At(data, q, rest)
    ensures ReadPiece(piece, data, p) == Yes(v, q)
  {
    var x := Encode(KindOf(piece), v);
    AtConcat(data, p, x, rest);
    DecodeEncoded(KindOf(piece), v, data, p);
    q := p + |x|;
  }

  lemma JoinOne(piece: Piece, rest: Bytes, data: Bytes, p: nat)
    requires p <= |data| && ReadPiece(piece, data, p).Yes? && At(data, ReadPiece(piece, data, p).next, rest)
    ensures var r := ReadPiece(piece, data, p);
            && Good(piece, r.value) && At(data, p, Encode(KindOf(piece), r.value) + rest)
            && r.next == p + |Encode(KindOf(piece), r.value)|
  {
    DecodedIsEncoding(KindOf(piece), data, p);
    AtConcat(data, p, Encode(KindOf(piece), ReadPiece(piece, data, p).value), rest);
  }

  lemma SpellStep(ps: seq<Piece>, v: Value, vs: seq<Value>, rest: Bytes)
    requires ps != [] && Good(ps[0], v) && AllGood(ps[1..], vs)
    ensures AllGood(ps, [v] + vs)
    ensures Spell(ps, [v] + vs) + rest == Encode(KindOf(ps[0]), v) + (Spell(ps[1..], vs) + rest)
    ensures |Spell(ps, [v] + vs)| == |Encode(KindOf(ps[0]), v)| + |Spell(ps[1..], vs)|
  {
    assert ([v] + vs)[1..] == vs;
    var x, y := Encode(KindOf(ps[0]), v), Spell(ps[1..], vs);
    assert x + y + rest == x + (y + rest);
  }

  /** Pieces read at p, with the bytes rest behind them, are good and spelled at p before rest. */
  lemma {:induction false} Join(ps: seq<Piece>, rest: Bytes, data: Bytes, p: nat)
    requires p <= |data| && ReadPieces(ps, data, p).Yes? && At(data, ReadPieces(ps, data, p).next, rest)
    ensures var r := ReadPieces(ps, data, p);
            && AllGood(ps, r.value) && At(data, p, Spell(ps, r.value) + rest)
            && r.next == p + |Spell(ps, r.value)|
    decreases |ps|
  {
    var r := ReadPieces(ps, data, p);
    if ps == [] {
      assert Spell(ps, r.value) + rest == rest;
    } else {
      var one := ReadPiece(ps[0], data, p);
      var others := ReadPieces(ps[1..], data, one.next);
      Join(ps[1..], rest, data, one.next);
      JoinOne(ps[0], Spell(ps[1..], others.value) + rest, data, p);
      SpellStep(ps, one.value, others.value, rest);
    }
  }

  lemma OneByte(n: nat)
    requires n < 256
    ensures BigEndian(n, 1) == [n]
  {
    assert Power256(0) == 1;
    assert BigEndian(n, 1)[0] == ShiftedByte(n, 0);
  }

  /** A single number and how it is spelled. */
  lemma SpellNumber(width: nat, lo: nat, hi: nat, n: nat)
    requires n < Power256(width) && lo <= n <= hi
    ensures AllGood([Num(width, lo, hi)], [Number(n)])
    ensures Spell([Num(width, lo, hi)], [Number(n)]) == BigEndian(n, width)
  {
    var ps, vs := [Num(width, lo, hi)], [Number(n)];
    assert ps[1..] == [] && vs[1..] == [];
    assert Spell(ps, vs) == BigEndian(n, width) + [];
  }

  lemma PowerBytes()
    ensures Power256(1) == 256 && Power256(2) == 65536 && Power256(4) == 0x1_0000_0000
  {
    assert Power256(3) == 256 * Power256(2);
  }

  lemma PeelByte(lo: nat, hi: nat, n: nat, rest: Bytes, data: Bytes, p: nat)
    requires lo <= n <= hi && n < 256 && At(data, p, [n] + rest)
    ensures p + 1 <= |data| && At(data, p + 1, rest)
    ensures ReadPieces([Num(1, lo, hi)], data, p) == Yes([Number(n)], p + 1)
  {
    PowerBytes();
    OneByte(n);
    SpellNumber(1, lo, hi, n);
    var q := Peel([Num(1, lo, hi)], [Number(n)], rest, data, p);
  }

  lemma JoinByte(lo: nat, hi: nat, rest: Bytes, data: Bytes, p: nat) returns (n: nat)
    requires p <= |data| && ReadPieces([Num(1, lo, hi)], data, p).Yes?
    requires At(data, ReadPieces([Num(1, lo, hi)], data, p).next, rest)
    ensures ReadPieces([Num(1, lo, hi)], data, p) == Yes([Number(n)], p + 1)
    ensures lo <= n <= hi && n < 256 && p < |data| && data[p] == n && At(data, p, [n] + rest)
  {
    var ps := [Num(1, lo, hi)];
    Join(ps, rest, data, p);
    var vs := ReadPieces(ps, data, p).value;
    assert ps[1..] == [] && vs[1..] == [];
    assert Good(ps[0], vs[0]);
    n := vs[0].n;
    PowerBytes();
    OneByte(n);
    SpellNumber(1, lo, hi, n);
    assert vs == [Number(n)];
    AtConcat(data, p, [n], rest);
    assert data[p..p + 1][0] == n;
  }

  /** The number that a piece holds; pieces without one count as zero. */
  function NumberOf(v: Value): (n: nat)
    ensures v.Number? && v.n >= 0 ==> n == v.n
  {
    if v.Number? && v.n >= 0 then v.n else 0
  }

  // ----- Layers -----

  function ReadDrawn(data: Bytes, p: nat): (r: Parse<Layer>)
    requires p <= |data|
    ensures Onward(r, data, p)
  {
    var (head, p1) :- ReadPieces(DRAWN_HEAD, data, p);
    var flags := NumberOf(head[2]);
    var (look, p2) :- ReadPieces(LookPieces(flags), data, p1);
    ReadRest(NumberOf(head[0]), head[1], flags, look, data, p2)
  }

  /** What comes behind the look of a drawn layer. */
  function ReadRest(layer: nat, face: Value, flags: nat, look: seq<Value>, data: Bytes, p: nat): (r: Parse<Layer>)
    requires p <= |data|
    ensures Onward(r, data, p)
  {
    var (shape, p1) :- ReadPieces(ShapePieces(flags, Moving(flags, look)), data, p);
    var (more, p2) :- ReadPieces(MorePieces(flags), data, p1);
    var flags2 := if more == [] then 0 else NumberOf(more[0]);
    var (extras, p3) :- ReadPieces(ExtraPieces(flags2), data, p2);
    Yes(Drawn(layer, face, flags, look, shape, flags2, extras), p3)
  }

  function ReadLayer(data: Bytes, p: nat): (r: Parse<Layer>)
    requires p <= |data|
    ensures Onward(r, data, p)
  {
    if p < |data| && data[p] == LAYER_CLEAR then
      var (_, p1) :- ReadPieces([ANY_BYTE], data, p);
      var (layer, p2) :- ReadPieces([Num(1, 0, REAL_LAYERS - 1)], data, p1);
      Yes(Wiped(NumberOf(layer[0])), p2)
    else ReadDrawn(data, p)
  }

  lemma HeadOf(head: seq<Value>)
    requires AllGood(DRAWN_HEAD, head)
    ensures |head| == 3 && head[0].Number? && 0 <= head[0].n < REAL_LAYERS
    ensures head[1].Chunk? && head[2].Number? && 0 <= head[2].n < 256
    ensures head == [Number(NumberOf(head[0])), head[1], Number(NumberOf(head[2]))]
  {
    var ps := DRAWN_HEAD;
    PowerBytes();
    assert Good(ps[0], head[0]);
    assert AllGood(ps[1..], head[1..]);
    assert Good(ps[1..][0], head[1..][0]);
    assert AllGood(ps[1..][1..], head[1..][1..]);
    assert Good(ps[1..][1..][0], head[1..][1..][0]);
    assert AllGood(ps[1..][1..][1..], head[1..][1..][1..]);
    assert ps[1..][1..][1..] == [];
  }

  /** Five runs of pieces, read one after the other. */
  datatype Stage = Stage(ps: seq<Piece>, vs: seq<Value>)

  predicate GoodStage(s: Stage) {
    AllGood(s.ps, s.vs)
  }

  function SpellStage(s: Stage): Bytes
    requires GoodStage(s)
  {
    Spell(s.ps, s.vs)
  }

  predicate Reads(s: Stage, data: Bytes, p: nat, q: nat) {
    p <= |data| && ReadPieces(s.ps, data, p) == Yes(s.vs, q)
  }

  function SpellFive(a: Stage, b: Stage, c: Stage, d: Stage, e: Stage): Bytes
    requires GoodStage(a) && GoodStage(b) && GoodStage(c) && GoodStage(d) && GoodStage(e)
  {
    SpellStage(a) + (SpellStage(b) + (SpellStage(c) + (SpellStage(d) + SpellStage(e))))
  }

  lemma PeelStage(s: Stage, rest: Bytes, data: Bytes, p: nat) returns (q: nat)
    requires GoodStage(s) && At(data, p, SpellStage(s) + rest)
    ensures q == p + |SpellStage(s)| && At(data, q, rest) && Reads(s, data, p, q)
  {
    q := Peel(s.ps, s.vs, rest, data, p);
  }

  lemma JoinStage(s: Stage, rest: Bytes, data: Bytes, p: nat, q: nat)
    requires Reads(s, data, p, q) && At(data, q, rest)
    ensures GoodStage(s) && At(data, p, SpellStage(s) + rest) && q == p + |SpellStage(s)|
  {
    Join(s.ps, rest, data, p);
  }

  lemma PeelFive(a: Stage, b: Stage, c: Stage, d: Stage, e: Stage, data: Bytes, p: nat)
    returns (p1: nat, p2: nat, p3: nat, p4: nat, p5: nat)
    requires GoodStage(a) && GoodStage(b) && GoodStage(c) && GoodStage(d) && GoodStage(e)
    requires At(data, p, SpellFive(a, b, c, d, e))
    ensures Reads(a, data, p, p1) && Reads(b, data, p1, p2) && Reads(c, data, p2, p3)
    ensures Reads(d, data, p3, p4) && Reads(e, data, p4, p5)
    ensures p5 == p + |SpellFive(a, b, c, d, e)|
  {
    var y := SpellStage(d) + SpellStage(e);
    var x := SpellStage(c) + y;
    p1 := PeelStage(a, SpellStage(b) + x, data, p);
    p2 := PeelStage(b, x, data, p1);
    p3 := PeelStage(c, y, data, p2);
    p4 := PeelStage(d, SpellStage(e), data, p3);
    assert SpellStage(e) + [] == SpellStage(e);
    p5 := PeelStage(e, [], data, p4);
  }

  lemma JoinFive(a: Stage, b: Stage, c: Stage, d: Stage, e: Stage, data: Bytes,
                 p: nat, p1: nat, p2: nat, p3: nat, p4: nat, p5: nat)
    requires Reads(a, data, p, p1) && Reads(b, data, p1, p2) && Reads(c, data, p2, p3)
    requires Reads(d, data, p3, p4) && Reads(e, data, p4, p5)
    ensures GoodStage(a) && GoodStage(b) && GoodStage(c) && GoodStage(d) && GoodStage(e)
    ensures At(data, p, SpellFive(a, b, c, d, e)) && p5 == p + |SpellFive(a, b, c, d, e)|
  {
    JoinStage(e, [], data, p4, p5);
    assert SpellStage(e) + [] == SpellStage(e);
    JoinStage(d, SpellStage(e), data, p3, p4);
    var y := SpellStage(d) + SpellStage(e);
    JoinStage(c, y, data, p2, p3);
    var x := SpellStage(c) + y;
    JoinStage(b, x, data, p1, p2);
    JoinStage(a, SpellStage(b) + x, data, p, p1);
  }

  /** The five runs that a drawn layer consists of. */
  function HeadStage(l: Layer): Stage
    requires l.Drawn?
  {
    Stage(DRAWN_HEAD, [Number(l.layer), l.face, Number(l.flags)])
  }

  function LookStage(l: Layer): Stage
    requires l.Drawn?
  {
    Stage(LookPieces(l.flags), l.look)
  }

  function ShapeStage(l: Layer): Stage
    requires l.Drawn?
  {
    Stage(ShapePieces(l.flags, Moving(l.flags, l.look)), l.shape)
  }

  function MoreStage(l: Layer): Stage
    requires l.Drawn?
  {
    Stage(MorePieces(l.flags), MoreValues(l.flags, l.flags2))
  }

  function ExtraStage(l: Layer): Stage
    requires l.Drawn?
  {
    Stage(ExtraPieces(l.flags2), l.extras)
  }

  lemma DrawnByStages(l: Layer)
    requires l.Drawn? && GoodLayer(l)
    ensures GoodStage(HeadStage(l)) && GoodStage(LookStage(l)) && GoodStage(ShapeStage(l))
    ensures GoodStage(MoreStage(l)) && GoodStage(ExtraStage(l))
    ensures SpellLayer(l) ==
            SpellFive(HeadStage(l), LookStage(l), ShapeStage(l), MoreStage(l), ExtraStage(l))
  {
  }

  lemma ReadRestSteps(l: Layer, data: Bytes, p: nat, p1: nat, p2: nat, p3: nat)
    requires l.Drawn? && GoodLayer(l)
    requires Reads(ShapeStage(l), data, p, p1) && Reads(MoreStage(l), data, p1, p2)
    requires Reads(ExtraStage(l), data, p2, p3)
    ensures ReadRest(l.layer, l.face, l.flags, l.look, data, p) == Yes(l, p3)
  {
  }

  lemma ReadDrawnSteps(l: Layer, data: Bytes, p: nat, p1: nat, p2: nat, q: nat)
    requires l.Drawn? && p2 <= |data|
    requires Reads(HeadStage(l), data, p, p1) && Reads(LookStage(l), data, p1, p2)
    requires ReadRest(l.layer, l.face, l.flags, l.look, data, p2) == Yes(l, q)
    ensures ReadDrawn(data, p) == Yes(l, q)
  {
  }

  lemma DrawnBack(l: Layer, data: Bytes, p: nat)
    requires l.Drawn? && GoodLayer(l) && At(data, p, SpellLayer(l))
    ensures ReadDrawn(data, p) == Yes(l, p + |SpellLayer(l)|)
  {
    DrawnByStages(l);
    var p1, p2, p3, p4, p5 :=
      PeelFive(HeadStage(l), LookStage(l), ShapeStage(l), MoreStage(l), ExtraStage(l), data, p);
    ReadRestSteps(l, data, p2, p3, p4, p5);
    ReadDrawnSteps(l, data, p, p1, p2, p5);
  }

  lemma MoreIs(flags: nat, more: seq<Value>)
    requires AllGood(MorePieces(flags), more)
    ensures var flags2 := if more == [] then 0 else NumberOf(more[0]);
            more == MoreValues(flags, flags2) && (!Bit(flags, 7) ==> flags2 == 0)
  {
    if Bit(flags, 7) {
      var ps := MorePieces(flags);
      assert ps == [Num(4, 0, 1023)];
      assert ps[1..] == [] && more[1..] == [];
      assert Good(ps[0], more[0]);
      assert more == [more[0]];
    }
  }

  lemma HeadFrom(data: Bytes, p: nat)
    requires p <= |data| && ReadPieces(DRAWN_HEAD, data, p).Yes?
    ensures var v := ReadPieces(DRAWN_HEAD, data, p).value;
            v == [Number(NumberOf(v[0])), v[1], Number(NumberOf(v[2]))]
  {
    Join(DRAWN_HEAD, [], data, p);
    HeadOf(ReadPieces(DRAWN_HEAD, data, p).value);
  }

  lemma MoreFrom(flags: nat, data: Bytes, p: nat)
    requires p <= |data| && ReadPieces(MorePieces(flags), data, p).Yes?
    ensures var more := ReadPieces(MorePieces(flags), data, p).value;
            var flags2 := if more == [] then 0 else NumberOf(more[0]);
            more == MoreValues(flags, flags2) && (!Bit(flags, 7) ==> flags2 == 0)
  {
    Join(MorePieces(flags), [], data, p);
    MoreIs(flags, ReadPieces(MorePieces(flags), data, p).value);
  }

  lemma RestFrom(l: Layer, data: Bytes, p: nat, q: nat) returns (p1: nat, p2: nat)
    requires l.Drawn? && p <= |data| && ReadRest(l.layer, l.face, l.flags, l.look, data, p) == Yes(l, q)
    ensures Reads(ShapeStage(l), data, p, p1) && Reads(MoreStage(l), data, p1, p2)
    ensures Reads(ExtraStage(l), data, p2, q)
    ensures !Bit(l.flags, 7) ==> l.flags2 == 0
  {
    p1 := ReadPieces(ShapePieces(l.flags, Moving(l.flags, l.look)), data, p).next;
    p2 := ReadPieces(MorePieces(l.flags), data, p1).next;
    MoreFrom(l.flags, data, p1);
  }

  /** What a drawn layer was read from. */
  lemma DrawnFrom(data: Bytes, p: nat) returns (l: Layer, p1: nat, p2: nat, q: nat)
    requires p <= |data| && ReadDrawn(data, p).Yes?
    ensures l.Drawn? && ReadDrawn(data, p) == Yes(l, q) && p2 <= |data|
    ensures Reads(HeadStage(l), data, p, p1) && Reads(LookStage(l), data, p1, p2)
    ensures ReadRest(l.layer, l.face, l.flags, l.look, data, p2) == Yes(l, q)
  {
    l := ReadDrawn(data, p).value;
    p1 := ReadPieces(DRAWN_HEAD, data, p).next;
    HeadFrom(data, p);
    p2 := ReadPieces(LookPieces(l.flags), data, p1).next;
    q := ReadDrawn(data, p).next;
  }

  lemma DrawnIs(data: Bytes, p: nat)
    requires p <= |data| && ReadDrawn(data, p).Yes?
    ensures var r := ReadDrawn(data, p);
            && r.value.Drawn? && GoodLayer(r.value) && At(data, p, SpellLayer(r.value))
            && r.next == p + |SpellLayer(r.value)|
  {
    var l, p1, p2, p5 := DrawnFrom(data, p);
    var p3, p4 := RestFrom(l, data, p2, p5);
    JoinFive(HeadStage(l), LookStage(l), ShapeStage(l), MoreStage(l), ExtraStage(l),
             data, p, p1, p2, p3, p4, p5);
    DrawnByStages(l);
  }

  /** A drawn layer starts with its number, which is not the mark of a wiped one. */
  lemma DrawnStarts(l: Layer)
    requires l.Drawn? && GoodLayer(l)
    ensures l.layer < REAL_LAYERS && |SpellLayer(l)| > 0 && SpellLayer(l)[0] == l.layer
  {
    var head := [Number(l.layer), l.face, Number(l.flags)];
    HeadOf(head);
    OneByte(l.layer);
    assert Spell(DRAWN_HEAD, head) == BigEndian(l.layer, 1) + Spell(DRAWN_HEAD[1..], head[1..]);
    assert Spell(DRAWN_HEAD, head)[0] == l.layer;
  }

  lemma LayerBack(l: Layer, data: Bytes, p: nat)
    requires GoodLayer(l) && At(data, p, SpellLayer(l))
    ensures ReadLayer(data, p) == Yes(l, p + |SpellLayer(l)|)
  {
    assert data[p..p + |SpellLayer(l)|][0] == data[p];
    if l.Drawn? {
      DrawnStarts(l);
      DrawnBack(l, data, p);
    } else {
      assert [LAYER_CLEAR, l.layer] == [LAYER_CLEAR] + [l.layer] && [l.layer] == [l.layer] + [];
      PeelByte(0, 255, LAYER_CLEAR, [l.layer], data, p);
      PeelByte(0, REAL_LAYERS - 1, l.layer, [], data, p + 1);
    }
  }

  lemma LayerIs(data: Bytes, p: nat)
    requires p <= |data| && ReadLayer(data, p).Yes?
    ensures var r := ReadLayer(data, p);
            && GoodLayer(r.value) && At(data, p, SpellLayer(r.value))
            && r.next == p + |SpellLayer(r.value)|
  {
    if p < |data| && data[p] == LAYER_CLEAR {
      var mark := ReadPieces([ANY_BYTE], data, p);
      var n := JoinByte(0, REAL_LAYERS - 1, [], data, mark.next);
      assert [n] + [] == [n];
      var m := JoinByte(0, 255, [n], data, p);
      assert [LAYER_CLEAR, n] == [LAYER_CLEAR] + [n];
    } else {
      DrawnIs(data, p);
    }
  }

  // ----- Repetition -----

  type Reading<!T> = (Bytes, nat) -> Parse<T>

  /** Reading that is the exact inverse of the spelling. */
  ghost predicate Exact<T(!new)>(s: Syntax<T>, read: Reading<T>) {
    && (forall t, data, p: nat :: Complete(s, read, t, data, p))
    && (forall data, p: nat :: Sound(s, read, data, p))
  }

  predicate Complete<T(==)>(s: Syntax<T>, read: Reading<T>, t: T, data: Bytes, p: nat) {
    s.good(t) && At(data, p, s.spell(t)) ==> read(data, p) == Yes(t, p + |s.spell(t)|)
  }

  predicate Sound<T>(s: Syntax<T>, read: Reading<T>, data: Bytes, p: nat) {
    var r := read(data, p);
    r.Yes? ==>
      s.good(r.value) && At(data, p, s.spell(r.value)) && r.next == p + |s.spell(r.value)|
  }

  /** n items with keys that are new. */
  function ReadMany<T>(s: Syntax<T>, read: Reading<T>, n: nat, seen: set<int>, data: Bytes, p: nat)
    : (r: Parse<seq<T>>)
    ensures r.Yes? ==> |r.value| == n
    decreases n
  {
    if n == 0 then Yes([], p)
    else
      var (t, q) :- read(data, p);
      if s.key(t) in seen then No
      else
        var (ts, r) :- ReadMany(s, read, n - 1, seen + {s.key(t)}, data, q);
        Yes([t] + ts, r)
  }

  lemma {:induction false} ManyBack<T(!new)>(s: Syntax<T>, read: Reading<T>, ts: seq<T>, seen: set<int>,
                                             data: Bytes, p: nat)
    requires Exact(s, read) && GoodEach(s, ts) && Distinct(s, ts, seen) && p <= |data|
    requires At(data, p, SpellEach(s, ts))
    ensures ReadMany(s, read, |ts|, seen, data, p) == Yes(ts, p + |SpellEach(s, ts)|)
    decreases |ts|
  {
    if ts != [] {
      var head, tail := s.spell(ts[0]), SpellEach(s, ts[1..]);
      AtConcat(data, p, head, tail);
      assert Complete(s, read, ts[0], data, p);
      ManyBack(s, read, ts[1..], seen + {s.key(ts[0])}, data, p + |head|);
      assert ts == [ts[0]] + ts[1..];
    }
  }

  lemma {:induction false} ManyIs<T(!new)>(s: Syntax<T>, read: Reading<T>, n: nat, seen: set<int>,
                                           data: Bytes, p: nat)
    requires Exact(s, read) && p <= |data| && ReadMany(s, read, n, seen, data, p).Yes?
    ensures var r := ReadMany(s, read, n, seen, data, p);
            && GoodEach(s, r.value) && Distinct(s, r.value, seen) && At(data, p, SpellEach(s, r.value))
            && r.next == p + |SpellEach(s, r.value)|
    decreases n
  {
    if n > 0 {
      var ts := ReadMany(s, read, n, seen, data, p).value;
      var one := read(data, p);
      assert Sound(s, read, data, p);
      var seen' := seen + {s.key(one.value)};
      ManyIs(s, read, n - 1, seen', data, one.next);
      var others := ReadMany(s, read, n - 1, seen', data, one.next).value;
      assert ts == [one.value] + others;
      assert ts[0] == one.value && ts[1..] == others;
      AtConcat(data, p, s.spell(one.value), SpellEach(s, others));
    }
  }

  /** A count, that many items, and the bytes rest behind them. */
  function SpellCounted<T>(s: Syntax<T>, ts: seq<T>, rest: Bytes): Bytes
    requires |ts| < 256
  {
    [|ts|] + (SpellEach(s, ts) + rest)
  }

  lemma PeelCounted<T(!new)>(s: Syntax<T>, read: Reading<T>, ts: seq<T>, lo: nat, hi: nat, rest: Bytes,
                             data: Bytes, p: nat) returns (q: nat)
    requires Exact(s, read) && GoodEach(s, ts) && Distinct(s, ts, {})
    requires lo <= |ts| <= hi && |ts| < 256 && At(data, p, SpellCounted(s, ts, rest))
    ensures p + 1 <= |data| && ReadPieces([Num(1, lo, hi)], data, p) == Yes([Number(|ts|)], p + 1)
    ensures ReadMany(s, read, |ts|, {}, data, p + 1) == Yes(ts, q)
    ensures q <= |data| && At(data, q, rest) && q + |rest| == p + |SpellCounted(s, ts, rest)|
  {
    var x := SpellEach(s, ts);
    PeelByte(lo, hi, |ts|, x + rest, data, p);
    AtConcat(data, p + 1, x, rest);
    ManyBack(s, read, ts, {}, data, p + 1);
    q := p + 1 + |x|;
  }

  lemma JoinCounted<T(!new)>(s: Syntax<T>, read: Reading<T>, lo: nat, hi: nat, rest: Bytes,
                             data: Bytes, p: nat, n: nat, ts: seq<T>, q: nat)
    requires Exact(s, read) && p <= |data|
    requires ReadPieces([Num(1, lo, hi)], data, p).Yes?
    requires n == NumberOf(ReadPieces([Num(1, lo, hi)], data, p).value[0])
    requires ReadMany(s, read, n, {}, data, ReadPieces([Num(1, lo, hi)], data, p).next) == Yes(ts, q)
    requires At(data, q, rest)
    ensures GoodEach(s, ts) && Distinct(s, ts, {}) && lo <= |ts| <= hi && |ts| < 256
    ensures At(data, p, SpellCounted(s, ts, rest)) && q + |rest| == p + |SpellCounted(s, ts, rest)|
  {
    ManyIs(s, read, n, {}, data, ReadPieces([Num(1, lo, hi)], data, p).next);
    var x := SpellEach(s, ts);
    AtConcat(data, ReadPieces([Num(1, lo, hi)], data, p).next, x, rest);
    var m := JoinByte(lo, hi, x + rest, data, p);
  }

  /** Items up to the end of the data. */
  function ReadToEnd<T>(read: Reading<T>, data: Bytes, p: nat): (r: Parse<seq<T>>)
    decreases |data| - p
  {
    if p >= |data| then Yes([], p)
    else
      var (t, q) :- read(data, p);
      if q <= p then No
      else
        var (ts, r) :- ReadToEnd(read, data, q);
        Yes([t] + ts, r)
  }

  /** Nothing is spelled by no bytes at all. */
  ghost predicate Progresses<T(!new)>(s: Syntax<T>) {
    forall t :: s.good(t) ==> s.spell(t) != []
  }

  lemma {:induction false} ToEndBack<T(!new)>(s: Syntax<T>, read: Reading<T>, ts: seq<T>, data: Bytes, p: nat)
    requires Exact(s, read) && Progresses(s) && GoodEach(s, ts) && p <= |data|
    requires At(data, p, SpellEach(s, ts)) && p + |SpellEach(s, ts)| == |data|
    ensures ReadToEnd(read, data, p) == Yes(ts, |data|)
    decreases |ts|
  {
    if ts != [] {
      var head, tail := s.spell(ts[0]), SpellEach(s, ts[1..]);
      AtConcat(data, p, head, tail);
      assert Complete(s, read, ts[0], data, p);
      ToEndBack(s, read, ts[1..], data, p + |head|);
      assert ts == [ts[0]] + ts[1..];
    }
  }

  lemma {:induction false} ToEndIs<T(!new)>(s: Syntax<T>, read: Reading<T>, data: Bytes, p: nat)
    requires Exact(s, read) && p <= |data| && ReadToEnd(read, data, p).Yes?
    ensures var r := ReadToEnd(read, data, p);
            && GoodEach(s, r.value) && At(data, p, SpellEach(s, r.value))
            && r.next == |data| == p + |SpellEach(s, r.value)|
    decreases |data| - p
  {
    if p < |data| {
      var ts := ReadToEnd(read, data, p).value;
      var one := read(data, p);
      assert Sound(s, read, data, p);
      ToEndIs(s, read, data, one.next);
      var others := ReadToEnd(read, data, one.next).value;
      assert ts == [one.value] + others;
      assert ts[0] == one.value && ts[1..] == others;
      AtConcat(data, p, s.spell(one.value), SpellEach(s, others));
    }
  }

  function LayerAt(data: Bytes, p: nat): Parse<Layer> {
    if p <= |data| then ReadLayer(data, p) else No
  }

  lemma LayerComplete(l: Layer, data: Bytes, p: nat)
    ensures Complete(LAYER_SYNTAX, LayerAt, l, data, p)
  {
    if GoodLayer(l) && At(data, p, SpellLayer(l)) {
      LayerBack(l, data, p);
    }
  }

  lemma LayerSound(data: Bytes, p: nat)
    ensures Sound(LAYER_SYNTAX, LayerAt, data, p)
  {
    if LayerAt(data, p).Yes? {
      LayerIs(data, p);
    }
  }

  lemma LayersExact()
    ensures Exact(LAYER_SYNTAX, LayerAt)
  {
    forall l, data, p: nat
      ensures Complete(LAYER_SYNTAX, LayerAt, l, data, p)
    {
      LayerComplete(l, data, p);
    }
    forall data, p: nat
      ensures Sound(LAYER_SYNTAX, LayerAt, data, p)
    {
      LayerSound(data, p);
    }
  }
}
