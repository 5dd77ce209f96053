/** Reading the tiles of a MAP level: the word, the ground, the layers, the animations. */
module MapTiles {
  import opened PacketFormat
  import opened MapGrammar
  import opened MapReading
  import opened Wrappers

  // ----- Animations -----

  const EXT_FLAGS: seq<Piece> := [Num(1, 0, 1)]
  const ANIM_COUNT: seq<Piece> := [Num(1, 0, SUB_LAYERS)]

  function ReadAnimList(data: Bytes, p: nat): (r: Parse<Option<seq<Value>>>)
    requires p <= |data|
    ensures Onward(r, data, p)
  {
    var (count, p1) :- ReadPieces(ANIM_COUNT, data, p);
    var (vs, p2) :- ReadPieces(AnimPieces(NumberOf(count[0])), data, p1);
    if FreshAnims(vs, {}) then Yes(Some(vs), p2) else No
  }

  function ReadAnims(data: Bytes, p: nat): (r: Parse<Option<seq<Value>>>)
    requires p <= |data|
    ensures Onward(r, data, p)
  {
    var (ext, p1) :- ReadPieces(EXT_FLAGS, data, p);
    if NumberOf(ext[0]) == 0 then Yes(None, p1) else ReadAnimList(data, p1)
  }

  lemma {:induction false} AnimsCount(n: nat)
    ensures |AnimPieces(n)| == 3 * n
  {
    if n > 0 {
      AnimsCount(n - 1);
    }
  }

  lemma {:induction false} AsManyValues(ps: seq<Piece>, vs: seq<Value>)
    requires AllGood(ps, vs)
    ensures |ps| == |vs|
  {
    if ps != [] {
      AsManyValues(ps[1..], vs[1..]);
    }
  }

  lemma AnimListBack(vs: seq<Value>, data: Bytes, p: nat)
    requires GoodAnims(Some(vs)) && At(data, p, SpellAnims(Some(vs))[1..])
    ensures ReadAnimList(data, p) == Yes(Some(vs), p + |SpellAnims(Some(vs))| - 1)
  {
    var n := |vs| / 3;
    var x := Spell(AnimPieces(n), vs);
    assert SpellAnims(Some(vs))[1..] == [n] + x;
    PeelByte(0, SUB_LAYERS, n, x, data, p);
    assert x + [] == x;
    var q := Peel(AnimPieces(n), vs, [], data, p + 1);
  }

  lemma AnimsBack(anims: Option<seq<Value>>, data: Bytes, p: nat)
    requires GoodAnims(anims) && At(data, p, SpellAnims(anims))
    ensures ReadAnims(data, p) == Yes(anims, p + |SpellAnims(anims)|)
  {
    match anims
    case None =>
      assert [0] + [] == SpellAnims(anims);
      PeelByte(0, 1, 0, [], data, p);
    case Some(vs) =>
      var rest := SpellAnims(anims)[1..];
      assert [1] + rest == SpellAnims(anims);
      PeelByte(0, 1, 1, rest, data, p);
      AnimListBack(vs, data, p + 1);
  }

  lemma AnimListIs(data: Bytes, p: nat)
    requires p <= |data| && ReadAnimList(data, p).Yes?
    ensures var r := ReadAnimList(data, p);
            && r.value.Some? && GoodAnims(r.value)
            && At(data, p, SpellAnims(r.value)[1..]) && r.next + 1 == p + |SpellAnims(r.value)|
  {
    var r := ReadAnimList(data, p);
    var vs := r.value.value;
    var count := ReadPieces(ANIM_COUNT, data, p);
    var n := NumberOf(count.value[0]);
    Join(AnimPieces(n), [], data, count.next);
    AsManyValues(AnimPieces(n), vs);
    AnimsCount(n);
    var x := Spell(AnimPieces(n), vs);
    assert x + [] == x;
    var m := JoinByte(0, SUB_LAYERS, x, data, p);
    assert m == n == |vs| / 3;
    assert SpellAnims(r.value)[1..] == [n] + x;
  }

  lemma AnimsIs(data: Bytes, p: nat)
    requires p <= |data| && ReadAnims(data, p).Yes?
    ensures var r := ReadAnims(data, p);
            && GoodAnims(r.value) && At(data, p, SpellAnims(r.value))
            && r.next == p + |SpellAnims(r.value)|
  {
    var r := ReadAnims(data, p);
    var ext := ReadPieces(EXT_FLAGS, data, p);
    if NumberOf(ext.value[0]) == 0 {
      var m := JoinByte(0, 1, [], data, p);
      assert SpellAnims(r.value) == [m] + [];
    } else {
      AnimListIs(data, ext.next);
      var rest := SpellAnims(r.value)[1..];
      var m := JoinByte(0, 1, rest, data, p);
      assert SpellAnims(r.value) == [m] + rest;
    }
  }

  function AnimsAt(data: Bytes, p: nat): Parse<Option<seq<Value>>> {
    if p <= |data| then ReadAnims(data, p) else No
  }

  // ----- A tile, over any syntax of layers and its reading -----

  function ReadShown(k: TileParts, read: Reading<Layer>, x: nat, y: nat, mask: nat, data: Bytes, p: nat)
    : Parse<Tile>
    requires p <= |data|
  {
    var (ground, p1) :- ReadPieces(k.ground(mask), data, p);
    var (count, p2) :- ReadPieces(LAYER_COUNT, data, p1);
    var (layers, p3) :- ReadMany(k.layer, read, NumberOf(count[0]), {}, data, p2);
    var (anims, p4) :- AnimsAt(data, p3);
    Yes(Shown(x, y, mask, ground, layers, anims), p4)
  }

  /** Readings of what a tile shows, by its coordinates and mask. */
  type ShownReading = (nat, nat, nat) -> Reading<Tile>

  function ShownBy(k: TileParts, read: Reading<Layer>): ShownReading {
    (x: nat, y: nat, mask: nat) =>
      (data: Bytes, p: nat) => if p <= |data| then ReadShown(k, read, x, y, mask, data, p) else No
  }

  function ReadTile(k: TileParts, read: Reading<Layer>, data: Bytes, p: nat, width: nat, height: nat)
    : Parse<Tile>
    requires p <= |data|
  {
    ReadTileBy(ShownBy(k, read), data, p, width, height)
  }

  function ReadTileBy(shown: ShownReading, data: Bytes, p: nat, width: nat, height: nat): Parse<Tile>
    requires p <= |data|
  {
    var (word, p1) :- ReadPieces(TILE_WORD, data, p);
    var w := NumberOf(word[0]);
    var x, y, mask := w / 2048, w / 64 % 32, w % 64;
    ReadBehind(shown(x, y, mask), x, y, mask, data, p1, width, height)
  }

  /** What the parts of the word call for. */
  function ReadBehind(shown: Reading<Tile>, x: nat, y: nat, mask: nat, data: Bytes, p: nat, width: nat, height: nat)
    : Parse<Tile>
    requires p <= |data|
  {
    if x >= width || y >= height then No
    else if Bit(mask, 1) then
      if mask == 2 || mask == 18 then Yes(Cleared(x, y, mask == 18), p) else No
    else if Bit(mask, 4) then No
    else shown(data, p)
  }

  lemma ReadShownSteps(k: TileParts, read: Reading<Layer>, t: Tile, data: Bytes,
                       p: nat, p1: nat, p2: nat, p3: nat, p4: nat)
    requires t.Shown? && p <= |data| && p1 <= |data| && p2 <= |data| && p3 <= |data|
    requires ReadPieces(k.ground(t.mask), data, p) == Yes(t.ground, p1)
    requires ReadPieces(LAYER_COUNT, data, p1) == Yes([Number(|t.layers|)], p2)
    requires ReadMany(k.layer, read, |t.layers|, {}, data, p2) == Yes(t.layers, p3)
    requires ReadAnims(data, p3) == Yes(t.anims, p4)
    ensures ReadShown(k, read, t.x, t.y, t.mask, data, p) == Yes(t, p4)
  {
  }

  lemma PeelShown<T(!new)>(ps: seq<Piece>, vs: seq<Value>, s: Syntax<T>, read: Reading<T>, ts: seq<T>,
                           rest: Bytes, data: Bytes, p: nat) returns (p1: nat, p3: nat)
    requires AllGood(ps, vs) && Exact(s, read) && GoodEach(s, ts) && Distinct(s, ts, {})
    requires |ts| <= REAL_LAYERS && At(data, p, Spell(ps, vs) + SpellCounted(s, ts, rest))
    ensures p <= |data| && p1 < |data| && p3 <= |data|
    ensures ReadPieces(ps, data, p) == Yes(vs, p1)
    ensures ReadPieces(LAYER_COUNT, data, p1) == Yes([Number(|ts|)], p1 + 1)
    ensures ReadMany(s, read, |ts|, {}, data, p1 + 1) == Yes(ts, p3)
    ensures At(data, p3, rest) && p3 + |rest| == p + |Spell(ps, vs) + SpellCounted(s, ts, rest)|
  {
    p1 := Peel(ps, vs, SpellCounted(s, ts, rest), data, p);
    p3 := PeelCounted(s, read, ts, 0, REAL_LAYERS, rest, data, p1);
  }

  lemma ShownBack(k: TileParts, read: Reading<Layer>, t: Tile, data: Bytes, p: nat)
    requires Exact(k.layer, read) && GoodShown(k, t) && At(data, p, SpellShown(k, t))
    ensures ReadShown(k, read, t.x, t.y, t.mask, data, p) == Yes(t, p + |SpellShown(k, t)|)
  {
    var c := SpellAnims(t.anims);
    var p1, p3 := PeelShown(k.ground(t.mask), t.ground, k.layer, read, t.layers, c, data, p);
    AnimsBack(t.anims, data, p3);
    ReadShownSteps(k, read, t, data, p, p1, p1 + 1, p3, p3 + |c|);
  }

  lemma ShownIs(k: TileParts, read: Reading<Layer>, x: nat, y: nat, mask: nat, data: Bytes, p: nat)
    requires Exact(k.layer, read) && p <= |data| && ReadShown(k, read, x, y, mask, data, p).Yes?
    ensures var r := ReadShown(k, read, x, y, mask, data, p);
            && GoodShown(k, r.value) && r.value.x == x && r.value.y == y && r.value.mask == mask
            && At(data, p, SpellShown(k, r.value)) && r.next == p + |SpellShown(k, r.value)|
  {
    var t := ReadShown(k, read, x, y, mask, data, p).value;
    var ground := ReadPieces(k.ground(mask), data, p);
    var count := ReadPieces(LAYER_COUNT, data, ground.next);
    var n := NumberOf(count.value[0]);
    var p3 := ReadMany(k.layer, read, n, {}, data, count.next).next;
    AnimsIs(data, p3);
    var c := SpellAnims(t.anims);
    JoinCounted(k.layer, read, 0, REAL_LAYERS, c, data, ground.next, n, t.layers, p3);
    Join(k.ground(mask), SpellCounted(k.layer, t.layers, c), data, p);
  }

  // ----- The tile word -----

  /** Coordinates and mask can be told apart in the word. */
  lemma WordParts(x: nat, y: nat, mask: nat)
    requires x < 32 && y < 32 && mask < 64
    ensures var w := 2048 * x + 64 * y + mask;
            w < 65536 && w / 2048 == x && w / 64 % 32 == y && w % 64 == mask
  {
    var w := 2048 * x + 64 * y + mask;
    DivisionIs(w, 2048, x, 64 * y + mask);
    DivisionIs(w, 64, 32 * x + y, mask);
    DivisionIs(32 * x + y, 32, x, y);
  }

  lemma WordOfParts(w: nat)
    requires w < 65536
    ensures w / 2048 < 32 && w == 2048 * (w / 2048) + 64 * (w / 64 % 32) + w % 64
  {
  }

  lemma PeelWord(w: nat, rest: Bytes, data: Bytes, p: nat)
    requires w < 65536 && At(data, p, BigEndian(w, 2) + rest)
    ensures p + 2 <= |data| && At(data, p + 2, rest)
    ensures ReadPieces(TILE_WORD, data, p) == Yes([Number(w)], p + 2)
  {
    PowerBytes();
    SpellNumber(2, 0, 65535, w);
    var q := Peel(TILE_WORD, [Number(w)], rest, data, p);
  }

  lemma JoinWord(rest: Bytes, data: Bytes, p: nat) returns (w: nat)
    requires p <= |data| && ReadPieces(TILE_WORD, data, p).Yes?
    requires At(data, ReadPieces(TILE_WORD, data, p).next, rest)
    ensures w < 65536 && ReadPieces(TILE_WORD, data, p) == Yes([Number(w)], p + 2)
    ensures At(data, p, BigEndian(w, 2) + rest)
  {
    var ps := TILE_WORD;
    Join(ps, rest, data, p);
    var vs := ReadPieces(ps, data, p).value;
    assert ps[1..] == [] && vs[1..] == [];
    assert Good(ps[0], vs[0]);
    w := vs[0].n;
    PowerBytes();
    SpellNumber(2, 0, 65535, w);
    assert vs == [Number(w)];
  }

  lemma ReadTileParts(shown: ShownReading, t: Tile, rest: Bytes, data: Bytes, p: nat, width: nat, height: nat)
    requires t.x < 32 && t.y < 32 && MaskOf(t) < 64 && At(data, p, BigEndian(WordOf(t), 2) + rest)
    ensures p + 2 <= |data| && At(data, p + 2, rest)
    ensures ReadTileBy(shown, data, p, width, height) ==
            ReadBehind(shown(t.x, t.y, MaskOf(t)), t.x, t.y, MaskOf(t), data, p + 2, width, height)
  {
    WordParts(t.x, t.y, MaskOf(t));
    PeelWord(WordOf(t), rest, data, p);
  }

  lemma BehindBack(k: TileParts, shown: Reading<Tile>, t: Tile, data: Bytes, p: nat, width: nat, height: nat)
    requires GoodTile(k, t, width, height) && p <= |data|
    requires t.Shown? ==> shown(data, p) == Yes(t, p + |SpellShown(k, t)|)
    ensures ReadBehind(shown, t.x, t.y, MaskOf(t), data, p, width, height) == Yes(t, p + |Body(k, t)|)
  {
  }

  lemma TileBack(k: TileParts, read: Reading<Layer>, t: Tile, data: Bytes, p: nat, width: nat, height: nat)
    requires Exact(k.layer, read) && GoodTile(k, t, width, height) && At(data, p, SpellTile(k, t))
    ensures ReadTile(k, read, data, p, width, height) == Yes(t, p + |SpellTile(k, t)|)
  {
    ReadTileParts(ShownBy(k, read), t, Body(k, t), data, p, width, height);
    if t.Shown? {
      ShownBack(k, read, t, data, p + 2);
    }
    BehindBack(k, ShownBy(k, read)(t.x, t.y, MaskOf(t)), t, data, p + 2, width, height);
  }

  /** What is read behind the word is well formed and spelled there. */
  predicate ShownOk(k: TileParts, shown: Reading<Tile>, x: nat, y: nat, mask: nat, data: Bytes, p: nat) {
    var r := shown(data, p);
    r.Yes? && p <= |data| ==>
      && GoodShown(k, r.value) && r.value.x == x && r.value.y == y && r.value.mask == mask
      && At(data, p, SpellShown(k, r.value)) && r.next == p + |SpellShown(k, r.value)|
  }

  lemma ShownByOk(k: TileParts, read: Reading<Layer>, x: nat, y: nat, mask: nat, data: Bytes, p: nat)
    requires Exact(k.layer, read)
    ensures ShownOk(k, ShownBy(k, read)(x, y, mask), x, y, mask, data, p)
  {
    if p <= |data| && ReadShown(k, read, x, y, mask, data, p).Yes? {
      ShownIs(k, read, x, y, mask, data, p);
    }
  }

  lemma BehindIs(k: TileParts, shown: Reading<Tile>, x: nat, y: nat, mask: nat,
                 data: Bytes, p: nat, width: nat, height: nat, t: Tile, q: nat)
    requires ShownOk(k, shown, x, y, mask, data, p) && p <= |data| && width <= 32 && height <= 32 && mask < 64
    requires ReadBehind(shown, x, y, mask, data, p, width, height) == Yes(t, q)
    ensures GoodTile(k, t, width, height) && WordOf(t) == 2048 * x + 64 * y + mask
    ensures At(data, p, Body(k, t)) && q == p + |Body(k, t)|
  {
  }

  lemma ReadTileFrom(shown: ShownReading, data: Bytes, p: nat, width: nat, height: nat, t: Tile, q: nat)
    returns (x: nat, y: nat, mask: nat)
    requires p <= |data| && ReadTileBy(shown, data, p, width, height) == Yes(t, q)
    ensures p + 2 <= |data| && mask < 64 && 2048 * x + 64 * y + mask < 65536
    ensures At(data, p, BigEndian(2048 * x + 64 * y + mask, 2))
    ensures ReadBehind(shown(x, y, mask), x, y, mask, data, p + 2, width, height) == Yes(t, q)
  {
    var w := JoinWord([], data, p);
    assert BigEndian(w, 2) + [] == BigEndian(w, 2);
    x, y, mask := w / 2048, w / 64 % 32, w % 64;
    WordOfParts(w);
  }

  lemma JoinTile(k: TileParts, t: Tile, width: nat, height: nat, data: Bytes, p: nat)
    requires GoodTile(k, t, width, height) && p + 2 <= |data|
    requires At(data, p, BigEndian(WordOf(t), 2)) && At(data, p + 2, Body(k, t))
    ensures At(data, p, SpellTile(k, t)) && |SpellTile(k, t)| == 2 + |Body(k, t)|
  {
    AtConcat(data, p, BigEndian(WordOf(t), 2), Body(k, t));
  }

  /** The word and what was read behind it make a tile. */
  lemma WordedIs(k: TileParts, shown: Reading<Tile>, x: nat, y: nat, mask: nat, data: Bytes, p: nat,
                 width: nat, height: nat, t: Tile, q: nat)
    requires p + 2 <= |data| && width <= 32 && height <= 32 && mask < 64
    requires ShownOk(k, shown, x, y, mask, data, p + 2)
    requires At(data, p, BigEndian(2048 * x + 64 * y + mask, 2))
    requires ReadBehind(shown, x, y, mask, data, p + 2, width, height) == Yes(t, q)
    ensures GoodTile(k, t, width, height) && At(data, p, SpellTile(k, t)) && q == p + |SpellTile(k, t)|
  {
    BehindIs(k, shown, x, y, mask, data, p + 2, width, height, t, q);
    JoinTile(k, t, width, height, data, p);
  }

  lemma TileIs(k: TileParts, read: Reading<Layer>, data: Bytes, p: nat, width: nat, height: nat,
               t: Tile, q: nat)
    requires Exact(k.layer, read) && p <= |data| && width <= 32 && height <= 32
    requires ReadTile(k, read, data, p, width, height) == Yes(t, q)
    ensures GoodTile(k, t, width, height) && At(data, p, SpellTile(k, t)) && q == p + |SpellTile(k, t)|
  {
    var x, y, mask := ReadTileFrom(ShownBy(k, read), data, p, width, height, t, q);
    ShownByOk(k, read, x, y, mask, data, p + 2);
    WordedIs(k, ShownBy(k, read)(x, y, mask), x, y, mask, data, p, width, height, t, q);
  }

  // ----- All tiles of a level -----

  function TileAt(width: nat, height: nat): Reading<Tile> {
    (data: Bytes, p: nat) =>
      if p <= |data| then ReadTile(MAP_PARTS, LayerAt, data, p, width, height) else No
  }

  lemma TileComplete(t: Tile, data: Bytes, p: nat, width: nat, height: nat)
    ensures Complete(TileSyntax(width, height), TileAt(width, height), t, data, p)
  {
    LayersExact();
    assert MAP_PARTS.layer == LAYER_SYNTAX;
    if GoodTile(MAP_PARTS, t, width, height) && At(data, p, SpellTile(MAP_PARTS, t)) {
      TileBack(MAP_PARTS, LayerAt, t, data, p, width, height);
    }
  }

  lemma TileSound(data: Bytes, p: nat, width: nat, height: nat)
    requires width <= 32 && height <= 32
    ensures Sound(TileSyntax(width, height), TileAt(width, height), data, p)
  {
    LayersExact();
    assert MAP_PARTS.layer == LAYER_SYNTAX;
    var r := TileAt(width, height)(data, p);
    if r.Yes? {
      TileIs(MAP_PARTS, LayerAt, data, p, width, height, r.value, r.next);
    }
  }

  lemma TileProgresses(width: nat, height: nat)
    ensures Progresses(TileSyntax(width, height))
  {
    var s := TileSyntax(width, height);
    forall t | s.good(t)
      ensures s.spell(t) != []
    {
      assert |BigEndian(WordOf(t), 2)| == 2;
    }
  }

  lemma TilesExact(width: nat, height: nat)
    requires width <= 32 && height <= 32
    ensures Exact(TileSyntax(width, height), TileAt(width, height))
  {
    var s, read := TileSyntax(width, height), TileAt(width, height);
    forall t, data, p: nat
      ensures Complete(s, read, t, data, p)
    {
      TileComplete(t, data, p, width, height);
    }
    forall data, p: nat
      ensures Sound(s, read, data, p)
    {
      TileSound(data, p, width, height);
    }
  }

  /** Over any exact reading of tiles: a level's bytes are read as ts exactly when they spell ts. */
  lemma TilesIff(s: Syntax<Tile>, read: Reading<Tile>, data: Bytes, ts: seq<Tile>)
    requires Exact(s, read) && Progresses(s)
    ensures ReadToEnd(read, data, 0) == Yes(ts, |data|) <==> GoodEach(s, ts) && SpellEach(s, ts) == data
  {
    if GoodEach(s, ts) && SpellEach(s, ts) == data {
      assert data[..|data|] == data;
      ToEndBack(s, read, ts, data, 0);
    }
    if ReadToEnd(read, data, 0) == Yes(ts, |data|) {
      ToEndIs(s, read, data, 0);
      assert data[..|data|] == data;
    }
  }
}
