/**
 * What every MAP command that the grammar admits keeps to, in numbers: at most 13 levels,
 * layers below 49, sub-layers below 7, tiles in view, nothing announced twice.
 */
module MapLimits {
  import opened PacketFormat
  import opened MapGrammar
  import MapTiles
  import MapValidator
  import opened Wrappers

  lemma {:induction false} EachIsGood<T>(s: Syntax<T>, ts: seq<T>, i: nat)
    requires GoodEach(s, ts) && i < |ts|
    ensures s.good(ts[i])
  {
    if i > 0 {
      EachIsGood(s, ts[1..], i - 1);
    }
  }

  lemma {:induction false} KeyIsNew<T>(s: Syntax<T>, ts: seq<T>, seen: set<int>, i: nat)
    requires Distinct(s, ts, seen) && i < |ts|
    ensures s.key(ts[i]) !in seen
  {
    if i > 0 {
      KeyIsNew(s, ts[1..], seen + {s.key(ts[0])}, i - 1);
    }
  }

  /** No two items of a list without repeated keys have the same key. */
  lemma {:induction false} KeysDiffer<T>(s: Syntax<T>, ts: seq<T>, seen: set<int>, i: nat, j: nat)
    requires Distinct(s, ts, seen) && i < j < |ts|
    ensures s.key(ts[i]) != s.key(ts[j])
  {
    var seen' := seen + {s.key(ts[0])};
    if i > 0 {
      KeysDiffer(s, ts[1..], seen', i - 1, j - 1);
    } else {
      KeyIsNew(s, ts[1..], seen', j - 1);
    }
  }

  // ----- Animations -----

  predicate AnimWithin(vs: seq<Value>, i: nat)
    requires 3 * i + 1 < |vs|
  {
    && vs[3 * i].Number? && 0 <= vs[3 * i].n < 7
    && vs[3 * i + 1].Number? && 1 <= vs[3 * i + 1].n <= 2
  }

  lemma {:induction false} AnimsWithin(n: nat, vs: seq<Value>, i: nat)
    requires AllGood(AnimPieces(n), vs) && |vs| == 3 * n && i < n
    ensures AnimWithin(vs, i)
  {
    AnimsStep(n, vs);
    if i > 0 {
      AnimsWithin(n - 1, vs[3..], i - 1);
      assert AnimWithin(vs[3..], i - 1);
    }
  }

  lemma AnimsStep(n: nat, vs: seq<Value>)
    requires n > 0 && AllGood(AnimPieces(n), vs) && |vs| == 3 * n
    ensures AllGood(AnimPieces(n - 1), vs[3..]) && AnimWithin(vs, 0)
  {
    var ps := AnimPieces(n);
    assert ps[1..][1..][1..] == AnimPieces(n - 1);
    assert vs[1..][1..][1..] == vs[3..];
    assert Good(ps[0], vs[0]) && AllGood(ps[1..], vs[1..]);
    assert Good(ps[1..][0], vs[1..][0]) && AllGood(ps[1..][1..], vs[1..][1..]);
  }

  lemma {:induction false} AnimIsNew(vs: seq<Value>, seen: set<int>, n: nat, i: nat)
    requires FreshAnims(vs, seen) && |vs| == 3 * n && i < n
    ensures vs[3 * i].Number? && vs[3 * i].n !in seen
  {
    if i > 0 {
      AnimIsNew(vs[3..], seen + {vs[0].n}, n - 1, i - 1);
    }
  }

  lemma {:induction false} AnimsDiffer(vs: seq<Value>, seen: set<int>, n: nat, i: nat, j: nat)
    requires FreshAnims(vs, seen) && |vs| == 3 * n && i < j < n
    ensures vs[3 * i] != vs[3 * j]
  {
    var seen' := seen + {vs[0].n};
    if i > 0 {
      AnimsDiffer(vs[3..], seen', n - 1, i - 1, j - 1);
    } else {
      AnimIsNew(vs[3..], seen', n - 1, j - 1);
    }
  }

  /** At most seven animations of a tile, on different sub-layers, each damage or kill. */
  predicate AnimLimits(vs: seq<Value>) {
    && |vs| % 3 == 0 && |vs| <= 21
    && (forall i | 0 <= i < |vs| / 3 :: AnimWithin(vs, i))
    && forall i, j | 0 <= i < j < |vs| / 3 :: vs[3 * i] != vs[3 * j]
  }

  lemma AnimsAreLimited(vs: seq<Value>)
    requires GoodAnims(Some(vs))
    ensures AnimLimits(vs)
  {
    var n := |vs| / 3;
    forall i | 0 <= i < n
      ensures AnimWithin(vs, i)
    {
      AnimsWithin(n, vs, i);
    }
    forall i, j | 0 <= i < j < n
      ensures vs[3 * i] != vs[3 * j]
    {
      AnimsDiffer(vs, {}, n, i, j);
    }
  }

  // ----- Tiles -----

  predicate TileLimits(t: Tile, width: nat, height: nat) {
    && t.x < width && t.y < height
    && (t.Shown? ==>
          && |t.layers| <= 49
          && (forall i | 0 <= i < |t.layers| :: t.layers[i].layer < 49)
          && (forall i, j | 0 <= i < j < |t.layers| :: t.layers[i].layer != t.layers[j].layer)
          && (t.anims.Some? ==> AnimLimits(t.anims.value)))
  }

  lemma LayerNumber(l: Layer)
    requires GoodLayer(l)
    ensures l.layer < 49
  {
    if l.Drawn? {
      assert Good(DRAWN_HEAD[0], Number(l.layer));
    }
  }

  lemma TileIsLimited(t: Tile, width: nat, height: nat)
    requires GoodTile(MAP_PARTS, t, width, height)
    ensures TileLimits(t, width, height)
  {
    if t.Shown? {
      forall i | 0 <= i < |t.layers|
        ensures t.layers[i].layer < 49
      {
        EachIsGood(LAYER_SYNTAX, t.layers, i);
        LayerNumber(t.layers[i]);
      }
      forall i, j | 0 <= i < j < |t.layers|
        ensures t.layers[i].layer != t.layers[j].layer
      {
        KeysDiffer(LAYER_SYNTAX, t.layers, {}, i, j);
      }
      if t.anims.Some? {
        AnimsAreLimited(t.anims.value);
      }
    }
  }

  // ----- Commands -----

  predicate LevelLimits(l: Level, width: nat, height: nat) {
    -6 <= l.depth <= 6 && forall i | 0 <= i < |l.tiles| :: TileLimits(l.tiles[i], width, height)
  }

  lemma LevelIsLimited(l: Level, width: nat, height: nat)
    requires GoodLevel(TileSyntax(width, height), l)
    ensures LevelLimits(l, width, height)
  {
    forall i | 0 <= i < |l.tiles|
      ensures TileLimits(l.tiles[i], width, height)
    {
      EachIsGood(TileSyntax(width, height), l.tiles, i);
      TileIsLimited(l.tiles[i], width, height);
    }
  }

  /**
   * A MAP command has between 1 and 13 levels of different depths from -6 to 6, among them
   * depth 0; its tiles are in view, with different layers below 49 and up to seven animations.
   */
  lemma CommandLimits(c: Command, x: Bytes, width: nat, height: nat)
    requires Spells(c, x, width, height)
    ensures c.stat <= 2 && 1 <= |c.levels| <= 13
    ensures forall i | 0 <= i < |c.levels| :: LevelLimits(c.levels[i], width, height)
    ensures forall i, j | 0 <= i < j < |c.levels| :: c.levels[i].depth != c.levels[j].depth
    ensures exists i :: 0 <= i < |c.levels| && c.levels[i].depth == 0
  {
    var s := LevelSyntax(width, height);
    forall i | 0 <= i < |c.levels|
      ensures LevelLimits(c.levels[i], width, height)
    {
      EachIsGood(s, c.levels, i);
      LevelIsLimited(c.levels[i], width, height);
    }
    forall i, j | 0 <= i < j < |c.levels|
      ensures c.levels[i].depth != c.levels[j].depth
    {
      KeysDiffer(s, c.levels, {}, i, j);
    }
  }

  /** A player on a new map stands within it; one who came through a tile moved as the tile says. */
  lemma PlayerPlaced(c: Command, x: Bytes, width: nat, height: nat)
    requires Spells(c, x, width, height)
    ensures |c.place| == 3 && forall k | 0 <= k < 3 :: c.place[k].Number?
    ensures 0 <= c.place[2].n < 7
    ensures c.stat == 1 ==>
              && |c.intro| == 10 && c.intro[8].Number? && c.intro[9].Number?
              && c.place[0].n < c.intro[8].n <= 255 && c.place[1].n < c.intro[9].n <= 255
    ensures c.stat == 2 ==>
              && |c.intro| == 12 && c.intro[8].Number? && c.intro[11].Number? && 1 <= c.intro[8].n <= 10
              && c.intro[11].n == (if c.intro[8].n == 9 then 1 else if c.intro[8].n == 10 then -1 else 0)
  {
    PlacePieces(c.place);
    if c.stat == 1 || c.stat == 2 {
      MapTiles.AsManyValues(IntroPieces(c.stat), c.intro);
      MapValidator.GoodAt(IntroPieces(c.stat), c.intro, 8);
      MapValidator.GoodAt(IntroPieces(c.stat), c.intro, 9);
    }
  }

  lemma PlacePieces(place: seq<Value>)
    requires AllGood(PLACE_PIECES, place)
    ensures |place| == 3 && (forall k | 0 <= k < 3 :: place[k].Number?) && 0 <= place[2].n < 7
  {
    MapTiles.AsManyValues(PLACE_PIECES, place);
    MapValidator.GoodAt(PLACE_PIECES, place, 0);
    MapValidator.GoodAt(PLACE_PIECES, place, 1);
    MapValidator.GoodAt(PLACE_PIECES, place, 2);
  }
}
