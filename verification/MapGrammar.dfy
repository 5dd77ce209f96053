/**
 * The grammar of the CLIENT_CMD_MAP wire format that map_protocol.c validates: what a
 * well-formed MAP command is and how it is spelled in bytes. The validator itself is
 * in MapValidator; here nothing is read.
 */
module MapGrammar {
  import opened PacketFormat
  import PacketWriter
  import opened Wrappers

  const REAL_LAYERS: nat := 49
  const SUB_LAYERS: nat := 7
  const LEVELS: nat := 13
  const MAX_DEPTH: int := 6
  const LAYER_CLEAR: nat := 255
  const TILE_UP: nat := 9
  const TILE_DOWN: nat := 10

  /** One primitive of the format: an integer within bounds, a string, or bytes of no concern. */
  datatype Piece =
    | Num(width: nat, lo: nat, hi: nat)
    | Offset(lower: int, upper: int)
    | Str
    | Skip(count: nat)

  /** A byte that may have any value. */
  const ANY_BYTE := Num(1, 0, 255)

  function KindOf(piece: Piece): Kind {
    match piece
    case Num(width, _, _) => Unsigned(width)
    case Offset(_, _) => Signed(1)
    case Str => Text(PacketWriter.PAYLOAD_MAX)
    case Skip(count) => Raw(count)
  }

  predicate Good(piece: Piece, v: Value) {
    && Fits(KindOf(piece), v)
    && (piece.Num? ==> piece.lo <= v.n <= piece.hi)
    && (piece.Offset? ==> piece.lower <= v.n <= piece.upper)
  }

  predicate AllGood(ps: seq<Piece>, vs: seq<Value>) {
    if ps == [] then vs == []
    else vs != [] && Good(ps[0], vs[0]) && AllGood(ps[1..], vs[1..])
  }

  function Spell(ps: seq<Piece>, vs: seq<Value>): Bytes
    requires AllGood(ps, vs)
  {
    if ps == [] then [] else Encode(KindOf(ps[0]), vs[0]) + Spell(ps[1..], vs[1..])
  }

  /** Bit k of a flag word, and pieces that are there only when a flag is set. */
  predicate Bit(n: nat, k: nat) {
    match k
    case 0 => n % 2 == 1
    case 1 => n / 2 % 2 == 1
    case 2 => n / 4 % 2 == 1
    case 3 => n / 8 % 2 == 1
    case 4 => n / 16 % 2 == 1
    case 5 => n / 32 % 2 == 1
    case 6 => n / 64 % 2 == 1
    case 7 => n / 128 % 2 == 1
    case _ => n / 256 % 2 == 1
  }

  function Given(present: bool, ps: seq<Piece>): seq<Piece> {
    if present then ps else []
  }

  // ----- Repetition -----

  /** What is well formed, how it is spelled, and the key by which it is told from its neighbours. */
  datatype Syntax<!T> = Syntax(good: T -> bool, spell: T -> Bytes, key: T -> int)

  predicate GoodEach<T>(s: Syntax<T>, ts: seq<T>) {
    ts == [] || (s.good(ts[0]) && GoodEach(s, ts[1..]))
  }

  /** No key occurs twice, nor is it among those already seen. */
  predicate Distinct<T>(s: Syntax<T>, ts: seq<T>, seen: set<int>) {
    ts == [] || (s.key(ts[0]) !in seen && Distinct(s, ts[1..], seen + {s.key(ts[0])}))
  }

  function SpellEach<T>(s: Syntax<T>, ts: seq<T>): Bytes {
    if ts == [] then [] else s.spell(ts[0]) + SpellEach(s, ts[1..])
  }

  // ----- Layers -----

  /**
   * A layer of a tile: wiped, or drawn. A drawn layer's flags say what follows: the
   * look (multi-part, names, animation), the shape (facing of a moving animation,
   * height, alignment) and, when there is more, a second flag word with its extras.
   */
  datatype Layer =
    | Wiped(layer: nat)
    | Drawn(layer: nat, face: Value, flags: nat, look: seq<Value>, shape: seq<Value>,
            flags2: nat, extras: seq<Value>)

  function LookPieces(flags: nat): seq<Piece> {
    Given(Bit(flags, 0), [ANY_BYTE]) +
    Given(Bit(flags, 1), [Str, Str]) +
    Given(Bit(flags, 2), [Skip(2), Num(1, 0, 15)])
  }

  /** The animation flags end the look; without an animation nothing moves. */
  predicate Moving(flags: nat, look: seq<Value>) {
    Bit(flags, 2) && look != [] && look[|look| - 1].Number? && look[|look| - 1].n % 2 == 1
  }

  function ShapePieces(flags: nat, moving: bool): seq<Piece> {
    Given(moving, [ANY_BYTE]) +
    Given(Bit(flags, 3), [Skip(2)]) +
    Given(Bit(flags, 5), [Skip(2)])
  }

  function MorePieces(flags: nat): seq<Piece> {
    Given(Bit(flags, 7), [Num(4, 0, 1023)])
  }

  function MoreValues(flags: nat, flags2: nat): seq<Value> {
    if Bit(flags, 7) then [Number(flags2)] else []
  }

  /** Transparency, rotation and zoom. */
  function PaintPieces(flags2: nat): seq<Piece> {
    Given(Bit(flags2, 0), [ANY_BYTE]) +
    Given(Bit(flags2, 1), [Skip(2)]) +
    Given(Bit(flags2, 2), [Skip(4)])
  }

  /** Target and whether it is a friend, probed health in percent, glow. */
  function MarkPieces(flags2: nat): seq<Piece> {
    Given(Bit(flags2, 3), [Skip(4), Num(1, 0, 1)]) +
    Given(Bit(flags2, 4), [Num(1, 0, 100)]) +
    Given(Bit(flags2, 7), [Str, ANY_BYTE])
  }

  function ExtraPieces(flags2: nat): seq<Piece> {
    PaintPieces(flags2) + MarkPieces(flags2)
  }

  const DRAWN_HEAD: seq<Piece> := [Num(1, 0, REAL_LAYERS - 1), Skip(3), ANY_BYTE]

  predicate GoodLayer(l: Layer) {
    match l
    case Wiped(layer) => layer < REAL_LAYERS
    case Drawn(layer, face, flags, look, shape, flags2, extras) =>
      && AllGood(DRAWN_HEAD, [Number(layer), face, Number(flags)])
      && AllGood(LookPieces(flags), look)
      && AllGood(ShapePieces(flags, Moving(flags, look)), shape)
      && AllGood(MorePieces(flags), MoreValues(flags, flags2))
      && (!Bit(flags, 7) ==> flags2 == 0)
      && AllGood(ExtraPieces(flags2), extras)
  }

  function SpellLayer(l: Layer): Bytes
    requires GoodLayer(l)
  {
    match l
    case Wiped(layer) => [LAYER_CLEAR, layer]
    case Drawn(layer, face, flags, look, shape, flags2, extras) =>
      Spell(DRAWN_HEAD, [Number(layer), face, Number(flags)]) +
      (Spell(LookPieces(flags), look) +
       (Spell(ShapePieces(flags, Moving(flags, look)), shape) +
        (Spell(MorePieces(flags), MoreValues(flags, flags2)) +
         Spell(ExtraPieces(flags2), extras))))
  }

  const LAYER_SYNTAX: Syntax<Layer> :=
    Syntax(l => GoodLayer(l), l => if GoodLayer(l) then SpellLayer(l) else [], (l: Layer) => l.layer)

  // ----- Tiles -----

  /** Numbered animations of a tile, one per sub-layer: sub-layer, kind (damage or kill), value. */
  function AnimPieces(n: nat): seq<Piece> {
    if n == 0 then [] else [Num(1, 0, SUB_LAYERS - 1), Num(1, 1, 2), Skip(2)] + AnimPieces(n - 1)
  }

  predicate FreshAnims(vs: seq<Value>, seen: set<int>) {
    |vs| < 3 || (vs[0].Number? && vs[0].n !in seen && FreshAnims(vs[3..], seen + {vs[0].n}))
  }

  /**
   * An update of the tile at (x, y): either the tile is cleared (hard or not), or its
   * ground (height, fog of war, light), its layers and perhaps its animations follow.
   */
  datatype Tile =
    | Cleared(x: nat, y: nat, hard: bool)
    | Shown(x: nat, y: nat, mask: nat, ground: seq<Value>, layers: seq<Layer>, anims: Option<seq<Value>>)

  /** The six low bits of the tile word. */
  function MaskOf(t: Tile): nat {
    if t.Shown? then t.mask else if t.hard then 18 else 2
  }

  function WordOf(t: Tile): nat {
    2048 * t.x + 64 * t.y + MaskOf(t)
  }

  function GroundPieces(mask: nat): seq<Piece> {
    Given(Bit(mask, 0), [Skip(2)]) +
    Given(Bit(mask, 5), [Num(1, 0, 1)]) +
    Given(Bit(mask, 2), [Skip(1)]) +
    Given(Bit(mask, 3), [Skip(SUB_LAYERS - 1)])
  }

  predicate GoodAnims(anims: Option<seq<Value>>) {
    match anims
    case None => true
    case Some(vs) =>
      && |vs| % 3 == 0 && |vs| / 3 <= SUB_LAYERS
      && AllGood(AnimPieces(|vs| / 3), vs) && FreshAnims(vs, {})
  }

  function SpellAnims(anims: Option<seq<Value>>): Bytes
    requires GoodAnims(anims)
  {
    match anims
    case None => [0]
    case Some(vs) => [1, |vs| / 3] + Spell(AnimPieces(|vs| / 3), vs)
  }

  const TILE_WORD: seq<Piece> := [Num(2, 0, 65535)]
  const LAYER_COUNT: seq<Piece> := [Num(1, 0, REAL_LAYERS)]

  /** What a tile is made of: the ground that its mask announces, and layers. */
  datatype TileParts = TileParts(ground: nat -> seq<Piece>, layer: Syntax<Layer>)

  const MAP_PARTS: TileParts := TileParts((mask: nat) => GroundPieces(mask), LAYER_SYNTAX)

  /** What follows the word of a tile that is not cleared. */
  predicate GoodShown(k: TileParts, t: Tile) {
    && t.Shown?
    && AllGood(k.ground(t.mask), t.ground)
    && |t.layers| <= REAL_LAYERS && GoodEach(k.layer, t.layers) && Distinct(k.layer, t.layers, {})
    && GoodAnims(t.anims)
  }

  function SpellShown(k: TileParts, t: Tile): Bytes
    requires GoodShown(k, t)
  {
    Spell(k.ground(t.mask), t.ground) + ([|t.layers|] + (SpellEach(k.layer, t.layers) + SpellAnims(t.anims)))
  }

  predicate GoodTile(k: TileParts, t: Tile, width: nat, height: nat) {
    && t.x < width <= 32 && t.y < height <= 32
    && (t.Shown? ==> t.mask < 64 && !Bit(t.mask, 1) && !Bit(t.mask, 4) && GoodShown(k, t))
  }

  /** What comes behind the word. */
  function Body(k: TileParts, t: Tile): Bytes
    requires t.Shown? ==> GoodShown(k, t)
  {
    if t.Cleared? then [] else SpellShown(k, t)
  }

  function SpellTile(k: TileParts, t: Tile): Bytes
    requires t.Shown? ==> GoodShown(k, t)
  {
    BigEndian(WordOf(t), 2) + Body(k, t)
  }

  function TileSyntax(width: nat, height: nat): Syntax<Tile> {
    Syntax(t => GoodTile(MAP_PARTS, t, width, height),
           t => if GoodTile(MAP_PARTS, t, width, height) then SpellTile(MAP_PARTS, t) else [],
           t => 0)
  }

  // ----- Levels and the command -----

  datatype Level = Level(depth: int, tiles: seq<Tile>)

  predicate GoodLevel(s: Syntax<Tile>, l: Level) {
    && -MAX_DEPTH <= l.depth <= MAX_DEPTH
    && GoodEach(s, l.tiles)
    && |SpellEach(s, l.tiles)| < 0x1_0000_0000
  }

  /** Depth, size in bytes, and the tiles. */
  function SpellLevel(s: Syntax<Tile>, l: Level): Bytes {
    var tiles := SpellEach(s, l.tiles);
    BigEndian(l.depth, 1) + (BigEndian(|tiles|, 4) + tiles)
  }

  function LevelSyntax(width: nat, height: nat): Syntax<Level> {
    Syntax(l => GoodLevel(TileSyntax(width, height), l),
           l => SpellLevel(TileSyntax(width, height), l),
           (l: Level) => l.depth)
  }

  /**
   * A MAP command: what changed (same map, new map, connected map), the map's strings
   * and switches, its size or the tile it was entered through, where the player
   * stands, and the levels in view.
   */
  datatype Command = Command(stat: nat, intro: seq<Value>, place: seq<Value>, levels: seq<Level>)

  const STRINGS: seq<Piece> := [Str, Str, Str, Num(1, 0, 1), Num(1, 0, 1), Str, Str, Str]

  function IntroPieces(stat: nat): seq<Piece> {
    if stat == 0 then []
    else if stat == 1 then STRINGS + [Num(1, 1, 255), Num(1, 1, 255)]
    else STRINGS + [Num(1, 1, TILE_DOWN), Offset(-128, 127), Offset(-128, 127), Offset(-128, 127)]
  }

  const PLACE_PIECES: seq<Piece> := [ANY_BYTE, ANY_BYTE, Num(1, 0, SUB_LAYERS - 1)]

  /** The player stands on a new map; going up, down or sideways has the right depth offset. */
  predicate Consistent(stat: nat, intro: seq<Value>, place: seq<Value>)
    requires stat <= 2 && AllGood(IntroPieces(stat), intro) && AllGood(PLACE_PIECES, place)
  {
    if stat == 0 then true
    else
      && |intro| >= 10 && |place| == 3
      && place[0].Number? && place[1].Number? && intro[8].Number? && intro[9].Number?
      && if stat == 1 then place[0].n < intro[8].n && place[1].n < intro[9].n
         else
           && |intro| == 12 && intro[11].Number?
           && intro[11].n == (if intro[8].n == TILE_UP then 1 else if intro[8].n == TILE_DOWN then -1 else 0)
  }

  predicate GoodIntro(stat: nat, intro: seq<Value>, place: seq<Value>) {
    && stat <= 2
    && AllGood(IntroPieces(stat), intro)
    && AllGood(PLACE_PIECES, place)
    && Consistent(stat, intro, place)
  }

  function SpellIntro(stat: nat, intro: seq<Value>, place: seq<Value>): Bytes
    requires GoodIntro(stat, intro, place)
  {
    [stat] + (Spell(IntroPieces(stat), intro) + Spell(PLACE_PIECES, place))
  }

  predicate HasDepth(ls: seq<Level>, depth: int) {
    exists i :: 0 <= i < |ls| && ls[i].depth == depth
  }

  /** The levels in view have different depths, and the player's own, 0, is one of them. */
  predicate GoodLevels(s: Syntax<Level>, ls: seq<Level>) {
    && 1 <= |ls| <= LEVELS
    && GoodEach(s, ls) && Distinct(s, ls, {})
    && HasDepth(ls, 0)
  }

  predicate GoodCommandOf(s: Syntax<Level>, c: Command) {
    GoodIntro(c.stat, c.intro, c.place) && GoodLevels(s, c.levels)
  }

  function SpellCommandOf(s: Syntax<Level>, c: Command): Bytes
    requires GoodCommandOf(s, c)
  {
    SpellIntro(c.stat, c.intro, c.place) + ([|c.levels|] + SpellEach(s, c.levels))
  }

  predicate SpelledBy(s: Syntax<Level>, c: Command, x: Bytes) {
    GoodCommandOf(s, c) && SpellCommandOf(s, c) == x
  }

  /** x is the encoding of the well-formed command c, for a client whose view is width by height tiles. */
  predicate Spells(c: Command, x: Bytes, width: nat, height: nat) {
    SpelledBy(LevelSyntax(width, height), c, x)
  }
}
