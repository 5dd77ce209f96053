/** Reading the levels of a MAP command and the command as a whole. */
module MapCommand {
  import opened PacketFormat
  import opened MapGrammar
  import opened MapReading
  import opened MapTiles

  // ----- A level, over any syntax of tiles and its reading -----

  const DEPTH: seq<Piece> := [Offset(-MAX_DEPTH, MAX_DEPTH)]
  const SIZE: seq<Piece> := [Num(4, 0, 0xFFFF_FFFF)]

  function IntOf(v: Value): int {
    if v.Number? then v.n else 0
  }

  /** The slice of the data that a level of the given size occupies. */
  function Slice(data: Bytes, p: nat, size: nat): Bytes
    requires p + size <= |data|
  {
    data[p..p + size]
  }

  function ReadLevel(read: Reading<Tile>, data: Bytes, p: nat): Parse<Level>
    requires p <= |data|
  {
    var (depth, p1) :- ReadPieces(DEPTH, data, p);
    var (size, p2) :- ReadPieces(SIZE, data, p1);
    var n := NumberOf(size[0]);
    if n > |data| - p2 then No
    else
      var (tiles, _) :- ReadToEnd(read, Slice(data, p2, n), 0);
      Yes(Level(IntOf(depth[0]), tiles), p2 + n)
  }

  lemma SpellDepth(depth: int)
    requires -MAX_DEPTH <= depth <= MAX_DEPTH
    ensures AllGood(DEPTH, [Number(depth)]) && Spell(DEPTH, [Number(depth)]) == BigEndian(depth, 1)
  {
    PowerBytes();
    SignedBytes(depth, 1);
    var ps, vs := DEPTH, [Number(depth)];
    assert ps[1..] == [] && vs[1..] == [];
    assert Spell(ps, vs) == Encode(Signed(1), vs[0]) + [];
  }

  lemma DepthIs(data: Bytes, p: nat, rest: Bytes) returns (depth: int)
    requires p <= |data| && ReadPieces(DEPTH, data, p).Yes? && At(data, ReadPieces(DEPTH, data, p).next, rest)
    ensures -MAX_DEPTH <= depth <= MAX_DEPTH
    ensures ReadPieces(DEPTH, data, p) == Yes([Number(depth)], p + 1)
    ensures At(data, p, BigEndian(depth, 1) + rest)
  {
    Join(DEPTH, rest, data, p);
    var ps, vs := DEPTH, ReadPieces(DEPTH, data, p).value;
    assert ps[1..] == [] && vs[1..] == [];
    assert Good(ps[0], vs[0]);
    depth := vs[0].n;
    SpellDepth(depth);
    assert vs == [Number(depth)];
  }

  lemma SizeIs(data: Bytes, p: nat, rest: Bytes) returns (size: nat)
    requires p <= |data| && ReadPieces(SIZE, data, p).Yes? && At(data, ReadPieces(SIZE, data, p).next, rest)
    ensures size < 0x1_0000_0000 && ReadPieces(SIZE, data, p) == Yes([Number(size)], p + 4)
    ensures At(data, p, BigEndian(size, 4) + rest)
  {
    Join(SIZE, rest, data, p);
    var ps, vs := SIZE, ReadPieces(SIZE, data, p).value;
    assert ps[1..] == [] && vs[1..] == [];
    assert Good(ps[0], vs[0]);
    size := vs[0].n;
    PowerBytes();
    SpellNumber(4, 0, 0xFFFF_FFFF, size);
    assert vs == [Number(size)];
  }

  lemma LevelBack(s: Syntax<Tile>, read: Reading<Tile>, l: Level, data: Bytes, p: nat)
    requires Exact(s, read) && Progresses(s) && GoodLevel(s, l) && At(data, p, SpellLevel(s, l))
    ensures p <= |data| && ReadLevel(read, data, p) == Yes(l, p + |SpellLevel(s, l)|)
  {
    var tiles := SpellEach(s, l.tiles);
    PowerBytes();
    SpellDepth(l.depth);
    SpellNumber(4, 0, 0xFFFF_FFFF, |tiles|);
    var p1 := Peel(DEPTH, [Number(l.depth)], BigEndian(|tiles|, 4) + tiles, data, p);
    var p2 := Peel(SIZE, [Number(|tiles|)], tiles, data, p1);
    assert Slice(data, p2, |tiles|) == tiles;
    TilesIff(s, read, tiles, l.tiles);
  }

  lemma LevelIs(s: Syntax<Tile>, read: Reading<Tile>, data: Bytes, p: nat, l: Level, q: nat)
    requires Exact(s, read) && Progresses(s) && p <= |data| && ReadLevel(read, data, p) == Yes(l, q)
    ensures GoodLevel(s, l) && At(data, p, SpellLevel(s, l)) && q == p + |SpellLevel(s, l)|
  {
    var depth := ReadPieces(DEPTH, data, p);
    var size := ReadPieces(SIZE, data, depth.next);
    var n := NumberOf(size.value[0]);
    var x := Slice(data, size.next, n);
    ToEndIs(s, read, x, 0);
    TilesIff(s, read, x, l.tiles);
    var m := SizeIs(data, depth.next, x);
    var d := DepthIs(data, p, BigEndian(n, 4) + x);
  }

  // ----- All levels -----

  function LevelAt(width: nat, height: nat): Reading<Level> {
    (data: Bytes, p: nat) => if p <= |data| then ReadLevel(TileAt(width, height), data, p) else No
  }

  lemma LevelComplete(l: Level, data: Bytes, p: nat, width: nat, height: nat)
    requires width <= 32 && height <= 32
    ensures Complete(LevelSyntax(width, height), LevelAt(width, height), l, data, p)
  {
    var s := TileSyntax(width, height);
    TilesExact(width, height);
    TileProgresses(width, height);
    if GoodLevel(s, l) && At(data, p, SpellLevel(s, l)) {
      LevelBack(s, TileAt(width, height), l, data, p);
    }
  }

  lemma LevelSound(data: Bytes, p: nat, width: nat, height: nat)
    requires width <= 32 && height <= 32
    ensures Sound(LevelSyntax(width, height), LevelAt(width, height), data, p)
  {
    TilesExact(width, height);
    TileProgresses(width, height);
    var r := LevelAt(width, height)(data, p);
    if r.Yes? {
      LevelIs(TileSyntax(width, height), TileAt(width, height), data, p, r.value, r.next);
    }
  }

  lemma LevelsExact(width: nat, height: nat)
    requires width <= 32 && height <= 32
    ensures Exact(LevelSyntax(width, height), LevelAt(width, height))
  {
    var s, read := LevelSyntax(width, height), LevelAt(width, height);
    forall l, data, p: nat
      ensures Complete(s, read, l, data, p)
    {
      LevelComplete(l, data, p, width, height);
    }
    forall data, p: nat
      ensures Sound(s, read, data, p)
    {
      LevelSound(data, p, width, height);
    }
  }

  // ----- The command -----

  datatype Intro = Intro(stat: nat, intro: seq<Value>, place: seq<Value>)

  const STAT: seq<Piece> := [Num(1, 0, 2)]
  const LEVEL_COUNT: seq<Piece> := [Num(1, 1, LEVELS)]

  function ReadIntro(data: Bytes, p: nat): (r: Parse<Intro>)
    requires p <= |data|
    ensures Onward(r, data, p)
  {
    var (stat, p1) :- ReadPieces(STAT, data, p);
    var n := NumberOf(stat[0]);
    var (intro, p2) :- ReadPieces(IntroPieces(n), data, p1);
    var (place, p3) :- ReadPieces(PLACE_PIECES, data, p2);
    if GoodIntro(n, intro, place) then Yes(Intro(n, intro, place), p3) else No
  }

  lemma PeelIntro(stat: nat, ps: seq<Piece>, intro: seq<Value>, place: seq<Value>, rest: Bytes,
                  data: Bytes, p: nat) returns (p2: nat, p3: nat)
    requires stat <= 2 && AllGood(ps, intro) && AllGood(PLACE_PIECES, place)
    requires At(data, p, [stat] + (Spell(ps, intro) + (Spell(PLACE_PIECES, place) + rest)))
    ensures p < |data| && p2 <= |data| && p3 <= |data| && At(data, p3, rest)
    ensures ReadPieces(STAT, data, p) == Yes([Number(stat)], p + 1)
    ensures ReadPieces(ps, data, p + 1) == Yes(intro, p2)
    ensures ReadPieces(PLACE_PIECES, data, p2) == Yes(place, p3)
    ensures p3 == p + 1 + |Spell(ps, intro)| + |Spell(PLACE_PIECES, place)|
  {
    PeelByte(0, 2, stat, Spell(ps, intro) + (Spell(PLACE_PIECES, place) + rest), data, p);
    p2 := Peel(ps, intro, Spell(PLACE_PIECES, place) + rest, data, p + 1);
    p3 := Peel(PLACE_PIECES, place, rest, data, p2);
  }

  lemma IntroBack(i: Intro, rest: Bytes, data: Bytes, p: nat) returns (q: nat)
    requires GoodIntro(i.stat, i.intro, i.place)
    requires At(data, p, SpellIntro(i.stat, i.intro, i.place) + rest)
    ensures p <= |data| && ReadIntro(data, p) == Yes(i, q) && At(data, q, rest)
    ensures q == p + |SpellIntro(i.stat, i.intro, i.place)|
  {
    var ps := IntroPieces(i.stat);
    var x, y := Spell(ps, i.intro), Spell(PLACE_PIECES, i.place);
    assert ([i.stat] + (x + y)) + rest == [i.stat] + (x + (y + rest));
    var p2, p3 := PeelIntro(i.stat, ps, i.intro, i.place, rest, data, p);
    q := p3;
  }

  lemma JoinIntro(stat: nat, ps: seq<Piece>, intro: seq<Value>, place: seq<Value>, rest: Bytes,
                  data: Bytes, p: nat, p1: nat, p2: nat, q: nat)
    requires p <= |data| && p1 <= |data| && p2 <= |data| && At(data, q, rest)
    requires ReadPieces(STAT, data, p).Yes? && ReadPieces(STAT, data, p).next == p1
    requires NumberOf(ReadPieces(STAT, data, p).value[0]) == stat
    requires ReadPieces(ps, data, p1) == Yes(intro, p2) && ReadPieces(PLACE_PIECES, data, p2) == Yes(place, q)
    ensures stat <= 2 && AllGood(ps, intro) && AllGood(PLACE_PIECES, place)
    ensures At(data, p, [stat] + (Spell(ps, intro) + (Spell(PLACE_PIECES, place) + rest)))
    ensures q == p + 1 + |Spell(ps, intro)| + |Spell(PLACE_PIECES, place)|
  {
    Join(PLACE_PIECES, rest, data, p2);
    var y := Spell(PLACE_PIECES, place);
    Join(ps, y + rest, data, p1);
    var n := JoinByte(0, 2, Spell(ps, intro) + (y + rest), data, p);
  }

  /** What the part before the levels was read from. */
  lemma IntroFrom(data: Bytes, p: nat, i: Intro, q: nat) returns (p1: nat, p2: nat)
    requires p <= |data| && ReadIntro(data, p) == Yes(i, q)
    ensures p1 <= |data| && p2 <= |data| && GoodIntro(i.stat, i.intro, i.place)
    ensures ReadPieces(STAT, data, p).Yes? && ReadPieces(STAT, data, p).next == p1
    ensures NumberOf(ReadPieces(STAT, data, p).value[0]) == i.stat
    ensures ReadPieces(IntroPieces(i.stat), data, p1) == Yes(i.intro, p2)
    ensures ReadPieces(PLACE_PIECES, data, p2) == Yes(i.place, q)
  {
    p1 := ReadPieces(STAT, data, p).next;
    p2 := ReadPieces(IntroPieces(i.stat), data, p1).next;
  }

  lemma IntroIs(rest: Bytes, data: Bytes, p: nat, i: Intro, q: nat)
    requires p <= |data| && ReadIntro(data, p) == Yes(i, q) && At(data, q, rest)
    ensures GoodIntro(i.stat, i.intro, i.place)
    ensures At(data, p, SpellIntro(i.stat, i.intro, i.place) + rest)
    ensures q == p + |SpellIntro(i.stat, i.intro, i.place)|
  {
    var p1, p2 := IntroFrom(data, p, i, q);
    JoinIntro(i.stat, IntroPieces(i.stat), i.intro, i.place, rest, data, p, p1, p2, q);
    IntroSpelled(i, rest, data, p);
  }

  lemma IntroSpelled(i: Intro, rest: Bytes, data: Bytes, p: nat)
    requires GoodIntro(i.stat, i.intro, i.place)
    requires At(data, p, [i.stat] + (Spell(IntroPieces(i.stat), i.intro) + (Spell(PLACE_PIECES, i.place) + rest)))
    ensures At(data, p, SpellIntro(i.stat, i.intro, i.place) + rest)
    ensures |SpellIntro(i.stat, i.intro, i.place)|
            == 1 + |Spell(IntroPieces(i.stat), i.intro)| + |Spell(PLACE_PIECES, i.place)|
  {
    var x, y := Spell(IntroPieces(i.stat), i.intro), Spell(PLACE_PIECES, i.place);
    assert ([i.stat] + (x + y)) + rest == [i.stat] + (x + (y + rest));
  }

  function ReadCommandOf(s: Syntax<Level>, read: Reading<Level>, data: Bytes, p: nat): Parse<Command>
    requires p <= |data|
  {
    var (i, p1) :- ReadIntro(data, p);
    var (count, p2) :- ReadPieces(LEVEL_COUNT, data, p1);
    var (levels, p3) :- ReadMany(s, read, NumberOf(count[0]), {}, data, p2);
    if p3 == |data| && HasDepth(levels, 0) then Yes(Command(i.stat, i.intro, i.place, levels), p3) else No
  }

  lemma ReadCommandSteps(s: Syntax<Level>, read: Reading<Level>, c: Command, data: Bytes, p: nat, p1: nat, p2: nat)
    requires p <= |data| && p1 <= |data| && p2 <= |data| && HasDepth(c.levels, 0)
    requires ReadIntro(data, p) == Yes(Intro(c.stat, c.intro, c.place), p1)
    requires ReadPieces(LEVEL_COUNT, data, p1) == Yes([Number(|c.levels|)], p2)
    requires ReadMany(s, read, |c.levels|, {}, data, p2) == Yes(c.levels, |data|)
    ensures ReadCommandOf(s, read, data, p) == Yes(c, |data|)
  {
  }

  lemma CommandAt(s: Syntax<Level>, c: Command, data: Bytes, p: nat)
    requires p <= |data| && GoodCommandOf(s, c) && data[p..] == SpellCommandOf(s, c)
    ensures At(data, p, SpellIntro(c.stat, c.intro, c.place) + SpellCounted(s, c.levels, []))
    ensures p + |SpellIntro(c.stat, c.intro, c.place)| + |SpellCounted(s, c.levels, [])| == |data|
  {
    assert SpellEach(s, c.levels) + [] == SpellEach(s, c.levels);
    assert data[p..] == data[p..|data|];
  }

  lemma IntroFirst(s: Syntax<Level>, c: Command, data: Bytes, p: nat) returns (p1: nat)
    requires p <= |data| && GoodCommandOf(s, c) && data[p..] == SpellCommandOf(s, c)
    ensures p1 <= |data| && ReadIntro(data, p) == Yes(Intro(c.stat, c.intro, c.place), p1)
    ensures At(data, p1, SpellCounted(s, c.levels, [])) && p1 + |SpellCounted(s, c.levels, [])| == |data|
  {
    CommandAt(s, c, data, p);
    p1 := IntroBack(Intro(c.stat, c.intro, c.place), SpellCounted(s, c.levels, []), data, p);
  }

  lemma LevelsLast(s: Syntax<Level>, read: Reading<Level>, c: Command, data: Bytes, p: nat, p1: nat)
    requires Exact(s, read) && GoodLevels(s, c.levels) && p <= |data| && p1 <= |data|
    requires ReadIntro(data, p) == Yes(Intro(c.stat, c.intro, c.place), p1)
    requires At(data, p1, SpellCounted(s, c.levels, [])) && p1 + |SpellCounted(s, c.levels, [])| == |data|
    ensures ReadCommandOf(s, read, data, p) == Yes(c, |data|)
  {
    var p3 := PeelCounted(s, read, c.levels, 1, LEVELS, [], data, p1);
    ReadCommandSteps(s, read, c, data, p, p1, p1 + 1);
  }

  lemma CommandBack(s: Syntax<Level>, read: Reading<Level>, c: Command, data: Bytes, p: nat)
    requires Exact(s, read) && p <= |data|
    requires GoodCommandOf(s, c) && data[p..] == SpellCommandOf(s, c)
    ensures ReadCommandOf(s, read, data, p) == Yes(c, |data|)
  {
    var p1 := IntroFirst(s, c, data, p);
    LevelsLast(s, read, c, data, p, p1);
  }

  /** What a command was read from. */
  lemma CommandFrom(s: Syntax<Level>, read: Reading<Level>, data: Bytes, p: nat, c: Command, q: nat)
    returns (p1: nat, n: nat)
    requires p <= |data| && ReadCommandOf(s, read, data, p) == Yes(c, q)
    ensures p1 <= |data| && ReadIntro(data, p) == Yes(Intro(c.stat, c.intro, c.place), p1)
    ensures ReadPieces(LEVEL_COUNT, data, p1).Yes? && n == NumberOf(ReadPieces(LEVEL_COUNT, data, p1).value[0])
    ensures ReadMany(s, read, n, {}, data, ReadPieces(LEVEL_COUNT, data, p1).next) == Yes(c.levels, q)
    ensures q == |data| && HasDepth(c.levels, 0)
  {
    p1 := ReadIntro(data, p).next;
    n := NumberOf(ReadPieces(LEVEL_COUNT, data, p1).value[0]);
  }

  lemma CommandSpelled(s: Syntax<Level>, c: Command, data: Bytes, p: nat, p1: nat)
    requires p <= |data| && GoodCommandOf(s, c)
    requires At(data, p, SpellIntro(c.stat, c.intro, c.place) + SpellCounted(s, c.levels, []))
    requires p1 == p + |SpellIntro(c.stat, c.intro, c.place)| && p1 + |SpellCounted(s, c.levels, [])| == |data|
    ensures data[p..] == SpellCommandOf(s, c)
  {
    assert SpellEach(s, c.levels) + [] == SpellEach(s, c.levels);
    assert data[p..|data|] == data[p..];
  }

  lemma CommandIs(s: Syntax<Level>, read: Reading<Level>, data: Bytes, p: nat, c: Command, q: nat)
    requires Exact(s, read) && p <= |data| && ReadCommandOf(s, read, data, p) == Yes(c, q)
    ensures q == |data| && GoodCommandOf(s, c) && data[p..] == SpellCommandOf(s, c)
  {
    var p1, n := CommandFrom(s, read, data, p, c, q);
    JoinCounted(s, read, 1, LEVELS, [], data, p1, n, c.levels, q);
    IntroIs(SpellCounted(s, c.levels, []), data, p, Intro(c.stat, c.intro, c.place), p1);
    CommandSpelled(s, c, data, p, p1);
  }

  function ReadCommand(data: Bytes, p: nat, width: nat, height: nat): Parse<Command>
    requires p <= |data|
  {
    ReadCommandOf(LevelSyntax(width, height), LevelAt(width, height), data, p)
  }

  lemma ReadIffSpelled(s: Syntax<Level>, read: Reading<Level>, data: Bytes, p: nat)
    requires Exact(s, read) && p <= |data|
    ensures forall c :: SpelledBy(s, c, data[p..]) <==> ReadCommandOf(s, read, data, p) == Yes(c, |data|)
    ensures var r := ReadCommandOf(s, read, data, p);
            r.Yes? ==> r.next == |data| && SpelledBy(s, r.value, data[p..])
  {
    var r := ReadCommandOf(s, read, data, p);
    if r.Yes? {
      CommandIs(s, read, data, p, r.value, r.next);
    }
    forall c | SpelledBy(s, c, data[p..])
      ensures r == Yes(c, |data|)
    {
      CommandBack(s, read, c, data, p);
    }
  }

  /**
   * The bytes from p on are accepted exactly when they spell a well-formed command, and
   * then they spell only that one.
   */
  lemma AcceptsExactlyCommands(data: Bytes, p: nat, width: nat, height: nat)
    requires width <= 32 && height <= 32 && p <= |data|
    ensures ReadCommand(data, p, width, height).Yes? <==> exists c :: Spells(c, data[p..], width, height)
    ensures forall c, d | Spells(c, data[p..], width, height) && Spells(d, data[p..], width, height) :: c == d
  {
    var s, read := LevelSyntax(width, height), LevelAt(width, height);
    LevelsExact(width, height);
    ReadIffSpelled(s, read, data, p);
    var r := ReadCommand(data, p, width, height);
    assert forall c :: Spells(c, data[p..], width, height) <==> SpelledBy(s, c, data[p..]);
    if r.Yes? {
      assert Spells(r.value, data[p..], width, height);
    }
  }
}
