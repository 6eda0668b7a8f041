/**
 * The world store as values (src/utils/gameLogic.ts:107-197): the square
 * of coordinates around the viewport, lazy expansion of the tile map,
 * regrowth, GatherSpeed retiming, and what a harvest does to one tile.
 * The imperative engine in module Engine is proved against these functions.
 */
module World {
  import opened GameTypes
  import opened Generator

  type TileMap = map<Coord, Tile>

  /** The tile the generator makes for coordinate `c`. */
  function Gen(c: Coord): Tile {
    GenerateTile(c.0, c.1)
  }

  /** The rectangle [x0, x1] x [y0, y1] of coordinates (empty when a bound is crossed). */
  function Block(x0: int, x1: int, y0: int, y1: int): (s: set<Coord>)
    ensures forall c :: c in s <==> x0 <= c.0 <= x1 && y0 <= c.1 <= y1
  {
    set x, y | x0 <= x <= x1 && y0 <= y <= y1 :: (x, y)
  }

  /** All coordinates at Chebyshev distance at most `radius` from `center`. */
  function Region(center: Coord, radius: int): set<Coord> {
    Block(center.0 - radius, center.0 + radius, center.1 - radius, center.1 + radius)
  }

  /**
   * `tiles` with every coordinate of `s` that is missing filled in by the
   * generator: existing tiles are kept as they are.
   */
  function Expanded(tiles: TileMap, s: set<Coord>): (m: TileMap)
    ensures m.Keys == tiles.Keys + s
    ensures forall c :: c in tiles ==> m[c] == tiles[c]
    ensures forall c :: c in m && c !in tiles ==> m[c] == Gen(c)
  {
    map c | c in tiles.Keys + s :: if c in tiles then tiles[c] else Gen(c)
  }

  /** Growing the covered set by one coordinate inserts at most that one tile. */
  lemma ExpandedStep(tiles: TileMap, s: set<Coord>, c: Coord)
    ensures Expanded(tiles, s + {c})
         == var m := Expanded(tiles, s); if c in m then m else m[c := Gen(c)]
  {
    var m := Expanded(tiles, s);
    var grown := if c in m then m else m[c := Gen(c)];
    var m' := Expanded(tiles, s + {c});
    assert m'.Keys == grown.Keys;
    forall d | d in m'
      ensures m'[d] == grown[d]
    {
      if d in tiles {
        assert m'[d] == tiles[d] == m[d];
      }
    }
  }

  /** Expansion keeps every stored coordinate and covers the expanded set. */
  lemma ExpandedCovers(tiles: TileMap, s: set<Coord>)
    ensures tiles.Keys <= Expanded(tiles, s).Keys
    ensures s <= Expanded(tiles, s).Keys
  {
    var m := Expanded(tiles, s);
    forall c | c in tiles ensures c in m {
      assert c in tiles.Keys + s;
    }
    forall c | c in s ensures c in m {
      assert c in tiles.Keys + s;
    }
  }

  lemma ExpandedSameSet(tiles: TileMap, s1: set<Coord>, s2: set<Coord>)
    requires s1 == s2
    ensures Expanded(tiles, s1) == Expanded(tiles, s2)
  {
  }

  // ---------------------------------------------------------------------
  // The row-by-row scan of a square that generateTiles performs
  // ---------------------------------------------------------------------

  /** Before the first cell of a row nothing has been filled. */
  lemma RowStart(t0: TileMap, p: Coord, r: int, x: int, y: int)
    requires x == p.0 - r
    ensures t0 == Expanded(t0, Block(p.0 - r, x - 1, y, y))
  {
    assert Block(p.0 - r, x - 1, y, y) == {};
  }

  /** Before the first row nothing has been filled. */
  lemma ColumnStart(t0: TileMap, p: Coord, r: int, y: int)
    requires y == p.1 - r
    ensures t0 == Expanded(t0, Block(p.0 - r, p.0 + r, p.1 - r, y - 1))
  {
    assert Block(p.0 - r, p.0 + r, p.1 - r, y - 1) == {};
  }

  /**
   * Visiting (x, y) after the cells from the left edge of the square of
   * radius r around p up to x - 1 in row y: the generated tile is inserted
   * when the coordinate is missing, and otherwise the store is left alone.
   */
  lemma RowVisit(t0: TileMap, m: TileMap, p: Coord, r: int, x: int, y: int)
    requires p.0 - r <= x
    requires m == Expanded(t0, Block(p.0 - r, x - 1, y, y))
    ensures (if (x, y) in m then m else m[(x, y) := GenerateTile(x, y)])
         == Expanded(t0, Block(p.0 - r, x, y, y))
  {
    ExpandedStep(t0, Block(p.0 - r, x - 1, y, y), (x, y));
    assert Block(p.0 - r, x - 1, y, y) + {(x, y)} == Block(p.0 - r, x, y, y);
    ExpandedSameSet(t0, Block(p.0 - r, x - 1, y, y) + {(x, y)}, Block(p.0 - r, x, y, y));
  }

  /** Once x has passed the right edge, row y of the square has been filled. */
  lemma RowFinished(t0: TileMap, m: TileMap, p: Coord, r: int, x: int, y: int)
    requires x == p.0 + r + 1 || (x == p.0 - r && r < 0)
    requires m == Expanded(t0, Block(p.0 - r, x - 1, y, y))
    ensures m == Expanded(t0, Block(p.0 - r, p.0 + r, y, y))
  {
    assert Block(p.0 - r, x - 1, y, y) == Block(p.0 - r, p.0 + r, y, y);
    ExpandedSameSet(t0, Block(p.0 - r, x - 1, y, y), Block(p.0 - r, p.0 + r, y, y));
  }

  /** Filling row y after the rows from the bottom edge up to y - 1 has filled rows up to y. */
  lemma ColumnVisit(t0: TileMap, m: TileMap, next: TileMap, p: Coord, r: int, y: int)
    requires p.1 - r <= y
    requires m == Expanded(t0, Block(p.0 - r, p.0 + r, p.1 - r, y - 1))
    requires next == Expanded(m, Block(p.0 - r, p.0 + r, y, y))
    ensures next == Expanded(t0, Block(p.0 - r, p.0 + r, p.1 - r, y))
  {
    ExpandedComposes(t0, Block(p.0 - r, p.0 + r, p.1 - r, y - 1), Block(p.0 - r, p.0 + r, y, y));
    assert Block(p.0 - r, p.0 + r, p.1 - r, y - 1) + Block(p.0 - r, p.0 + r, y, y)
        == Block(p.0 - r, p.0 + r, p.1 - r, y);
    ExpandedSameSet(t0, Block(p.0 - r, p.0 + r, p.1 - r, y - 1) + Block(p.0 - r, p.0 + r, y, y),
                    Block(p.0 - r, p.0 + r, p.1 - r, y));
  }

  /** Once y has passed the top edge, the whole square has been filled. */
  lemma ColumnFinished(t0: TileMap, m: TileMap, p: Coord, r: int, y: int)
    requires y == p.1 + r + 1 || (y == p.1 - r && r < 0)
    requires m == Expanded(t0, Block(p.0 - r, p.0 + r, p.1 - r, y - 1))
    ensures m == Expanded(t0, Region(p, r))
  {
    assert Block(p.0 - r, p.0 + r, p.1 - r, y - 1) == Region(p, r);
    ExpandedSameSet(t0, Block(p.0 - r, p.0 + r, p.1 - r, y - 1), Region(p, r));
  }

  /** Two expansions in a row are one expansion over both sets: nothing is overwritten. */
  lemma ExpandedComposes(tiles: TileMap, s1: set<Coord>, s2: set<Coord>)
    ensures Expanded(Expanded(tiles, s1), s2) == Expanded(tiles, s1 + s2)
  {
  }

  /** Expanding the same set again changes nothing. */
  lemma ExpandedIdempotent(tiles: TileMap, s: set<Coord>)
    ensures Expanded(Expanded(tiles, s), s) == Expanded(tiles, s)
  {
    ExpandedComposes(tiles, s, s);
    assert s + s == s;
  }

  // ---------------------------------------------------------------------
  // Tile invariants
  // ---------------------------------------------------------------------

  /** Every tile sits under the key of its own coordinates. */
  predicate WellKeyed(tiles: TileMap) {
    forall c :: c in tiles ==> tiles[c].x == c.0 && tiles[c].y == c.1
  }

  /**
   * What every stored tile satisfies: its coordinates are its key, its
   * type is the one the generator gives that coordinate, exactly the
   * non-Empty tiles carry a positive regrowth time, Empty tiles are never
   * depleted.
   */
  predicate TileFits(c: Coord, t: Tile) {
    && t.x == c.0 && t.y == c.1
    && t.kind == Gen(c).kind
    && (t.regrowthTime.Some? <==> t.kind != Empty)
    && (t.regrowthTime.Some? ==> t.regrowthTime.value > 0)
    && (t.kind == Empty ==> !t.depleted)
  }

  predicate WorldValid(tiles: TileMap) {
    forall c :: c in tiles ==> TileFits(c, tiles[c])
  }

  lemma WorldValidIsWellKeyed(tiles: TileMap)
    requires WorldValid(tiles)
    ensures WellKeyed(tiles)
  {
  }

  /** Generated tiles fit their coordinate, so expansion keeps the store valid. */
  lemma ExpandedValid(tiles: TileMap, s: set<Coord>)
    requires WorldValid(tiles)
    ensures WorldValid(Expanded(tiles, s))
  {
  }

  // ---------------------------------------------------------------------
  // Regrowth
  // ---------------------------------------------------------------------

  /**
   * A depleted tile is due to regrow when it has a (truthy) harvest time
   * and regrowth time and at least the regrowth time has passed since the
   * harvest.
   */
  predicate RegrowthDue(t: Tile, now: int) {
    && t.depleted
    && Truthy(t.lastHarvested)
    && Truthy(t.regrowthTime)
    && now - t.lastHarvested.value >= t.regrowthTime.value
  }

  function RegrowTile(t: Tile, now: int): Tile {
    if RegrowthDue(t, now) then t.(depleted := false) else t
  }

  /**
   * The store after regrowth at time `now`: the same coordinates, and each
   * tile differs from before at most in `depleted`, which is cleared
   * exactly on the tiles that are due.
   */
  function Regrown(tiles: TileMap, now: int): (m: TileMap)
    ensures m.Keys == tiles.Keys
    ensures forall c :: c in tiles ==>
              m[c] == tiles[c].(depleted := tiles[c].depleted && !RegrowthDue(tiles[c], now))
  {
    map c | c in tiles :: RegrowTile(tiles[c], now)
  }

  lemma RegrownValid(tiles: TileMap, now: int)
    requires WorldValid(tiles)
    ensures WorldValid(Regrown(tiles, now))
  {
  }

  lemma RegrownWellKeyed(tiles: TileMap, now: int)
    requires WellKeyed(tiles)
    ensures WellKeyed(Regrown(tiles, now))
  {
  }

  /** Regrowing twice at the same time is regrowing once. */
  lemma RegrownIdempotent(tiles: TileMap, now: int)
    ensures Regrown(Regrown(tiles, now), now) == Regrown(tiles, now)
  {
  }

  // ---------------------------------------------------------------------
  // GatherSpeed retiming
  // ---------------------------------------------------------------------

  /** A tile with a (truthy) regrowth time gets regrowth time `ms`. */
  function RetimeTile(t: Tile, ms: int): Tile {
    if Truthy(t.regrowthTime) then t.(regrowthTime := Some(ms)) else t
  }

  /**
   * The store with every truthy regrowth time replaced by `ms`, on the same
   * coordinates, and no other field of any tile changed.
   */
  function Retimed(tiles: TileMap, ms: int): (m: TileMap)
    ensures m.Keys == tiles.Keys
    ensures forall c :: c in tiles ==>
              m[c] == tiles[c].(regrowthTime := if Truthy(tiles[c].regrowthTime) then Some(ms) else tiles[c].regrowthTime)
  {
    map c | c in tiles :: RetimeTile(tiles[c], ms)
  }

  lemma RetimedValid(tiles: TileMap, ms: int)
    requires WorldValid(tiles) && ms > 0
    ensures WorldValid(Retimed(tiles, ms))
  {
  }

  // ---------------------------------------------------------------------
  // Harvesting
  // ---------------------------------------------------------------------

  /** The resource a tile type yields: none for Empty, and a different one for each other type (ResourceOfInjective). */
  function ResourceOf(k: TileType): (r: Option<ResourceType>)
    ensures r.None? <==> k == Empty
  {
    match k
    case Forest => Some(Wood)
    case Rock => Some(Stone)
    case Energy => Some(ResourceType.Energy)
    case Empty => None
  }

  /** Different tile types never yield the same resource, so each resource has one source type. */
  lemma ResourceOfInjective(a: TileType, b: TileType)
    requires ResourceOf(a).Some? && ResourceOf(a) == ResourceOf(b)
    ensures a == b
  {
  }

  /** A harvest at `c` succeeds when the tile exists, is not depleted and is not Empty. */
  predicate Harvestable(tiles: TileMap, c: Coord) {
    c in tiles && !tiles[c].depleted && tiles[c].kind != Empty
  }

  /** The tile after a successful harvest at time `now`. */
  function DepleteTile(t: Tile, now: int): Tile {
    t.(depleted := true, lastHarvested := Some(now))
  }

  lemma DepleteValid(tiles: TileMap, c: Coord, now: int)
    requires WorldValid(tiles) && Harvestable(tiles, c)
    ensures WorldValid(tiles[c := DepleteTile(tiles[c], now)])
  {
  }

  /**
   * harvestTile on values, with `power` units per harvest: refused when the
   * tile at `c` is absent, depleted or Empty. Otherwise only the tile at `c`
   * changes, to its depleted form, and only the counter of its resource
   * changes, by `power`.
   */
  function HarvestAt(tiles: TileMap, res: Resources, power: int, c: Coord, now: int): (r: (bool, TileMap, Resources))
    ensures r.0 <==> Harvestable(tiles, c)
    ensures r.1.Keys == tiles.Keys
    ensures forall d :: d in tiles && d != c ==> r.1[d] == tiles[d]
    ensures c in tiles ==> r.1[c] == if r.0 then DepleteTile(tiles[c], now) else tiles[c]
    ensures forall q :: r.2.Get(q) == res.Get(q) + if r.0 && ResourceOf(tiles[c].kind) == Some(q) then power else 0
  {
    if c !in tiles || tiles[c].depleted || tiles[c].kind == Empty then (false, tiles, res)
    else
      var kind := ResourceOf(tiles[c].kind).value;
      (true, tiles[c := DepleteTile(tiles[c], now)], res.Credit(kind, power))
  }

  /**
   * Harvest then regrowth: a harvested tile stays depleted until its
   * regrowth time has passed, and from then on it is harvestable again with
   * nothing but its harvest time changed. (A harvest at time 0 records a
   * falsy time, so such a tile never regrows.)
   */
  lemma HarvestRegrowRoundTrip(t: Tile, now: int, later: int)
    requires !t.depleted && t.kind != Empty && Truthy(t.regrowthTime) && now != 0
    ensures later - now >= t.regrowthTime.value ==>
              RegrowTile(DepleteTile(t, now), later) == t.(lastHarvested := Some(now))
    ensures later - now < t.regrowthTime.value ==>
              RegrowTile(DepleteTile(t, now), later) == DepleteTile(t, now)
  {
  }

  /** A tile harvested at time 0 never regrows: 0 is a falsy harvest time. */
  lemma HarvestAtZeroNeverRegrows(t: Tile, later: int)
    ensures RegrowTile(DepleteTile(t, 0), later).depleted
  {
  }

  // ---------------------------------------------------------------------
  // Auto-gather
  // ---------------------------------------------------------------------

  /** The tiles auto-gather may pick: not depleted and not Empty. */
  function Eligible(tiles: TileMap): (s: set<Coord>)
    ensures forall c :: c in s <==> Harvestable(tiles, c)
  {
    set c | c in tiles && !tiles[c].depleted && tiles[c].kind != Empty
  }

  /** The store after the tiles of `cs` have each been harvested at time `now`. */
  function DepleteAll(tiles: TileMap, cs: set<Coord>, now: int): (m: TileMap)
    ensures m.Keys == tiles.Keys
    ensures forall c :: c in tiles ==> m[c] == if c in cs then DepleteTile(tiles[c], now) else tiles[c]
  {
    map c | c in tiles :: if c in cs then DepleteTile(tiles[c], now) else tiles[c]
  }

  lemma DepleteAllValid(tiles: TileMap, cs: set<Coord>, now: int)
    requires WorldValid(tiles) && cs <= Eligible(tiles)
    ensures WorldValid(DepleteAll(tiles, cs, now))
  {
  }

  lemma DepleteNone(tiles: TileMap, now: int)
    ensures DepleteAll(tiles, {}, now) == tiles
  {
  }

  /** Depleting one more tile. */
  lemma DepleteAllStep(tiles: TileMap, cs: set<Coord>, c: Coord, now: int)
    requires c in tiles && c !in cs
    ensures DepleteAll(tiles, cs + {c}, now)
         == DepleteAll(tiles, cs, now)[c := DepleteTile(tiles[c], now)]
  {
  }

  /** How many tiles of `cs` yield resource `r`. */
  function Yield(tiles: TileMap, cs: set<Coord>, r: ResourceType): nat {
    |set c | c in cs && c in tiles && ResourceOf(tiles[c].kind) == Some(r)|
  }

  lemma {:induction false} YieldStep(tiles: TileMap, cs: set<Coord>, c: Coord, r: ResourceType)
    requires c in tiles && c !in cs
    ensures Yield(tiles, cs + {c}, r)
         == Yield(tiles, cs, r) + if ResourceOf(tiles[c].kind) == Some(r) then 1 else 0
  {
    var before := set d | d in cs && d in tiles && ResourceOf(tiles[d].kind) == Some(r);
    var after := set d | d in cs + {c} && d in tiles && ResourceOf(tiles[d].kind) == Some(r);
    if ResourceOf(tiles[c].kind) == Some(r) {
      assert after == before + {c};
    } else {
      assert after == before;
    }
  }

  /** The counters `res` after the tiles of `cs` have each yielded `power` units. */
  function Gained(res: Resources, tiles: TileMap, cs: set<Coord>, power: int): Resources {
    Resources(res.wood + power * Yield(tiles, cs, Wood),
              res.stone + power * Yield(tiles, cs, Stone),
              res.energy + power * Yield(tiles, cs, ResourceType.Energy))
  }

  lemma GainedNone(res: Resources, tiles: TileMap, power: int)
    ensures Gained(res, tiles, {}, power) == res
  {
  }

  lemma GainedPerResource(res: Resources, tiles: TileMap, cs: set<Coord>, power: int)
    ensures forall q :: Gained(res, tiles, cs, power).Get(q) == res.Get(q) + power * Yield(tiles, cs, q)
  {
  }

  /** Harvesting one more tile of `cs` credits its resource once more. */
  lemma GainedStep(res: Resources, tiles: TileMap, cs: set<Coord>, c: Coord, power: int)
    requires c in tiles && c !in cs && ResourceOf(tiles[c].kind).Some?
    ensures Gained(res, tiles, cs + {c}, power)
         == Gained(res, tiles, cs, power).Credit(ResourceOf(tiles[c].kind).value, power)
  {
    YieldStep(tiles, cs, c, Wood);
    YieldStep(tiles, cs, c, Stone);
    YieldStep(tiles, cs, c, ResourceType.Energy);
    var y := Yield(tiles, cs, ResourceOf(tiles[c].kind).value);
    assert power * (y + 1) == power * y + power;
  }

  /** Between them the three resource kinds count every non-Empty tile. */
  lemma {:induction false} YieldTotal(tiles: TileMap, cs: set<Coord>)
    requires forall c :: c in cs ==> Harvestable(tiles, c)
    ensures Yield(tiles, cs, Wood) + Yield(tiles, cs, Stone) + Yield(tiles, cs, ResourceType.Energy) == |cs|
    decreases |cs|
  {
    if cs != {} {
      var c :| c in cs;
      var rest := cs - {c};
      YieldTotal(tiles, rest);
      YieldStep(tiles, rest, c, Wood);
      YieldStep(tiles, rest, c, Stone);
      YieldStep(tiles, rest, c, ResourceType.Energy);
      assert rest + {c} == cs;
    }
  }

  /**
   * How many tiles one auto-gather pass harvests from `n` eligible tiles at
   * power `power`. The loop bound min(power, length) is re-read after every
   * splice, so the pass stops at half the eligible tiles, rounded up.
   */
  function AutoGatherCount(power: int, n: nat): (k: nat)
    ensures k <= n && (power <= 0 ==> k == 0) && (power > 0 ==> k <= power)
    ensures n > 0 && power > 0 ==> k > 0
  {
    if power <= 0 then 0
    else if power < (n + 1) / 2 then power
    else (n + 1) / 2
  }

  /**
   * The autoGather loop counts i up from 0 while i < min(power, n - i), n - i
   * being the candidates left: it stops exactly at AutoGatherCount(power, n).
   * `i` is any count the loop can reach (every earlier round passed the
   * test) at which the test fails.
   */
  lemma AutoGatherLoopStops(power: int, n: nat, i: nat)
    requires i == 0 || (i - 1 < power && i - 1 < n - (i - 1))
    requires !(i < power && i < n - i)
    ensures i == AutoGatherCount(power, n)
  {
  }
}
