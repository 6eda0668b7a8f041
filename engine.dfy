/**
 * The simulation engine (src/utils/gameLogic.ts): the mutable game state and
 * the operations that update it in place. The wall clock becomes the `now`
 * parameter; Math.random's choice of tile in auto-gather becomes a
 * nondeterministic choice among the remaining eligible tiles.
 */
module Engine {
  import opened GameTypes
  import opened Generator
  import opened Economy
  import opened World

  /** Auto-gather fires at most once per this many milliseconds. */
  const AutoGatherInterval: int := 1000

  /**
   * One row of generateTiles: the cells of row y of the square of radius r
   * around p, left to right, generated where missing.
   */
  method FillRow(tiles: TileMap, p: Coord, r: int, y: int) returns (m: TileMap)
    ensures m == Expanded(tiles, Block(p.0 - r, p.0 + r, y, y))
  {
    m := tiles;
    var x := p.0 - r;
    RowStart(tiles, p, r, x, y);
    while x <= p.0 + r
      invariant p.0 - r <= x && (x <= p.0 + r + 1 || x == p.0 - r)
      invariant m == Expanded(tiles, Block(p.0 - r, x - 1, y, y))
    {
      RowVisit(tiles, m, p, r, x, y);
      if (x, y) !in m {
        m := m[(x, y) := GenerateTile(x, y)];
      }
      x := x + 1;
    }
    RowFinished(tiles, m, p, r, x, y);
  }

  /** The loops of generateTiles: the rows of the square of radius r around p, bottom to top. */
  method FillSquare(tiles: TileMap, p: Coord, r: int) returns (m: TileMap)
    ensures m == Expanded(tiles, Region(p, r))
  {
    m := tiles;
    var y := p.1 - r;
    ColumnStart(tiles, p, r, y);
    while y <= p.1 + r
      invariant p.1 - r <= y && (y <= p.1 + r + 1 || y == p.1 - r)
      invariant m == Expanded(tiles, Block(p.0 - r, p.0 + r, p.1 - r, y - 1))
    {
      var next := FillRow(m, p, r, y);
      ColumnVisit(tiles, m, next, p, r, y);
      m := next;
      y := y + 1;
    }
    ColumnFinished(tiles, m, p, r, y);
  }

  /**
   * Applies `f` to every stored tile, in some order (a forEach over the
   * values of the store); the set of coordinates is unchanged.
   */
  method MapTiles(tiles: TileMap, f: Tile -> Tile) returns (m: TileMap)
    ensures m.Keys == tiles.Keys
    ensures forall c :: c in tiles ==> m[c] == f(tiles[c])
  {
    m := tiles;
    var todo := tiles.Keys;
    while todo != {}
      invariant m.Keys == tiles.Keys && todo <= tiles.Keys
      invariant forall c :: c in tiles ==> m[c] == if c in todo then tiles[c] else f(tiles[c])
      decreases todo
    {
      var c :| c in todo;
      m := m[c := f(m[c])];
      todo := todo - {c};
    }
  }

  /** The forEach of updateTiles: regrowth of every stored tile at `now`. */
  method RegrowAll(tiles: TileMap, now: int) returns (m: TileMap)
    ensures m == Regrown(tiles, now)
  {
    m := MapTiles(tiles, t => RegrowTile(t, now));
  }

  /** The forEach of a GatherSpeed purchase: every truthy regrowth time becomes `ms`. */
  method RetimeAll(tiles: TileMap, ms: int) returns (m: TileMap)
    ensures m == Retimed(tiles, ms)
  {
    m := MapTiles(tiles, t => RetimeTile(t, ms));
  }

  // ---------------------------------------------------------------------
  // The state invariant, on the components of a game state
  // ---------------------------------------------------------------------

  /**
   * The invariant every operation keeps: stored tiles fit their
   * coordinates, counters are non-negative, each upgrade's effect and cost
   * follow from its level, the view range is the ViewRange effect, and the
   * square around the viewport has been generated.
   */
  ghost predicate Invariant(tiles: TileMap, resources: Resources, upgrades: Upgrades, viewRange: int, position: Coord) {
    && WorldValid(tiles)
    && resources.NonNegative()
    && TableConsistent(upgrades)
    && viewRange == upgrades.viewRange.effect
    && Region(position, viewRange) <= tiles.Keys
  }

  /** Generating the square around any position restores the invariant. */
  lemma GeneratedInvariant(tiles: TileMap, res: Resources, ups: Upgrades, vr: int, pos: Coord)
    requires WorldValid(tiles) && res.NonNegative() && TableConsistent(ups) && vr == ups.viewRange.effect
    ensures Invariant(Expanded(tiles, Region(pos, vr)), res, ups, vr, pos)
  {
    ExpandedValid(tiles, Region(pos, vr));
    ExpandedCovers(tiles, Region(pos, vr));
  }

  /** Regrowth keeps the invariant. */
  lemma RegrownInvariant(tiles: TileMap, res: Resources, ups: Upgrades, vr: int, pos: Coord, now: int)
    requires Invariant(tiles, res, ups, vr, pos)
    ensures Invariant(Regrown(tiles, now), res, ups, vr, pos)
  {
    RegrownValid(tiles, now);
  }

  /** A successful harvest keeps the invariant. */
  lemma HarvestInvariant(tiles: TileMap, res: Resources, ups: Upgrades, vr: int, pos: Coord, c: Coord, now: int)
    requires Invariant(tiles, res, ups, vr, pos) && Harvestable(tiles, c)
    ensures Invariant(tiles[c := DepleteTile(tiles[c], now)],
                      res.Credit(ResourceOf(tiles[c].kind).value, ups.clickPower.effect), ups, vr, pos)
  {
    ConsistentEffectBounds(ClickPower, ups.Get(ClickPower));
    DepleteValid(tiles, c, now);
  }

  /** An auto-gather pass, harvesting the eligible tiles `cs`, keeps the invariant. */
  lemma AutoHarvestInvariant(tiles: TileMap, res: Resources, ups: Upgrades, vr: int, pos: Coord,
                             cs: set<Coord>, now: int)
    requires Invariant(tiles, res, ups, vr, pos) && cs <= Eligible(tiles)
    ensures Invariant(DepleteAll(tiles, cs, now), Gained(res, tiles, cs, ups.clickPower.effect), ups, vr, pos)
  {
    var e := ups.clickPower.effect;
    ConsistentEffectBounds(ClickPower, ups.Get(ClickPower));
    DepleteAllValid(tiles, cs, now);
    GainedPerResource(res, tiles, cs, e);
    forall q ensures Gained(res, tiles, cs, e).Get(q) >= 0 {
      ProductNonNegative(e, Yield(tiles, cs, q));
    }
  }

  lemma ProductNonNegative(a: int, b: int)
    requires a >= 0 && b >= 0
    ensures a * b >= 0
  {
  }

  /**
   * One step of an auto-gather pass: the next picked tile sits at its own
   * coordinates, and harvesting there extends the depleted set and the
   * yield by that one tile.
   */
  lemma AutoHarvestStep(t0: TileMap, cs: set<Coord>, c: Coord, now: int,
                        r0: Resources, tiles: TileMap, res: Resources, e: int)
    requires WellKeyed(t0) && c in Eligible(t0) && c !in cs
    requires tiles == DepleteAll(t0, cs, now)
    requires res == Gained(r0, t0, cs, e)
    ensures c in tiles
    ensures var h := HarvestAt(tiles, res, e, (tiles[c].x, tiles[c].y), now);
            && h.1 == DepleteAll(t0, cs + {c}, now)
            && h.2 == Gained(r0, t0, cs + {c}, e)
  {
    DepleteAllStep(t0, cs, c, now);
    assert tiles[c] == t0[c] && Harvestable(tiles, c);
    assert (tiles[c].x, tiles[c].y) == c;
    GainedStep(r0, t0, cs, c, e);
  }

  /**
   * The loop of autoGather on values: from the store `t0` with counters
   * `r0`, harvests distinct eligible tiles, `click` units each, while the
   * count is below min(power, candidates left). `gathered` is the set of
   * tiles harvested.
   */
  method AutoPass(t0: TileMap, r0: Resources, power: int, click: int, now: int)
    returns (tiles: TileMap, res: Resources, ghost gathered: set<Coord>)
    requires WellKeyed(t0)
    ensures gathered <= Eligible(t0)
    ensures |gathered| == AutoGatherCount(power, |Eligible(t0)|)
    ensures tiles == DepleteAll(t0, gathered, now)
    ensures res == Gained(r0, t0, gathered, click)
  {
    tiles, res, gathered := t0, r0, {};
    DepleteNone(t0, now);
    GainedNone(r0, t0, click);
    var valid := Eligible(t0);
    if |valid| == 0 {
      return;
    }
    ghost var n := |valid|;
    var i := 0;
    while i < (if power < |valid| then power else |valid|)
      invariant valid + gathered == Eligible(t0) && valid !! gathered
      invariant |gathered| == i && i + |valid| == n
      invariant i == 0 || (i - 1 < power && i - 1 < n - (i - 1))
      invariant tiles == DepleteAll(t0, gathered, now)
      invariant res == Gained(r0, t0, gathered, click)
      decreases |valid|
    {
      var c :| c in valid;
      AutoHarvestStep(t0, gathered, c, now, r0, tiles, res, click);
      PickStep(Eligible(t0), valid, gathered, c);
      var h := HarvestAt(tiles, res, click, (tiles[c].x, tiles[c].y), now);
      tiles, res := h.1, h.2;
      valid := valid - {c};
      gathered := gathered + {c};
      i := i + 1;
    }
    AutoGatherLoopStops(power, n, i);
  }

  /** Moving one element `c` from `left` to `done` keeps the two a partition of `all`. */
  lemma PickStep<T>(all: set<T>, left: set<T>, done: set<T>, c: T)
    requires left + done == all && left !! done && c in left
    ensures (left - {c}) + (done + {c}) == all && (left - {c}) !! (done + {c})
    ensures |left - {c}| == |left| - 1 && |done + {c}| == |done| + 1
  {
  }

  /** Paying for upgrade `k` and moving it one level up keeps the invariant, case by case. */
  lemma PurchaseInvariant(tiles: TileMap, res: Resources, ups: Upgrades, vr: int, pos: Coord, k: UpgradeType)
    requires Invariant(tiles, res, ups, vr, pos) && CanAfford(res, ups.Get(k).cost)
    ensures var res' := res.Minus(ups.Get(k).cost);
            var ups' := ups.Set(k, Bumped(k, ups.Get(k)));
            match k
            case ClickPower => Invariant(tiles, res', ups', vr, pos)
            case AutoGather => Invariant(tiles, res', ups', vr, pos)
            case GatherSpeed => Invariant(Retimed(tiles, RegrowthFor(ups'.gatherSpeed.effect)), res', ups', vr, pos)
            case ViewRange =>
              Invariant(Expanded(tiles, Region(pos, ups'.viewRange.effect)), res', ups', ups'.viewRange.effect, pos)
  {
    var res' := res.Minus(ups.Get(k).cost);
    var ups' := ups.Set(k, Bumped(k, ups.Get(k)));
    AffordablePaymentStaysNonNegative(res, ups.Get(k).cost);
    BumpedConsistent(k, ups.Get(k));
    assert TableConsistent(ups') by {
      forall j ensures Consistent(j, ups'.Get(j)) {
        if j != k {
          assert ups'.Get(j) == ups.Get(j);
        }
      }
    }
    match k {
      case ClickPower =>
      case AutoGather =>
      case GatherSpeed =>
        ConsistentEffectBounds(GatherSpeed, ups'.Get(GatherSpeed));
        RetimedValid(tiles, RegrowthFor(ups'.gatherSpeed.effect));
      case ViewRange =>
        GeneratedInvariant(tiles, res', ups', ups'.viewRange.effect, pos);
    }
  }

  class GameState {
    var tiles: map<Coord, Tile>
    var resources: Resources
    var upgrades: Upgrades
    var viewRange: int
    var position: Coord
    var lastTick: int

    ghost predicate Valid()
      reads this
    {
      Invariant(tiles, resources, upgrades, viewRange, position)
    }

    /** Auto-gather is due at `now`: it is unlocked and a second has passed since the last one. */
    predicate AutoGatherDue(now: int)
      reads this
    {
      upgrades.autoGather.level > 0 && now - lastTick >= AutoGatherInterval
    }

    /** A new game at time `now` (initializeGameState). */
    constructor (now: int)
      ensures resources == Resources(0, 0, 0)
      ensures upgrades == InitialUpgrades()
      ensures viewRange == InitialViewRange && position == (0, 0) && lastTick == now
      ensures tiles == Expanded(map[], Region(position, viewRange))
      ensures Valid()
    {
      tiles := map[];
      resources := Resources(0, 0, 0);
      upgrades := InitialUpgrades();
      viewRange := InitialViewRange;
      position := (0, 0);
      lastTick := now;
      new;
      InitialUpgradesConsistent();
      GeneratedInvariant(tiles, resources, upgrades, viewRange, position);
      GenerateTiles();
    }

    /**
     * generateTiles: every missing coordinate of the square of radius
     * viewRange around the position is generated, row by row; no existing
     * tile is touched.
     */
    method GenerateTiles()
      modifies this`tiles
      ensures tiles == Expanded(old(tiles), Region(position, viewRange))
      ensures old(Valid()) ==> Valid()
    {
      if Valid() {
        GeneratedInvariant(tiles, resources, upgrades, viewRange, position);
      }
      tiles := FillSquare(tiles, position, viewRange);
    }

    /** updateTiles: regrowth at time `now`. */
    method UpdateTiles(now: int)
      modifies this`tiles
      ensures tiles == Regrown(old(tiles), now)
      ensures old(Valid()) ==> Valid()
    {
      var m := RegrowAll(tiles, now);
      if Valid() {
        RegrownInvariant(tiles, resources, upgrades, viewRange, position, now);
      }
      tiles := m;
    }

    /**
     * harvestTile at (x, y) and time `now`: fails, changing nothing, when
     * the tile is absent, depleted or Empty; otherwise credits the
     * ClickPower effect to the tile's resource and depletes the tile.
     */
    method Harvest(x: int, y: int, now: int) returns (ok: bool)
      modifies this`tiles, this`resources
      ensures (ok, tiles, resources) == HarvestAt(old(tiles), old(resources), upgrades.clickPower.effect, (x, y), now)
      ensures old(Valid()) ==> Valid()
    {
      var c := (x, y);
      if c !in tiles || tiles[c].depleted || tiles[c].kind == Empty {
        return false;
      }
      if Valid() {
        HarvestInvariant(tiles, resources, upgrades, viewRange, position, c, now);
      }
      var r := ResourceOf(tiles[c].kind);
      resources := resources.Credit(r.value, upgrades.clickPower.effect);
      tiles := tiles[c := DepleteTile(tiles[c], now)];
      ok := true;
    }

    /**
     * autoGather at time `now`. Nothing happens at AutoGather level 0.
     * Otherwise distinct eligible tiles are harvested one at a time, each
     * removed from the candidates once harvested, while the count is below
     * min(effect, number of candidates left); `gathered` is the set of
     * tiles harvested.
     */
    method AutoHarvest(now: int) returns (ghost gathered: set<Coord>)
      requires WellKeyed(tiles)
      modifies this`tiles, this`resources
      ensures old(upgrades.autoGather.level) == 0 ==> gathered == {}
      ensures gathered <= Eligible(old(tiles))
      ensures |gathered| == if upgrades.autoGather.level == 0 then 0
                            else AutoGatherCount(upgrades.autoGather.effect, |Eligible(old(tiles))|)
      ensures tiles == DepleteAll(old(tiles), gathered, now)
      ensures resources == Gained(old(resources), old(tiles), gathered, upgrades.clickPower.effect)
      ensures old(Valid()) ==> Valid()
    {
      gathered := {};
      if upgrades.autoGather.level == 0 {
        DepleteNone(tiles, now);
        GainedNone(resources, tiles, upgrades.clickPower.effect);
        return;
      }
      var m, r;
      m, r, gathered := AutoPass(tiles, resources, upgrades.autoGather.effect, upgrades.clickPower.effect, now);
      if Valid() {
        AutoHarvestInvariant(tiles, resources, upgrades, viewRange, position, gathered, now);
      }
      tiles, resources := m, r;
    }

    /**
     * purchaseUpgrade of kind `k`: refused, changing nothing, when the
     * player cannot afford the current cost. Otherwise the cost is paid,
     * the upgrade moves one level up with escalated cost and recomputed
     * effect; GatherSpeed then resets every truthy regrowth time, and
     * ViewRange sets the view range and generates the larger square.
     */
    method Purchase(k: UpgradeType) returns (ok: bool)
      modifies this`tiles, this`resources, this`upgrades, this`viewRange
      ensures ok == CanAfford(old(resources), old(upgrades).Get(k).cost)
      ensures !ok ==> tiles == old(tiles) && resources == old(resources)
                      && upgrades == old(upgrades) && viewRange == old(viewRange)
      ensures ok ==> resources == old(resources).Minus(old(upgrades).Get(k).cost)
      ensures ok ==> upgrades == old(upgrades).Set(k, Bumped(k, old(upgrades).Get(k)))
      ensures ok && k == GatherSpeed ==> tiles == Retimed(old(tiles), RegrowthFor(upgrades.gatherSpeed.effect))
      ensures ok && k == ViewRange ==> viewRange == upgrades.viewRange.effect
                                       && tiles == Expanded(old(tiles), Region(position, viewRange))
      ensures k == ClickPower || k == AutoGather ==> tiles == old(tiles)
      ensures k != ViewRange ==> viewRange == old(viewRange)
      ensures old(Valid()) ==> Valid()
    {
      var u := upgrades.Get(k);
      if !CanAfford(resources, u.cost) {
        return false;
      }
      if Valid() {
        PurchaseInvariant(tiles, resources, upgrades, viewRange, position, k);
      }
      resources := resources.Minus(u.cost);
      var next := Bumped(k, u);
      upgrades := upgrades.Set(k, next);
      match k {
        case ClickPower =>
        case AutoGather =>
        case GatherSpeed =>
          var ms := RegrowthFor(next.effect);
          tiles := RetimeAll(tiles, ms);
        case ViewRange =>
          assert upgrades.viewRange == next;
          viewRange := next.effect;
          GenerateTiles();
      }
      ok := true;
    }

    /**
     * updateGameState at time `now`: regrowth always runs; auto-gather runs,
     * and lastTick becomes `now`, only when auto-gather is due.
     */
    method UpdateGameState(now: int) returns (ghost gathered: set<Coord>)
      requires WellKeyed(tiles)
      modifies this`tiles, this`resources, this`lastTick
      ensures old(AutoGatherDue(now)) ==>
                && lastTick == now
                && gathered <= Eligible(Regrown(old(tiles), now))
                && |gathered| == AutoGatherCount(upgrades.autoGather.effect, |Eligible(Regrown(old(tiles), now))|)
                && tiles == DepleteAll(Regrown(old(tiles), now), gathered, now)
                && resources == Gained(old(resources), Regrown(old(tiles), now), gathered, upgrades.clickPower.effect)
      ensures !old(AutoGatherDue(now)) ==>
                && gathered == {}
                && tiles == Regrown(old(tiles), now)
                && resources == old(resources)
                && lastTick == old(lastTick)
      ensures !AutoGatherDue(now)
      ensures old(Valid()) ==> Valid()
    {
      gathered := {};
      var due := AutoGatherDue(now);
      RegrownWellKeyed(tiles, now);
      UpdateTiles(now);
      if due {
        gathered := AutoHarvest(now);
        lastTick := now;
      }
    }

    /** movePosition: shift the viewport by (dx, dy), then generate around it. */
    method Move(dx: int, dy: int)
      modifies this`position, this`tiles
      ensures position == (old(position).0 + dx, old(position).1 + dy)
      ensures tiles == Expanded(old(tiles), Region(position, viewRange))
      ensures old(Valid()) ==> Valid()
    {
      position := (position.0 + dx, position.1 + dy);
      GenerateTiles();
      if old(Valid()) {
        GeneratedInvariant(old(tiles), resources, upgrades, viewRange, position);
      }
    }
  }
}
