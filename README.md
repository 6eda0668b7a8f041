# Idle tile-harvesting game: simulation engine in Dafny

The model covers the engine of an idle/clicker game. The player harvests wood, stone and energy
from an infinite grid of procedurally generated tiles. The player spends those resources on four
upgrades:

- ClickPower raises the yield per harvest.
- AutoGather harvests random tiles once a second.
- GatherSpeed shortens regrowth.
- ViewRange enlarges the generated square around the viewport.

The model covers everything in `src/utils/gameLogic.ts`:

- the mulberry32 coordinate hash and tile generator;
- lazy world expansion;
- harvesting, regrowth and auto-gather;
- affordability and purchase;
- the tick and viewport movement;
- the initial state.

It also covers the data model and tile key of `src/types/game.ts`.

Modules, one per file:

- `GameTypes` (game_types.dfy) defines the datatypes for tile, resource and upgrade kinds and their records. Resource counters and the upgrade table are total records over exactly their kinds. It also defines the textual tile key `x,y`, proves that the key reads back as its coordinate, and proves the key injective. That is why the model keys the tile store by the integer pair.
- `Generator` (generator.dfy) defines mulberry32, with Math.imul and the bit mixing on `bv32`, and classifies the unsigned draw with integer cut-offs. Each cut-off is proved to stand exactly for the real thresholds 0.4, 0.7 and 0.85 of the draw divided by 2^32. It also defines `GenerateTile`.
- `Economy` (economy.dfy) holds the starting upgrade table, the effect of each upgrade as a function of its level, cost escalation floor(1.5·c) = (3c) div 2, affordability, and the upgrade record after one purchase. A table is *consistent* when each effect and cost is the one its level determines.
- `World` (world.dfy) describes the tile store as values through specification functions:
  - `Expanded`: generate the missing coordinates of a set, keeping existing tiles;
  - `Regrown`: regrowth;
  - `Retimed`: reset regrowth times after a GatherSpeed purchase;
  - `HarvestAt`: one harvest;
  - `Eligible`, `DepleteAll` and `Gained`: an auto-gather pass.

  It also proves the laws relating these functions.
- `Engine` (engine.dfy) holds the class `GameState` with the snapshot's fields. Each mutating function of the source is a method that updates those fields in place. The loops of `generateTiles`, `updateTiles`, the GatherSpeed `forEach` and `autoGather` are `while` loops over values, proved against the `World` functions. Every method keeps the state invariant `Valid()`:
  - tiles fit their coordinates and generated type;
  - counters are non-negative;
  - upgrades are consistent;
  - `viewRange` is the ViewRange effect;
  - the square around the viewport is generated.

Modelling choices:

- The clock (`Date.now()`) is an argument `now` of each operation.
- Math.random in `autoGather` is a nondeterministic choice among the candidates still present. Whatever the choices, the harvested tiles are distinct and eligible, and there are exactly min(effect, ⌈n/2⌉) of them, where n is the number of eligible tiles.
  - The loop bound `Math.min(power, validTiles.length)` is re-read after each `splice`. The loop therefore stops once the count reaches the number of candidates left, i.e. after ⌈n/2⌉ of the n eligible tiles, whenever the effect is at least that; that is how the code behaves.
  - The set of tiles harvested is a ghost out-parameter.
- GatherSpeed's effect is kept in integer tenths. The source's `Math.max(0.5, 1 - (level - 1) * 0.1)` is tenths max(5, 11 − level), and the regrowth time is 1000 × tenths milliseconds. `Economy.GatherSpeedEffectIsFormula` proves the two equal over the reals.
- JavaScript truthiness is kept: a regrowth time or harvest time of 0 is falsy. A tile harvested at time 0 therefore never regrows (`World.HarvestAtZeroNeverRegrows`).

Two behaviours of the code, reproduced as written:

- A GatherSpeed purchase retimes only the tiles already stored (`World.Retimed`). Tiles generated later still get the base 10000 ms (`Generator.GenerateTile`).
- Auto-gather harvests min(effect, ⌈n/2⌉) tiles per pass (`World.AutoGatherCount`), not always `effect` tiles.

Where the code and the design description differ, the model follows the code:

- The thresholds are 0.4/0.7/0.85, not 0.38/0.68/0.86.
- ClickPower's first price includes 2 energy.
- Tiles store `regrowthTime` and `lastHarvested` rather than a deadline.
- A tick does not resynchronise `viewRange` or expand the world. It advances `lastTick` only when auto-gather runs.
- The description says every nonzero cost component strictly grows on purchase. That fails for a component of 1, because floor(1.5) = 1. It holds in the code because every price component is at least 2 (`Economy.EscalatedCostAtLeastTwo`).

## Model

| member | source | states |
|---|---|---|
| GameTypes.Resources.Credit | src/utils/gameLogic.ts:163 | adding to one resource kind raises that counter by exactly n and leaves the other two unchanged |
| GameTypes.Resources.Minus | src/utils/gameLogic.ts:225-227 | every counter drops by exactly its cost component |
| GameTypes.Upgrades.Set | src/types/game.ts:50-57 | replacing the upgrade of kind k changes that entry only |
| GameTypes.IntTextRoundTrip | src/types/game.ts:60 | the decimal text of any integer, sign included, parses back to it and contains no comma |
| GameTypes.TileKeyRoundTrip | src/types/game.ts:60 | the key `x,y` reads back as exactly (x, y) |
| GameTypes.TileKeyInjective | src/types/game.ts:60 | two coordinates share a key if and only if they are equal, so negative and positive coordinates never collide |
| Generator.UnitValue | src/utils/gameLogic.ts:75 | the draw divided by 2^32 lies in [0, 1) |
| Generator.CutOffMatches | src/utils/gameLogic.ts:85-93 | an integer cut-off reproduces the comparison of the unit value with a real threshold exactly |
| Generator.ClassifyHashThresholds | src/utils/gameLogic.ts:85-93 | the integer classification gives Forest, Rock, Energy or Empty exactly when the unit value lies in [0,0.4), [0.4,0.7), [0.7,0.85) or [0.85,1) |
| Generator.GenerateTile | src/utils/gameLogic.ts:80-105 | the tile has the given coordinates and the type of the classification of the first mulberry32 draw seeded with x·10000+y; it is not depleted and was never harvested; its regrowth time is 10000 exactly when it is not Empty |
| Generator.SeedAliasing | src/utils/gameLogic.ts:81 | (x, y+10000) and (x+1, y) share a seed and hence a tile type |
| Economy.InitialUpgradesConsistent | src/utils/gameLogic.ts:16-57 | the starting table gives each kind its starting level, its listed price and the effect of that level, and is consistent |
| Economy.GatherSpeedEffectIsFormula | src/utils/gameLogic.ts:247 | the effect in tenths equals max(0.5, 1 − (level−1)·0.1) over the reals |
| Economy.NextCost | src/utils/gameLogic.ts:233-235 | the result is floor(1.5·c); it is at least c when c ≥ 0 and greater than c when c ≥ 2 |
| Economy.Escalate | src/utils/gameLogic.ts:233-235 | each component is escalated by NextCost |
| Economy.CanAfford | src/utils/gameLogic.ts:200-211 | true if and only if every counter covers its cost component |
| Economy.RegrowthFor | src/utils/gameLogic.ts:251 | the regrowth time equals 10000 × (tenths / 10) ms over the reals |
| Economy.BumpedConsistent | src/utils/gameLogic.ts:229-256 | a purchase raises the level by exactly one and keeps effect and cost equal to those the new level determines |
| Economy.EscalatedCostAtLeastTwo | src/utils/gameLogic.ts:233-235 | every price any upgrade reaches has every component at least 2 |
| Economy.PurchaseRaisesEveryCost | src/utils/gameLogic.ts:233-235 | every cost component of a consistent upgrade strictly increases on purchase |
| Economy.ConsistentEffectBounds | src/utils/gameLogic.ts:237-256 | a consistent upgrade has a ClickPower effect ≥ 1, an AutoGather effect ≥ 0, a GatherSpeed effect between 5 and 10 tenths, and a view range ≥ 5 |
| Economy.AffordablePaymentStaysNonNegative | src/utils/gameLogic.ts:218-227 | paying an affordable price leaves every counter non-negative |
| World.Block | src/utils/gameLogic.ts:111-112 | exactly the coordinates inside the rectangle |
| World.Expanded | src/utils/gameLogic.ts:108-119 | the keys are the old keys plus the square; old tiles are kept; exactly the new coordinates get generated tiles |
| World.ExpandedStep | src/utils/gameLogic.ts:113-116 | one more coordinate inserts its generated tile if and only if it is missing |
| World.ExpandedCovers | src/utils/gameLogic.ts:108-119 | after expansion every old key and every coordinate of the square is present |
| World.ExpandedComposes | src/utils/gameLogic.ts:108-119 | two expansions equal one expansion over the union, so nothing is ever overwritten |
| World.ExpandedIdempotent | src/utils/gameLogic.ts:108-119 | repeating generateTiles on the same square changes nothing |
| World.ExpandedValid | src/utils/gameLogic.ts:114-115 | expansion keeps every tile fitting its coordinate |
| World.Regrown | src/utils/gameLogic.ts:122-132 | same coordinates; `depleted` is cleared exactly on the tiles that are due, and no other field or tile changes |
| World.RegrownValid | src/utils/gameLogic.ts:125-131 | regrowth keeps every tile fitting its coordinate |
| World.RegrownIdempotent | src/utils/gameLogic.ts:122-132 | a second regrowth at the same time changes nothing |
| World.Retimed | src/utils/gameLogic.ts:249-253 | every truthy regrowth time becomes the new time; nothing else changes |
| World.RetimedValid | src/utils/gameLogic.ts:249-253 | a positive new time keeps every tile fitting its coordinate |
| World.ResourceOf | src/utils/gameLogic.ts:135-146 | no resource exactly for Empty; the mapping Forest→Wood, Rock→Stone, Energy→Energy is the function's definition |
| World.ResourceOfInjective | src/utils/gameLogic.ts:135-146 | two tile types that yield the same resource are the same type |
| World.HarvestAt | src/utils/gameLogic.ts:149-170 | succeeds if and only if the tile exists, is not depleted and is not Empty. On success only that tile changes, to depleted with lastHarvested = now. Only the mapped counter rises, by the click power; on refusal nothing changes |
| World.DepleteValid | src/utils/gameLogic.ts:166-167 | depleting a harvestable tile keeps the store valid |
| World.HarvestRegrowRoundTrip | src/utils/gameLogic.ts:126-128 | a tile harvested at time now ≠ 0 stays depleted until its regrowth time has passed; from then on it is the original tile with only lastHarvested changed |
| World.HarvestAtZeroNeverRegrows | src/utils/gameLogic.ts:126 | a harvest time of 0 is falsy, so that tile stays depleted forever |
| World.Eligible | src/utils/gameLogic.ts:178-180 | exactly the stored tiles that are not depleted and not Empty |
| World.DepleteAll | src/utils/gameLogic.ts:188-195 | same keys; exactly the chosen tiles become depleted at now |
| World.DepleteAllValid | src/utils/gameLogic.ts:188-195 | depleting eligible tiles keeps the store valid |
| World.DepleteAllStep | src/utils/gameLogic.ts:193 | depleting one more tile updates that one entry |
| World.YieldStep | src/utils/gameLogic.ts:163 | one more tile adds one to the count of its own resource only |
| World.YieldTotal | src/utils/gameLogic.ts:188-195 | the three resource counts of eligible tiles add up to their number |
| World.GainedPerResource | src/utils/gameLogic.ts:163 | each counter rises by the click power times the number of its tiles harvested |
| World.GainedStep | src/utils/gameLogic.ts:193 | harvesting one more tile credits its resource by the click power once |
| World.AutoGatherCount | src/utils/gameLogic.ts:188 | at most n tiles and at most power tiles; none at power ≤ 0; at least one when both are positive |
| World.AutoGatherLoopStops | src/utils/gameLogic.ts:188 | the loop counter stops exactly at min(power, ⌈n/2⌉) |
| Engine.FillRow | src/utils/gameLogic.ts:112-117 | the row loop fills exactly the missing cells of one row of the square |
| Engine.FillSquare | src/utils/gameLogic.ts:111-118 | the nested loops leave the store equal to its expansion over the square |
| Engine.MapTiles | src/utils/gameLogic.ts:125 | a forEach over the store updates every tile by the same function and keeps the coordinates |
| Engine.RegrowAll | src/utils/gameLogic.ts:125-131 | the updateTiles loop computes Regrown |
| Engine.RetimeAll | src/utils/gameLogic.ts:249-253 | the GatherSpeed loop computes Retimed |
| Engine.GeneratedInvariant | src/utils/gameLogic.ts:108-119 | generating the square around any position makes the invariant hold there |
| Engine.RegrownInvariant | src/utils/gameLogic.ts:122-132 | regrowth keeps the invariant |
| Engine.HarvestInvariant | src/utils/gameLogic.ts:153-169 | a successful harvest keeps the invariant |
| Engine.AutoHarvestInvariant | src/utils/gameLogic.ts:173-197 | an auto-gather pass over eligible tiles keeps counters non-negative and the invariant |
| Engine.AutoHarvestStep | src/utils/gameLogic.ts:190-194 | a picked tile is re-found under its own coordinates; harvesting it extends the depleted set and yield by that tile |
| Engine.AutoPass | src/utils/gameLogic.ts:178-196 | harvests distinct eligible tiles, exactly min(power, ⌈n/2⌉) of them, depleting exactly those and crediting each one's resource |
| Engine.PurchaseInvariant | src/utils/gameLogic.ts:214-264 | paying for any affordable upgrade, bumping it and applying its kind's side effect keeps the invariant |
| Engine.GameState.constructor | src/utils/gameLogic.ts:8-67 | zero resources, the starting upgrades, view range 5 at (0, 0), lastTick = now, and the 11×11 square generated; the invariant holds |
| Engine.GameState.GenerateTiles | src/utils/gameLogic.ts:108-119 | the store becomes its expansion over the square around the position; the invariant is kept |
| Engine.GameState.UpdateTiles | src/utils/gameLogic.ts:122-132 | the store becomes Regrown at now; the invariant is kept |
| Engine.GameState.Harvest | src/utils/gameLogic.ts:149-170 | the result, tiles and counters are those of HarvestAt with the ClickPower effect; nothing else changes; the invariant is kept |
| Engine.GameState.AutoHarvest | src/utils/gameLogic.ts:173-197 | a no-op at level 0. Otherwise it harvests exactly min(effect, ⌈n/2⌉) distinct eligible tiles, depleted at now, each crediting its resource; the invariant is kept |
| Engine.GameState.Purchase | src/utils/gameLogic.ts:214-264 | succeeds if and only if affordable, and on refusal nothing changes. On success the price is paid, the upgrade is bumped and no other upgrade changes. GatherSpeed retimes the tiles; ViewRange sets the view range to the new effect and expands the store; other kinds leave the tiles. The invariant is kept |
| Engine.GameState.UpdateGameState | src/utils/gameLogic.ts:267-279 | regrowth always runs. Auto-gather runs, and lastTick becomes now, exactly when it is due; afterwards it is no longer due at the same now; the invariant is kept |
| Engine.GameState.Move | src/utils/gameLogic.ts:282-292 | the position moves by the delta and the square around the new position is generated; the invariant is kept |

## Left out

- Rendering, input, timers and `localStorage` persistence are not part of this model.
- `Date.now()` becomes the argument `now`. The source reads the clock separately in `updateGameState`, `updateTiles` and `harvestTile`; the model uses one `now` per tick, so the clock does not advance within a tick.
- `Math.random()` in `autoGather` becomes a nondeterministic choice of a remaining candidate. The index it draws is always in range, so the `if (tile)` guard always passes.
- The unreachable `if (!resourceType)` refusal in `harvestTile` is not modelled: the type check before it already excludes Empty, the only type without a resource.
- Floating point: GatherSpeed effects are integer tenths and regrowth times are 1000 × tenths ms. In IEEE doubles, `Math.max(0.5, 1 - (level - 1) * 0.1)` is at every level the double nearest its tenth, and `10000 * effect` is exactly 1000 × max(5, 11 − level), so the tenths model is exact for regrowth times.
- Integers are unbounded, while JavaScript numbers are doubles exact only up to 2^53. The seed `x * 10000 + y`, the resource counters (`+=`), and the prices (`Math.floor(c * 1.5)`) all differ from the source beyond that bound, which normal play never reaches.
- Tiles are values in a map, so the aliasing of tile objects between `validTiles` and the store in `autoGather` is modelled by re-reading the store.
- Engine.GameState.AutoHarvest: requires that every stored tile sits under the key of its own coordinates. The source harvests through the tile's own x and y, and with a mis-keyed tile it would harvest a different cell; `Valid()` implies this precondition.
- Engine.GameState.UpdateGameState: requires the same keyed-store condition, for the same reason.
