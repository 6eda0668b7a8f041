/**
 * The economy ledger (src/utils/gameLogic.ts:8-67, 199-264): the starting
 * upgrade table, the effect of each upgrade as a function of its level, cost
 * escalation, affordability and the upgrade record after one purchase.
 */
module Economy {
  import opened GameTypes
  import Generator

  const InitialViewRange: int := 5

  /** The level each upgrade starts at. */
  function InitialLevel(k: UpgradeType): int {
    match k
    case ClickPower => 1
    case AutoGather => 0
    case GatherSpeed => 1
    case ViewRange => 1
  }

  /** The price of the first purchase of each upgrade, as (wood, stone, energy). */
  function InitialCost(k: UpgradeType): Resources {
    match k
    case ClickPower => Resources(10, 5, 2)
    case AutoGather => Resources(50, 30, 20)
    case GatherSpeed => Resources(30, 20, 10)
    case ViewRange => Resources(20, 15, 25)
  }

  /**
   * The effect of an upgrade at a given level. ClickPower and AutoGather
   * yield their level; GatherSpeed yields max(0.5, 1 - (level - 1) * 0.1),
   * counted in tenths; ViewRange yields 5 + level - 1.
   */
  function EffectOf(k: UpgradeType, level: int): int {
    match k
    case ClickPower => level
    case AutoGather => level
    case GatherSpeed => if 11 - level < 5 then 5 else 11 - level
    case ViewRange => InitialViewRange + (level - 1)
  }

  /** The upgrade table of a new game. The effects are the literals the source writes. */
  function InitialUpgrades(): Upgrades {
    Upgrades(
      Upgrade(ClickPower, 1, InitialCost(ClickPower), 1),
      Upgrade(AutoGather, 0, InitialCost(AutoGather), 0),
      Upgrade(GatherSpeed, 1, InitialCost(GatherSpeed), 10),
      Upgrade(ViewRange, 1, InitialCost(ViewRange), InitialViewRange))
  }

  /** Math.floor(c * 1.5): the next price of one cost component. */
  function NextCost(c: int): (r: int)
    ensures r as real <= 1.5 * c as real < r as real + 1.0
    ensures c >= 0 ==> r >= c
    ensures c >= 2 ==> r > c
  {
    (3 * c) / 2
  }

  /** Every component of a cost vector escalated once. */
  function Escalate(cost: Resources): (next: Resources)
    ensures forall q :: next.Get(q) == NextCost(cost.Get(q))
  {
    Resources(NextCost(cost.wood), NextCost(cost.stone), NextCost(cost.energy))
  }

  /** `cost` escalated `n` times. */
  function EscalateN(cost: Resources, n: nat): Resources {
    if n == 0 then cost else Escalate(EscalateN(cost, n - 1))
  }

  /** The price of an upgrade of kind `k` once it has reached `level`. */
  function CostAt(k: UpgradeType, level: int): Resources
    requires level >= InitialLevel(k)
  {
    EscalateN(InitialCost(k), level - InitialLevel(k))
  }

  /**
   * An upgrade record whose effect and cost are those its level determines:
   * the level is the only independent datum.
   */
  predicate Consistent(k: UpgradeType, u: Upgrade) {
    && u.kind == k
    && u.level >= InitialLevel(k)
    && u.effect == EffectOf(k, u.level)
    && u.cost == CostAt(k, u.level)
  }

  predicate TableConsistent(t: Upgrades) {
    forall k :: Consistent(k, t.Get(k))
  }

  /** The player can pay `cost` when every resource counter covers its component. */
  function CanAfford(res: Resources, cost: Resources): (ok: bool)
    ensures ok <==> forall q :: res.Get(q) >= cost.Get(q)
  {
    && res.Get(Wood) >= cost.Get(Wood)
    && res.Get(Stone) >= cost.Get(Stone)
    && res.Get(ResourceType.Energy) >= cost.Get(ResourceType.Energy)
  }

  /**
   * The upgrade record after one purchase of kind `k`: one level up, cost
   * escalated, effect recomputed from `k` and the new level.
   */
  function Bumped(k: UpgradeType, u: Upgrade): Upgrade {
    Upgrade(u.kind, u.level + 1, Escalate(u.cost), EffectOf(k, u.level + 1))
  }

  /** REGROWTH_TIME * effect for a GatherSpeed effect given in tenths. */
  function RegrowthFor(effectTenths: int): (ms: int)
    ensures ms as real == Generator.RegrowthTime as real * (effectTenths as real / 10.0)
  {
    1000 * effectTenths
  }

  // ---------------------------------------------------------------------
  // Properties
  // ---------------------------------------------------------------------

  /** A new game's upgrade table is consistent: effects and costs agree with the levels. */
  lemma InitialUpgradesConsistent()
    ensures TableConsistent(InitialUpgrades())
    ensures forall k :: InitialUpgrades().Get(k) == Upgrade(k, InitialLevel(k), InitialCost(k), EffectOf(k, InitialLevel(k)))
  {
  }

  /** The GatherSpeed effect in tenths is exactly max(0.5, 1 - (level - 1) * 0.1) over the reals. */
  lemma GatherSpeedEffectIsFormula(level: int)
    ensures var e := EffectOf(GatherSpeed, level) as real / 10.0;
            var f := 1.0 - (level - 1) as real * 0.1;
            e == if f < 0.5 then 0.5 else f
  {
  }

  /** A purchase keeps an upgrade consistent. */
  lemma BumpedConsistent(k: UpgradeType, u: Upgrade)
    requires Consistent(k, u)
    ensures Consistent(k, Bumped(k, u))
    ensures Bumped(k, u).level == u.level + 1
  {
  }

  /** Every component of every price an upgrade can have is at least 2. */
  lemma {:induction false} EscalatedCostAtLeastTwo(k: UpgradeType, n: nat)
    ensures forall q :: EscalateN(InitialCost(k), n).Get(q) >= 2
  {
    if n > 0 {
      EscalatedCostAtLeastTwo(k, n - 1);
    }
  }

  /**
   * Each purchase raises every cost component of a consistent upgrade
   * strictly (floor(1.5 c) > c because c >= 2).
   */
  lemma PurchaseRaisesEveryCost(k: UpgradeType, u: Upgrade)
    requires Consistent(k, u)
    ensures forall q :: Bumped(k, u).cost.Get(q) > u.cost.Get(q)
  {
    EscalatedCostAtLeastTwo(k, u.level - InitialLevel(k));
  }

  /** Effects stay in range: at least one unit per click, at least half the base regrowth. */
  lemma ConsistentEffectBounds(k: UpgradeType, u: Upgrade)
    requires Consistent(k, u)
    ensures k == ClickPower ==> u.effect >= 1
    ensures k == AutoGather ==> u.effect >= 0
    ensures k == GatherSpeed ==> 5 <= u.effect <= 10
    ensures k == ViewRange ==> u.effect >= InitialViewRange
  {
  }

  /** Paying an affordable price never drives a counter negative. */
  lemma AffordablePaymentStaysNonNegative(res: Resources, cost: Resources)
    requires CanAfford(res, cost)
    ensures res.Minus(cost).NonNegative()
  {
  }
}
