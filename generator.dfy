/**
 * The coordinate hash and tile generator (src/utils/gameLogic.ts:69-105):
 * a deterministic map from a grid coordinate to a freshly generated tile.
 */
module Generator {
  import opened GameTypes

  /** Base regrowth duration in milliseconds. */
  const RegrowthTime: int := 10000

  const TwoTo32: int := 0x1_0000_0000

  /**
   * Math.imul: the product of two 32-bit patterns modulo 2^32, written as
   * shift-and-add over the `bits` low bits of `b`.
   */
  function ImulBits(a: bv32, b: bv32, bits: nat): bv32
    decreases bits
  {
    if bits == 0 then 0
    else (if b & 1 == 1 then a else 0) + ImulBits(a << 1, b >> 1, bits - 1)
  }

  function Imul(a: bv32, b: bv32): bv32 {
    ImulBits(a, b, 32)
  }

  /** What each call of the generator adds to its state before mixing it. */
  const Increment: int := 0x6D2B79F5

  /**
   * The output scramble of mulberry32 applied to the state `t`, as the
   * unsigned 32-bit value before the final division by 2^32. JavaScript
   * applies ToInt32/ToUint32 to every operand of `^`, `|`, `>>>` and
   * Math.imul, so the state enters as its residue modulo 2^32 and the whole
   * computation is on 32-bit patterns, which bv32 is; `>>>` is the logical
   * shift `>>` of bv32.
   */
  function Mix(t: int): bv32 {
    var t0 := (t % TwoTo32) as bv32;
    var t1 := Imul(t0 ^ (t0 >> 15), t0 | 1);
    var t2 := t1 ^ (t1 + Imul(t1 ^ (t1 >> 7), t1 | 61));
    t2 ^ (t2 >> 14)
  }

  /**
   * The generator mulberry32(seed) keeps the seed as its state; every call
   * first adds Increment to the state and then returns the mix of the new
   * state. Draw(seed, k) is the mix after k such advances, so the k-th call
   * (k >= 1) returns Draw(seed, k).
   */
  function Draw(seed: int, k: nat): bv32
    decreases k
  {
    if k == 0 then Mix(seed) else Draw(seed + Increment, k - 1)
  }

  /** An unsigned 32-bit value, as `>>> 0` leaves it. */
  type Uint32 = n: int | 0 <= n < TwoTo32

  /**
   * The hash of a coordinate: the first draw of mulberry32 seeded with
   * x * 10000 + y, as an unsigned integer.
   */
  function TileHash(x: int, y: int): Uint32 {
    Draw(x * 10000 + y, 1) as int
  }

  /** The draw as the number in [0, 1) that the source compares with its thresholds. */
  function UnitValue(n: Uint32): (v: real)
    ensures 0.0 <= v < 1.0
  {
    n as real / 4294967296.0
  }

  /**
   * Classifies a 32-bit draw with integer cut-offs: each cut-off is the
   * least draw whose unit value is not below the threshold (0.4, 0.7,
   * 0.85) it stands for.
   */
  function ClassifyHash(n: Uint32): TileType {
    if n < 1717986919 then Forest
    else if n < 3006477108 then Rock
    else if n < 3650722202 then TileType.Energy
    else Empty
  }

  /**
   * An integer cut-off stands for a real threshold when the draw just below
   * it has a unit value below the threshold and the cut-off itself does not.
   */
  lemma CutOffMatches(n: int, cut: int, threshold: real)
    requires (cut - 1) as real / 4294967296.0 < threshold <= cut as real / 4294967296.0
    ensures n < cut <==> n as real / 4294967296.0 < threshold
  {
    if n < cut {
      assert n as real <= (cut - 1) as real;
    } else {
      assert n as real >= cut as real;
    }
  }

  /** The integer cut-offs partition [0, 1) at 0.4, 0.7 and 0.85. */
  lemma ClassifyHashThresholds(n: Uint32)
    ensures ClassifyHash(n) == Forest <==> UnitValue(n) < 0.4
    ensures ClassifyHash(n) == Rock <==> 0.4 <= UnitValue(n) < 0.7
    ensures ClassifyHash(n) == TileType.Energy <==> 0.7 <= UnitValue(n) < 0.85
    ensures ClassifyHash(n) == Empty <==> 0.85 <= UnitValue(n)
  {
    CutOffMatches(n, 1717986919, 0.4);
    CutOffMatches(n, 3006477108, 0.7);
    CutOffMatches(n, 3650722202, 0.85);
  }

  /**
   * The tile generated for coordinate (x, y): its type comes from the hash,
   * it is not depleted, has never been harvested, and regrows in
   * RegrowthTime milliseconds unless it is Empty.
   */
  function GenerateTile(x: int, y: int): (t: Tile)
    ensures t.x == x && t.y == y
    ensures t.kind == ClassifyHash(TileHash(x, y))
    ensures !t.depleted && t.lastHarvested == None
    ensures t.regrowthTime.Some? <==> t.kind != Empty
    ensures t.regrowthTime.Some? ==> t.regrowthTime.value == RegrowthTime
  {
    var kind := ClassifyHash(TileHash(x, y));
    Tile(kind, x, y, false, if kind != Empty then Some(RegrowthTime) else None, None)
  }

  /**
   * The seed x * 10000 + y aliases coordinates whose y differs by 10000:
   * (x, y + 10000) and (x + 1, y) always get the same tile type.
   */
  lemma SeedAliasing(x: int, y: int)
    ensures GenerateTile(x, y + 10000).kind == GenerateTile(x + 1, y).kind
  {
    assert x * 10000 + (y + 10000) == (x + 1) * 10000 + y;
  }
}
