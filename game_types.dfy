/**
 * The data model of the simulation (src/types/game.ts): tile, resource and
 * upgrade kinds, the tile, resource and upgrade records, and the textual
 * coordinate key used to index the tile store.
 */
module GameTypes {

  datatype Option<T> = None | Some(value: T)

  /** A nullable JavaScript number used in a boolean test: null and 0 are falsy. */
  predicate Truthy(o: Option<int>) {
    o.Some? && o.value != 0
  }

  datatype TileType = Empty | Forest | Rock | Energy

  datatype ResourceType = Wood | Stone | Energy

  datatype UpgradeType = ClickPower | AutoGather | GatherSpeed | ViewRange

  /** An integer grid coordinate (x, y). */
  type Coord = (int, int)

  /**
   * One cell of the grid. `kind` and the coordinates never change once the
   * tile exists; `regrowthTime` and `lastHarvested` are optional numbers
   * (milliseconds).
   */
  datatype Tile = Tile(kind: TileType, x: int, y: int, depleted: bool,
                       regrowthTime: Option<int>, lastHarvested: Option<int>)

  /** One counter per resource kind: exactly Wood, Stone and Energy. */
  datatype Resources = Resources(wood: int, stone: int, energy: int)
  {
    function Get(r: ResourceType): int {
      match r
      case Wood => wood
      case Stone => stone
      case Energy => energy
    }

    /** The counters with `n` added to kind `r` only. */
    function Credit(r: ResourceType, n: int): (res: Resources)
      ensures res.Get(r) == Get(r) + n
      ensures forall q :: q != r ==> res.Get(q) == Get(q)
    {
      match r
      case Wood => this.(wood := wood + n)
      case Stone => this.(stone := stone + n)
      case Energy => this.(energy := energy + n)
    }

    /** The counters with `cost` taken away, kind by kind. */
    function Minus(cost: Resources): (res: Resources)
      ensures forall q :: res.Get(q) == Get(q) - cost.Get(q)
    {
      Resources(wood - cost.wood, stone - cost.stone, energy - cost.energy)
    }

    predicate NonNegative() {
      forall q :: Get(q) >= 0
    }
  }

  /**
   * An upgrade record. `effect` is a number in the source; here it is an
   * integer, and for GatherSpeed it counts tenths (10 stands for 1.0).
   */
  datatype Upgrade = Upgrade(kind: UpgradeType, level: int, cost: Resources, effect: int)

  /** The upgrade table, total over exactly the four upgrade kinds. */
  datatype Upgrades = Upgrades(clickPower: Upgrade, autoGather: Upgrade,
                               gatherSpeed: Upgrade, viewRange: Upgrade)
  {
    function Get(k: UpgradeType): Upgrade {
      match k
      case ClickPower => clickPower
      case AutoGather => autoGather
      case GatherSpeed => gatherSpeed
      case ViewRange => viewRange
    }

    /** The table with the entry for `k` replaced by `u` and no other entry changed. */
    function Set(k: UpgradeType, u: Upgrade): (t: Upgrades)
      ensures t.Get(k) == u
      ensures forall j :: j != k ==> t.Get(j) == Get(j)
    {
      match k
      case ClickPower => this.(clickPower := u)
      case AutoGather => this.(autoGather := u)
      case GatherSpeed => this.(gatherSpeed := u)
      case ViewRange => this.(viewRange := u)
    }
  }

  // ---------------------------------------------------------------------
  // The tile key: the decimal text of x, a comma, the decimal text of y.
  // ---------------------------------------------------------------------

  predicate IsDigit(c: char) {
    '0' <= c <= '9'
  }

  predicate IsDigits(s: string) {
    |s| >= 1 && forall i :: 0 <= i < |s| ==> IsDigit(s[i])
  }

  function DigitChar(d: nat): (c: char)
    requires d < 10
    ensures IsDigit(c) && (c as int) - ('0' as int) == d
  {
    "0123456789"[d]
  }

  function DigitValue(c: char): nat
    requires IsDigit(c)
  {
    (c as int) - ('0' as int)
  }

  /** Decimal text of a natural number, most significant digit first, no leading zeros. */
  function NatText(n: nat): (s: string)
    ensures IsDigits(s)
    ensures |s| > 1 ==> s[0] != '0'
    decreases n
  {
    if n < 10 then [DigitChar(n)] else NatText(n / 10) + [DigitChar(n % 10)]
  }

  /** Decimal text of an integer, with a leading '-' when it is negative. */
  function IntText(i: int): string {
    if i < 0 then "-" + NatText(-i) else NatText(i)
  }

  function TileKey(x: int, y: int): string {
    IntText(x) + "," + IntText(y)
  }

  function ParseNat(s: string): nat
    requires IsDigits(s)
    decreases |s|
  {
    if |s| == 1 then DigitValue(s[0])
    else 10 * ParseNat(s[..|s| - 1]) + DigitValue(s[|s| - 1])
  }

  function ParseInt(s: string): Option<int> {
    if |s| >= 1 && s[0] == '-' then
      if IsDigits(s[1..]) then Some(0 - ParseNat(s[1..]) as int) else None
    else if IsDigits(s) then Some(ParseNat(s))
    else None
  }

  /** Position of the first comma in `s`, if there is one. */
  function CommaIndex(s: string): (r: Option<nat>)
    ensures r.Some? ==> r.value < |s| && s[r.value] == ',' && ',' !in s[..r.value]
    ensures r.None? ==> ',' !in s
    decreases |s|
  {
    if |s| == 0 then None
    else if s[0] == ',' then Some(0)
    else match CommaIndex(s[1..])
      case None => None
      case Some(i) => Some(i + 1)
  }

  /** Reads a tile key back into the coordinate it was made from. */
  function ParseTileKey(key: string): Option<Coord> {
    match CommaIndex(key)
    case None => None
    case Some(i) =>
      match (ParseInt(key[..i]), ParseInt(key[i + 1..]))
      case (Some(x), Some(y)) => Some((x, y))
      case _ => None
  }

  lemma {:induction false} NatTextRoundTrip(n: nat)
    ensures ParseNat(NatText(n)) == n
    decreases n
  {
    if n >= 10 {
      var s := NatText(n);
      NatTextRoundTrip(n / 10);
      assert s[..|s| - 1] == NatText(n / 10);
    }
  }

  lemma DigitsHaveNoComma(s: string)
    requires IsDigits(s)
    ensures ',' !in s && s[0] != '-'
  {
    forall k | 0 <= k < |s|
      ensures s[k] != ','
    {
      assert IsDigit(s[k]);
    }
    assert IsDigit(s[0]);
  }

  lemma IntTextRoundTrip(i: int)
    ensures ParseInt(IntText(i)) == Some(i)
    ensures ',' !in IntText(i)
  {
    var s := IntText(i);
    if i < 0 {
      var d := NatText(-i);
      NatTextRoundTrip(-i);
      DigitsHaveNoComma(d);
      assert s == "-" + d && s[1..] == d;
      assert s[0] == '-';
    } else {
      NatTextRoundTrip(i);
      DigitsHaveNoComma(s);
    }
  }

  /** In `a + "," + b` with no comma in `a`, the first comma is the one after `a`. */
  lemma {:induction false} CommaIndexOfJoin(a: string, b: string)
    requires ',' !in a
    ensures CommaIndex(a + "," + b) == Some(|a|)
    decreases |a|
  {
    if |a| > 0 {
      assert ',' !in a[1..] by {
        forall k | 0 <= k < |a| - 1 ensures a[1..][k] != ',' {
          assert a[1..][k] == a[k + 1];
        }
      }
      CommaIndexOfJoin(a[1..], b);
      assert (a + "," + b)[1..] == a[1..] + "," + b;
    }
  }

  /** Every key reads back as its own coordinate. */
  lemma TileKeyRoundTrip(x: int, y: int)
    ensures ParseTileKey(TileKey(x, y)) == Some((x, y))
  {
    var a, b := IntText(x), IntText(y);
    var key := TileKey(x, y);
    IntTextRoundTrip(x);
    IntTextRoundTrip(y);
    CommaIndexOfJoin(a, b);
    assert key[..|a|] == a;
    assert key[|a| + 1..] == b;
  }

  /** Two coordinates share a key exactly when they are the same coordinate. */
  lemma TileKeyInjective(x1: int, y1: int, x2: int, y2: int)
    ensures TileKey(x1, y1) == TileKey(x2, y2) <==> (x1, y1) == (x2, y2)
  {
    if TileKey(x1, y1) == TileKey(x2, y2) {
      TileKeyRoundTrip(x1, y1);
      TileKeyRoundTrip(x2, y2);
    }
  }
}
