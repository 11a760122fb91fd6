/**
 * The progression rules of the browser game (`ClickerGame` in public/main.js):
 * the points each level asks for, the level a score reaches, the click power
 * the upgrades give and the price of the next upgrade level.
 *
 * The source computes `Math.floor(x * Math.pow(1.5, k))` in floating point;
 * here 1.5^k is the exact rational 3^k / 2^k, so `Scale15(c, k)` is
 * `floor(c * 3^k / 2^k)`.
 */
module Progression {

  /** Points level 1 asks for (`basePointsToNextLevel`). */
  const BasePoints: nat := 10

  function Pow(b: nat, k: nat): (r: nat)
    ensures b >= 1 ==> r >= 1
  {
    if k == 0 then 1 else b * Pow(b, k - 1)
  }

  lemma {:induction false} Pow3AtLeastPow2(k: nat)
    ensures Pow(3, k) >= Pow(2, k)
  {
    if k > 0 {
      Pow3AtLeastPow2(k - 1);
    }
  }

  /** `floor(c * 1.5^k)`, exactly. */
  function Scale15(c: nat, k: nat): nat
  {
    c * Pow(3, k) / Pow(2, k)
  }

  lemma MulMonotone(a: nat, b: nat, y: nat)
    requires a <= b
    ensures a * y <= b * y
  {
  }

  /** Whole division by `y` keeps a lower bound `m` with `m * y <= x`. */
  lemma DivAtLeast(x: nat, y: nat, m: nat)
    requires y > 0 && m * y <= x
    ensures m <= x / y
  {
    var q, r := x / y, x % y;
    assert x == q * y + r && r < y;
    if q < m {
      MulMonotone(q + 1, m, y);
      assert false;
    }
  }

  /** Growing by 1.5^k never goes below the base. */
  lemma Scale15AtLeastBase(c: nat, k: nat)
    ensures Scale15(c, k) >= c
  {
    Pow3AtLeastPow2(k);
    assert c * Pow(2, k) <= c * Pow(3, k) by {
      MulMonotone(Pow(2, k), Pow(3, k), c);
    }
    DivAtLeast(c * Pow(3, k), Pow(2, k), c);
  }

  lemma StepBound(x: nat, d: nat, q: nat, h: nat)
    requires q * d <= x && 2 * h <= q
    ensures (q + h) * (2 * d) <= 3 * x
  {
    MulMonotone(2 * h, q, d);
    assert (q + h) * (2 * d) == 2 * (q * d) + (2 * h) * d;
  }

  lemma PowSucc(c: nat, k: nat)
    ensures c * Pow(3, k + 1) == 3 * (c * Pow(3, k))
    ensures Pow(2, k + 1) == 2 * Pow(2, k)
  {
  }

  /** One more factor 1.5 adds at least half of the previous value (rounded down). */
  lemma Scale15Step(c: nat, k: nat)
    ensures Scale15(c, k + 1) >= Scale15(c, k) + Scale15(c, k) / 2
  {
    var x, d := c * Pow(3, k), Pow(2, k);
    var q := x / d;
    var h := q / 2;
    assert q * d <= x;
    StepBound(x, d, q, h);
    PowSucc(c, k);
    DivAtLeast(3 * x, 2 * d, q + h);
  }

  /** `getPointsToNextLevel(level)`: `floor(10 * 1.5^(level - 1))`. */
  function PointsToNextLevel(level: nat): (p: nat)
    requires level >= 1
    ensures p >= BasePoints
  {
    Scale15AtLeastBase(BasePoints, level - 1);
    Scale15(BasePoints, level - 1)
  }

  /** Each level asks for more points than the one before. */
  lemma PointsIncrease(level: nat)
    requires level >= 1
    ensures PointsToNextLevel(level + 1) > PointsToNextLevel(level)
  {
    Scale15Step(BasePoints, level - 1);
  }

  lemma {:induction false} PointsStrictlyIncreasing(a: nat, b: nat)
    requires 1 <= a < b
    ensures PointsToNextLevel(a) < PointsToNextLevel(b)
  {
    PointsIncrease(b - 1);
    if a < b - 1 {
      PointsStrictlyIncreasing(a, b - 1);
    }
  }

  /** The score at which `level` is reached: the points of levels 1 .. level-1 together. */
  function Cumulative(level: nat): (total: nat)
    requires level >= 1
    ensures total >= BasePoints * (level - 1)
  {
    if level == 1 then 0 else Cumulative(level - 1) + PointsToNextLevel(level - 1)
  }

  lemma {:induction false} CumulativeStrictlyIncreasing(a: nat, b: nat)
    requires 1 <= a < b
    ensures Cumulative(a) < Cumulative(b)
  {
    if a < b - 1 {
      CumulativeStrictlyIncreasing(a, b - 1);
    }
  }

  function LevelSearch(level: nat, score: nat): (r: nat)
    requires level >= 1 && Cumulative(level) <= score
    ensures r >= level && Cumulative(r) <= score < Cumulative(r + 1)
    decreases score - Cumulative(level)
  {
    if Cumulative(level + 1) > score then level else LevelSearch(level + 1, score)
  }

  /** The level `checkLevelUp` computes for a score: the last level whose threshold the score has reached. */
  function LevelForScore(score: nat): (level: nat)
    ensures level >= 1 && Cumulative(level) <= score < Cumulative(level + 1)
  {
    LevelSearch(1, score)
  }

  /** The level is the LARGEST one whose threshold the score reaches: `L` is reached exactly when `L <= LevelForScore(score)`. */
  lemma LevelForScoreIsLargest(score: nat, level: nat)
    requires level >= 1
    ensures Cumulative(level) <= score <==> level <= LevelForScore(score)
  {
    var l := LevelForScore(score);
    if level < l {
      CumulativeStrictlyIncreasing(level, l);
    } else if level > l {
      if level > l + 1 {
        CumulativeStrictlyIncreasing(l + 1, level);
      }
    }
  }

  /** Any level whose threshold is reached and whose successor's is not is the computed level. */
  lemma LevelForScoreUnique(score: nat, level: nat)
    requires level >= 1 && Cumulative(level) <= score < Cumulative(level + 1)
    ensures LevelForScore(score) == level
  {
    LevelForScoreIsLargest(score, level);
    LevelForScoreIsLargest(score, level + 1);
  }

  /** Reaching a level's threshold exactly reaches that level (the boundary advances). */
  lemma LevelAtThreshold(level: nat)
    requires level >= 1
    ensures LevelForScore(Cumulative(level)) == level
  {
    CumulativeStrictlyIncreasing(level, level + 1);
    LevelForScoreUnique(Cumulative(level), level);
  }

  /** A higher score never gives a lower level. */
  lemma LevelForScoreMonotone(s: nat, t: nat)
    requires s <= t
    ensures LevelForScore(s) <= LevelForScore(t)
  {
    LevelForScoreIsLargest(t, LevelForScore(s));
  }

  /** Ten points reach level 2: level 1 asks for exactly 10 points. */
  lemma TenPointsReachLevelTwo()
    ensures LevelForScore(10) == 2
  {
    assert PointsToNextLevel(1) == 10;
    assert Pow(3, 1) == 3 && Pow(2, 1) == 2;
    assert PointsToNextLevel(2) == 15;
    LevelForScoreUnique(10, 2);
  }

  /** One upgrade of the shop table: its level, its base cost and what each level adds to the click power. */
  datatype Upgrade = Upgrade(level: nat, cost: nat, multiplier: int)

  /** The keys of the table, in the order the table declares them (and `Object.values` visits them). */
  const UpgradeKeys: seq<string> := [
    "yandexSearch", "yandexMaps", "yandexMusic", "yandexPlus",
    "yandexGPT", "yandexCloud", "yandexMarket", "yandexGo"
  ]

  const InitialUpgrades: seq<Upgrade> := [
    Upgrade(0, 50, 1), Upgrade(0, 100, 2), Upgrade(0, 200, 3), Upgrade(0, 500, 5),
    Upgrade(0, 1000, 10), Upgrade(0, 2000, 15), Upgrade(0, 5000, 25), Upgrade(0, 10000, 50)
  ]

  /** The price of the next level of an upgrade: `floor(cost * 1.5^level)`. */
  function UpgradeCost(u: Upgrade): nat
  {
    Scale15(u.cost, u.level)
  }

  /** The price never falls as the level rises, and rises strictly once the base cost is at least 2. */
  lemma UpgradeCostGrows(u: Upgrade)
    ensures UpgradeCost(u.(level := u.level + 1)) >= UpgradeCost(u) + UpgradeCost(u) / 2
    ensures UpgradeCost(u) >= u.cost
    ensures u.cost >= 2 ==> UpgradeCost(u.(level := u.level + 1)) > UpgradeCost(u)
  {
    Scale15Step(u.cost, u.level);
    Scale15AtLeastBase(u.cost, u.level);
  }

  /** The table with upgrade `i` one level higher. */
  function Bump(ups: seq<Upgrade>, i: nat): seq<Upgrade>
    requires i < |ups|
  {
    ups[i := ups[i].(level := ups[i].level + 1)]
  }

  /** The sum of `level * multiplier` over the table. */
  function PowerSum(ups: seq<Upgrade>): int
  {
    if |ups| == 0 then 0
    else PowerSum(ups[..|ups| - 1]) + ups[|ups| - 1].level * ups[|ups| - 1].multiplier
  }

  /** `calculateClickPower()`: `max(1, 1 + sum of level * multiplier)`. */
  function ClickPowerOf(ups: seq<Upgrade>): (power: nat)
    ensures power >= 1
  {
    var p := 1 + PowerSum(ups);
    if p < 1 then 1 else p
  }

  /** `getTotalUpgrades()`: the sum of the levels. */
  function TotalUpgrades(ups: seq<Upgrade>): nat
  {
    if |ups| == 0 then 0 else TotalUpgrades(ups[..|ups| - 1]) + ups[|ups| - 1].level
  }

  lemma {:induction false} PowerSumBump(ups: seq<Upgrade>, i: nat)
    requires i < |ups|
    ensures PowerSum(Bump(ups, i)) == PowerSum(ups) + ups[i].multiplier
  {
    var n := |ups|;
    var b := Bump(ups, i);
    if i == n - 1 {
      assert b[..n - 1] == ups[..n - 1];
      assert (ups[i].level + 1) * ups[i].multiplier == ups[i].level * ups[i].multiplier + ups[i].multiplier;
    } else {
      assert b[..n - 1] == Bump(ups[..n - 1], i);
      PowerSumBump(ups[..n - 1], i);
    }
  }

  lemma {:induction false} TotalUpgradesBump(ups: seq<Upgrade>, i: nat)
    requires i < |ups|
    ensures TotalUpgrades(Bump(ups, i)) == TotalUpgrades(ups) + 1
  {
    var n := |ups|;
    var b := Bump(ups, i);
    if i == n - 1 {
      assert b[..n - 1] == ups[..n - 1];
    } else {
      assert b[..n - 1] == Bump(ups[..n - 1], i);
      TotalUpgradesBump(ups[..n - 1], i);
    }
  }

  /**
   * Buying a level of upgrade `i` never lowers the click power when its
   * multiplier is not negative (every multiplier of the initial table is
   * positive), and then raises it by exactly that multiplier.
   */
  lemma ClickPowerBump(ups: seq<Upgrade>, i: nat)
    requires i < |ups|
    ensures ups[i].multiplier >= 0 ==> ClickPowerOf(Bump(ups, i)) >= ClickPowerOf(ups)
    ensures ups[i].multiplier >= 0 && PowerSum(ups) >= 0 ==>
      ClickPowerOf(Bump(ups, i)) == ClickPowerOf(ups) + ups[i].multiplier
  {
    PowerSumBump(ups, i);
  }

  lemma {:induction false} PowerSumUnowned(ups: seq<Upgrade>)
    requires forall i :: 0 <= i < |ups| ==> ups[i].level == 0
    ensures PowerSum(ups) == 0 && TotalUpgrades(ups) == 0
  {
    if |ups| > 0 {
      PowerSumUnowned(ups[..|ups| - 1]);
    }
  }

  /** With nothing bought the click power is 1. */
  lemma InitialClickPower()
    ensures |InitialUpgrades| == |UpgradeKeys|
    ensures ClickPowerOf(InitialUpgrades) == 1 && TotalUpgrades(InitialUpgrades) == 0
  {
    PowerSumUnowned(InitialUpgrades);
  }
}
