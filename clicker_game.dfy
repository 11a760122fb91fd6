/**
 * The browser game's session object (`ClickerGame` in public/main.js): score,
 * coins, level, click power, the upgrade table and the unlocked achievements,
 * updated in place by clicks, purchases and loading a saved profile.
 *
 * Network calls are replaced by values: a load receives the profile the
 * server returned (or `None` when the request failed), and a save returns the
 * snapshot it would POST, so the caller sees which saves a step requests.
 */
module Game {
  import opened Wrappers
  import opened Progression
  import opened Achievements

  /** One "level N!" message and the delay after which it is shown. */
  datatype LevelUpMessage = LevelUpMessage(level: nat, delayMs: nat)

  /** A JSON text column of the stored profile: missing or empty, parsed, or rejected by `JSON.parse`. */
  datatype Blob<T> = Absent | Parsed(value: T) | Malformed

  /**
   * The profile the server returns, numeric fields already read with
   * `value || default`: a 0 here stands for a missing or zero field.
   */
  datatype SavedProfile = SavedProfile(
    score: nat, level: nat, highScore: nat, coins: nat,
    upgrades: Blob<map<string, Upgrade>>, achievements: Blob<seq<string>>)

  /** The body of the POST a save sends. */
  datatype Snapshot = Snapshot(
    score: nat, level: nat, highScore: nat, coins: nat,
    upgrades: seq<Upgrade>, achievements: seq<string>)

  /** How `buyUpgrade` ends: bought at a price, refused for want of coins, or an unknown key (a TypeError in the source). */
  datatype Purchase = Purchased(cost: nat) | InsufficientFunds(cost: nat) | UnknownUpgrade

  /** Milliseconds between two consecutive level-up messages. */
  const LevelUpDelayMs: nat := 500

  /** A click saves when the new score is a multiple of this. */
  const SaveEvery: nat := 10

  function Max(a: nat, b: nat): (m: nat)
    ensures m >= a && m >= b && (m == a || m == b)
  {
    if a >= b then a else b
  }

  /** Where `key` stands in `keys`: the property lookup `this.upgrades[key]`. */
  function IndexOfKey(keys: seq<string>, key: string): (r: Option<nat>)
    ensures r.Some? ==> r.value < |keys| && keys[r.value] == key
    ensures r.None? <==> key !in keys
  {
    if |keys| == 0 then None
    else if keys[0] == key then Some(0)
    else
      match IndexOfKey(keys[1..], key)
      case None => None
      case Some(i) => Some(i + 1)
  }

  lemma UpgradeKeysDistinct()
    ensures forall i, j :: 0 <= i < j < |UpgradeKeys| ==> UpgradeKeys[i] != UpgradeKeys[j]
  {
  }

  /** The table after `loadGame` copies the saved entries whose keys the table has. */
  function MergeUpgrades(table: seq<Upgrade>, saved: map<string, Upgrade>): (merged: seq<Upgrade>)
    requires |table| == |UpgradeKeys|
    ensures |merged| == |table|
  {
    seq(|table|, i requires 0 <= i < |table| =>
      if UpgradeKeys[i] in saved then saved[UpgradeKeys[i]] else table[i])
  }

  /** Saved entries under keys the table does not have change nothing. */
  lemma MergeIgnoresUnknownKeys(table: seq<Upgrade>, saved: map<string, Upgrade>, extra: string, u: Upgrade)
    requires |table| == |UpgradeKeys| && extra !in UpgradeKeys
    ensures MergeUpgrades(table, saved[extra := u]) == MergeUpgrades(table, saved)
  {
    var a, b := MergeUpgrades(table, saved[extra := u]), MergeUpgrades(table, saved);
    forall i | 0 <= i < |table| ensures a[i] == b[i] {
      assert UpgradeKeys[i] != extra;
    }
  }

  /** Loading the same saved table twice gives what loading it once gives. */
  lemma MergeIdempotent(table: seq<Upgrade>, saved: map<string, Upgrade>)
    requires |table| == |UpgradeKeys|
    ensures MergeUpgrades(MergeUpgrades(table, saved), saved) == MergeUpgrades(table, saved)
  {
  }

  class ClickerGame {
    var score: nat
    var highScore: nat
    var level: nat
    var clickPower: nat
    var coins: nat
    var achievements: seq<string>
    var upgrades: seq<Upgrade>
    var telegramId: Option<string>

    /** The table keeps its eight entries, the level is at least 1, and the click power is the one the table gives. */
    ghost predicate Valid()
      reads this
    {
      level >= 1 && |upgrades| == |UpgradeKeys| && clickPower == ClickPowerOf(upgrades)
    }

    /** What the achievement conditions look at. */
    ghost function CurrentStats(): Stats
      reads this
    {
      Stats(score, level, clickPower, TotalUpgrades(upgrades))
    }

    ghost function CurrentSnapshot(): Snapshot
      reads this
    {
      Snapshot(score, level, highScore, coins, upgrades, achievements)
    }

    /** A fresh game; `telegramId` is the identity `initTelegram` found, if any. */
    constructor (telegramId: Option<string>)
      ensures Valid()
      ensures score == 0 && highScore == 0 && level == 1 && clickPower == 1 && coins == 0
      ensures achievements == [] && upgrades == InitialUpgrades && this.telegramId == telegramId
    {
      score := 0;
      highScore := 0;
      level := 1;
      clickPower := 1;
      coins := 0;
      achievements := [];
      upgrades := InitialUpgrades;
      this.telegramId := telegramId;
      InitialClickPower();
    }

    /** `getCurrentLevelProgress()`: points gained inside the current level (never negative) and the points the level asks for. */
    method GetCurrentLevelProgress() returns (current: nat, required: nat)
      requires Valid()
      ensures required == PointsToNextLevel(level)
      ensures current == if score >= Cumulative(level) then score - Cumulative(level) else 0
      ensures current < required <==> score < Cumulative(level + 1)
      ensures level == LevelForScore(score) ==> current < required
    {
      var totalPointsNeeded := 0;
      for i := 1 to level
        invariant totalPointsNeeded == Cumulative(i)
      {
        totalPointsNeeded := totalPointsNeeded + PointsToNextLevel(i);
      }
      var currentLevelPoints := score - totalPointsNeeded;
      current := if currentLevelPoints < 0 then 0 else currentLevelPoints;
      required := PointsToNextLevel(level);
    }

    /** `calculateClickPower()`. */
    method CalculateClickPower() returns (power: nat)
      ensures power == ClickPowerOf(upgrades)
      ensures power >= 1
    {
      var p: int := 1;
      for i := 0 to |upgrades|
        invariant p == 1 + PowerSum(upgrades[..i])
      {
        assert upgrades[..i + 1][..i] == upgrades[..i];
        p := p + upgrades[i].level * upgrades[i].multiplier;
      }
      assert upgrades[..|upgrades|] == upgrades;
      power := if p < 1 then 1 else p;
    }

    /** `saveGame()`: raises the high score to the score, then sends the whole state. */
    method SaveGame() returns (sent: Option<Snapshot>)
      modifies this`highScore
      ensures sent.Some? <==> telegramId.Some?
      ensures highScore == if telegramId.Some? then Max(old(highScore), score) else old(highScore)
      ensures sent.Some? ==> sent.value == CurrentSnapshot() && sent.value.highScore >= sent.value.score
    {
      if telegramId.None? {
        return None;
      }
      if score > highScore {
        highScore := score;
      }
      sent := Some(Snapshot(score, level, highScore, coins, upgrades, achievements));
    }

    /**
     * `checkLevelUp()`: computes the level the score reaches, raises the
     * stored level to it (never lowers it), and schedules one message per
     * level gained, in ascending order, 500 ms apart.
     */
    method CheckLevelUp() returns (messages: seq<LevelUpMessage>)
      requires Valid()
      modifies this`level, this`clickPower
      ensures Valid()
      ensures level == Max(old(level), LevelForScore(score))
      ensures clickPower == old(clickPower)
      ensures |messages| == level - old(level)
      ensures forall j :: 0 <= j < |messages| ==>
        messages[j] == LevelUpMessage(old(level) + 1 + j, j * LevelUpDelayMs)
    {
      var currentLevel: nat := 1;
      var totalPointsNeeded: nat := 0;
      while true
        invariant currentLevel >= 1 && totalPointsNeeded == Cumulative(currentLevel)
        invariant totalPointsNeeded <= score
        decreases score - totalPointsNeeded
      {
        var pointsForNextLevel := PointsToNextLevel(currentLevel);
        if totalPointsNeeded + pointsForNextLevel > score {
          break;
        }
        totalPointsNeeded := totalPointsNeeded + pointsForNextLevel;
        currentLevel := currentLevel + 1;
      }
      LevelForScoreUnique(score, currentLevel);
      messages := [];
      if currentLevel > level {
        var oldLevel := level;
        level := currentLevel;
        clickPower := CalculateClickPower();
        for i := oldLevel + 1 to level + 1
          invariant |messages| == i - oldLevel - 1
          invariant forall j :: 0 <= j < |messages| ==>
            messages[j] == LevelUpMessage(oldLevel + 1 + j, j * LevelUpDelayMs)
        {
          messages := messages + [LevelUpMessage(i, (i - oldLevel - 1) * LevelUpDelayMs)];
        }
      }
    }

    /**
     * `checkAchievements()`: appends, in list order, every id whose condition
     * holds and that is not unlocked yet; saves when something was added.
     */
    method CheckAchievements() returns (unlocked: seq<string>, sent: Option<Snapshot>)
      requires Valid()
      modifies this`achievements, this`highScore
      ensures Valid()
      ensures unlocked == NewlyUnlocked(old(achievements), CurrentStats())
      ensures achievements == old(achievements) + unlocked
      ensures sent.Some? <==> unlocked != [] && telegramId.Some?
      ensures highScore == if sent.Some? then Max(old(highScore), score) else old(highScore)
      ensures sent.Some? ==> sent.value == CurrentSnapshot()
    {
      var stats := Stats(score, level, clickPower, TotalUpgrades(upgrades));
      unlocked := [];
      RuleIdsDistinct();
      for i := 0 to |Rules|
        invariant achievements == old(achievements) + unlocked
        invariant unlocked == Unlocks(old(achievements), stats, i)
        modifies this`achievements
      {
        var rule := Rules[i];
        UnlocksMembers(old(achievements), stats, i, rule.id);
        if Holds(rule, stats) && rule.id !in achievements {
          achievements := achievements + [rule.id];
          unlocked := unlocked + [rule.id];
        }
      }
      sent := None;
      if unlocked != [] {
        sent := SaveGame();
      }
    }

    /**
     * `handleClick()`: with an identity, adds the click power to the score
     * and one coin, then re-checks level and achievements, and saves when
     * the new score is a multiple of 10. Without an identity nothing happens.
     */
    method HandleClick() returns (saves: seq<Snapshot>, messages: seq<LevelUpMessage>, unlocked: seq<string>)
      requires Valid()
      modifies this
      ensures Valid()
      ensures old(telegramId).None? ==>
        unchanged(this) && saves == [] && messages == [] && unlocked == []
      ensures old(telegramId).Some? ==>
        && telegramId == old(telegramId)
        && score == old(score) + old(clickPower)
        && coins == old(coins) + 1
        && upgrades == old(upgrades) && clickPower == old(clickPower)
        && level == Max(old(level), LevelForScore(score))
        && |messages| == level - old(level)
        && (forall j :: 0 <= j < |messages| ==>
              messages[j] == LevelUpMessage(old(level) + 1 + j, j * LevelUpDelayMs))
        && unlocked == NewlyUnlocked(old(achievements), CurrentStats())
        && achievements == old(achievements) + unlocked
        && |saves| == (if unlocked != [] then 1 else 0) + (if score % SaveEvery == 0 then 1 else 0)
        && highScore == (if saves != [] then Max(old(highScore), score) else old(highScore))
        && (forall s :: s in saves ==> s == CurrentSnapshot())
    {
      saves, messages, unlocked := [], [], [];
      if telegramId.None? {
        return;
      }
      score := score + clickPower;
      coins := coins + 1;
      messages := CheckLevelUp();
      var sent;
      unlocked, sent := CheckAchievements();
      if sent.Some? {
        saves := saves + [sent.value];
      }
      if score % SaveEvery == 0 {
        sent := SaveGame();
        saves := saves + [sent.value];
      }
    }

    /**
     * `buyUpgrade(key)`: with enough coins for `floor(cost * 1.5^level)`,
     * pays exactly that, raises only that upgrade's level by one,
     * recomputes the click power and saves; otherwise changes nothing.
     */
    method BuyUpgrade(key: string) returns (outcome: Purchase, sent: Option<Snapshot>)
      requires Valid()
      modifies this`coins, this`upgrades, this`clickPower, this`highScore
      ensures Valid()
      ensures IndexOfKey(UpgradeKeys, key).None? ==>
        outcome == UnknownUpgrade && sent.None? && unchanged(this)
      ensures IndexOfKey(UpgradeKeys, key).Some? ==>
        var i := IndexOfKey(UpgradeKeys, key).value;
        var cost := UpgradeCost(old(upgrades)[i]);
        if old(coins) >= cost then
          && outcome == Purchased(cost)
          && coins == old(coins) - cost
          && upgrades == Bump(old(upgrades), i)
          && (old(upgrades)[i].multiplier >= 0 ==> clickPower >= old(clickPower))
          && (sent.Some? <==> telegramId.Some?)
          && highScore == (if sent.Some? then Max(old(highScore), score) else old(highScore))
          && (sent.Some? ==> sent.value == CurrentSnapshot())
        else
          outcome == InsufficientFunds(cost) && sent.None? && unchanged(this)
    {
      var index := IndexOfKey(UpgradeKeys, key);
      if index.None? {
        return UnknownUpgrade, None;
      }
      outcome, sent := BuyAt(index.value);
    }

    /** `buyUpgrade` on the upgrade at position `i` of the table. */
    method BuyAt(i: nat) returns (outcome: Purchase, sent: Option<Snapshot>)
      requires Valid() && i < |UpgradeKeys|
      modifies this`coins, this`upgrades, this`clickPower, this`highScore
      ensures Valid()
      ensures
        var cost := UpgradeCost(old(upgrades)[i]);
        if old(coins) >= cost then
          && outcome == Purchased(cost)
          && coins == old(coins) - cost
          && upgrades == Bump(old(upgrades), i)
          && (old(upgrades)[i].multiplier >= 0 ==> clickPower >= old(clickPower))
          && (sent.Some? <==> telegramId.Some?)
          && highScore == (if sent.Some? then Max(old(highScore), score) else old(highScore))
          && (sent.Some? ==> sent.value == CurrentSnapshot())
        else
          outcome == InsufficientFunds(cost) && sent.None? && unchanged(this)
    {
      sent := None;
      var currentCost := UpgradeCost(upgrades[i]);
      if coins >= currentCost {
        Pay(i, currentCost);
        sent := SaveGame();
        outcome := Purchased(currentCost);
      } else {
        outcome := InsufficientFunds(currentCost);
      }
    }

    /** The purchase itself: pays `cost`, raises upgrade `i` by one level and recomputes the click power. */
    method Pay(i: nat, cost: nat)
      requires Valid() && i < |upgrades| && cost <= coins
      modifies this`coins, this`upgrades, this`clickPower
      ensures Valid()
      ensures coins == old(coins) - cost && upgrades == Bump(old(upgrades), i)
      ensures old(upgrades)[i].multiplier >= 0 ==> clickPower >= old(clickPower)
    {
      coins := coins - cost;
      upgrades := Bump(upgrades, i);
      ClickPowerBump(old(upgrades), i);
      clickPower := CalculateClickPower();
    }

    /**
     * `loadGame()` after the server answered with `response` (`None` when the
     * request failed or returned nothing). Fields are assigned in the order
     * the source assigns them; a stored upgrade or achievement text that
     * `JSON.parse` rejects stops the load there, keeping what was assigned.
     * The stored level is taken as it is, not recomputed from the score.
     */
    /** The loop of `loadGame` over the saved upgrade entries, each copied over the table entry with its key. */
    method MergeSaved(saved: map<string, Upgrade>)
      requires |upgrades| == |UpgradeKeys|
      modifies this`upgrades
      ensures upgrades == MergeUpgrades(old(upgrades), saved)
    {
      var pending := saved.Keys;
      UpgradeKeysDistinct();
      while pending != {}
        invariant pending <= saved.Keys
        invariant |upgrades| == |UpgradeKeys|
        invariant forall i :: 0 <= i < |upgrades| ==>
          upgrades[i] == if UpgradeKeys[i] in saved && UpgradeKeys[i] !in pending then saved[UpgradeKeys[i]] else old(upgrades)[i]
        decreases pending
      {
        var key :| key in pending;
        var index := IndexOfKey(UpgradeKeys, key);
        if index.Some? {
          upgrades := upgrades[index.value := saved[key]];
        }
        pending := pending - {key};
      }
    }

    method LoadGame(response: Option<SavedProfile>)
      requires Valid()
      modifies this
      ensures Valid() && telegramId == old(telegramId)
      ensures old(telegramId).None? || response.None? ==> unchanged(this)
      ensures old(telegramId).Some? && response.Some? ==>
        var d := response.value;
        && score == d.score && highScore == d.highScore && coins == d.coins
        && level == (if d.level == 0 then 1 else d.level)
        && upgrades == (if d.upgrades.Parsed? then MergeUpgrades(old(upgrades), d.upgrades.value) else old(upgrades))
        && achievements == (
             if d.upgrades.Malformed? || d.achievements.Malformed? then old(achievements)
             else if d.achievements.Parsed? then d.achievements.value
             else [])
    {
      if telegramId.None? || response.None? {
        return;
      }
      var userData := response.value;
      score := userData.score;
      level := if userData.level == 0 then 1 else userData.level;
      highScore := userData.highScore;
      coins := userData.coins;
      match userData.upgrades {
        case Malformed =>
          return;
        case Absent =>
        case Parsed(saved) =>
          MergeSaved(saved);
      }
      clickPower := CalculateClickPower();
      match userData.achievements {
        case Malformed =>
          return;
        case Absent =>
          achievements := [];
        case Parsed(list) =>
          achievements := list;
      }
    }
  }
}
