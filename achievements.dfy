/**
 * The achievement list of the browser game (`checkAchievements` in
 * public/main.js): a fixed, ordered list of rules, each unlocking an id once
 * a statistic of the game reaches a threshold.
 */
module Achievements {
  import opened Text

  /** The statistic a rule looks at. */
  datatype Metric = Score | Level | ClickPower | UpgradeCount

  /** One entry of the list: the id stored in the save, the name shown, and the condition. */
  datatype Rule = Rule(id: string, name: string, metric: Metric, threshold: nat)

  /** The state the conditions are evaluated on. */
  datatype Stats = Stats(score: nat, level: nat, clickPower: nat, totalUpgrades: nat)

  const Rules: seq<Rule> := [
    Rule("first_click", "Первый клик", Score, 1),
    Rule("ten_clicks", "10 очков", Score, 10),
    Rule("hundred_clicks", "100 очков", Score, 100),
    Rule("thousand_clicks", "1000 очков", Score, 1000),
    Rule("level_5", "5 уровень", Level, 5),
    Rule("level_10", "10 уровень", Level, 10),
    Rule("level_20", "20 уровень", Level, 20),
    Rule("mega_clicker", "Мега кликер", ClickPower, 50),
    Rule("first_upgrade", "Первое улучшение", UpgradeCount, 1),
    Rule("upgrade_master", "Мастер улучшений", UpgradeCount, 10)
  ]

  predicate Holds(r: Rule, st: Stats)
  {
    match r.metric
    case Score => st.score >= r.threshold
    case Level => st.level >= r.threshold
    case ClickPower => st.clickPower >= r.threshold
    case UpgradeCount => st.totalUpgrades >= r.threshold
  }

  /** The ids the first `n` rules add to the unlocked list `have`, in list order. */
  function Unlocks(have: seq<string>, st: Stats, n: nat): seq<string>
    requires n <= |Rules|
  {
    if n == 0 then []
    else
      Unlocks(have, st, n - 1)
      + (if Holds(Rules[n - 1], st) && Rules[n - 1].id !in have then [Rules[n - 1].id] else [])
  }

  /** The ids one evaluation of the whole list adds. */
  function NewlyUnlocked(have: seq<string>, st: Stats): seq<string>
  {
    Unlocks(have, st, |Rules|)
  }

  /** No two rules share an id. */
  lemma RuleIdsDistinct()
    ensures forall i, j :: 0 <= i < j < |Rules| ==> Rules[i].id != Rules[j].id
  {
  }

  /** An id is added exactly when one of the rules considered has it, holds and the id is not yet unlocked. */
  lemma {:induction false} UnlocksMembers(have: seq<string>, st: Stats, n: nat, id: string)
    requires n <= |Rules|
    ensures id in Unlocks(have, st, n) <==>
      exists j :: 0 <= j < n && Rules[j].id == id && Holds(Rules[j], st) && id !in have
  {
    if n > 0 {
      UnlocksMembers(have, st, n - 1, id);
    }
  }

  /** The positions in `Rules` of the rules behind `Unlocks(have, st, n)`. */
  ghost function UnlockIndices(have: seq<string>, st: Stats, n: nat): seq<nat>
    requires n <= |Rules|
  {
    if n == 0 then []
    else
      UnlockIndices(have, st, n - 1)
      + (if Holds(Rules[n - 1], st) && Rules[n - 1].id !in have then [n - 1] else [])
  }

  /** The added ids come from rules in increasing list position: notifications follow the list order. */
  lemma {:induction false} UnlocksFollowRuleOrder(have: seq<string>, st: Stats, n: nat)
    requires n <= |Rules|
    ensures var ix, u := UnlockIndices(have, st, n), Unlocks(have, st, n);
      |ix| == |u|
      && (forall a :: 0 <= a < |ix| ==> ix[a] < n && Rules[ix[a]].id == u[a] && Holds(Rules[ix[a]], st))
      && (forall a, b :: 0 <= a < b < |ix| ==> ix[a] < ix[b])
  {
    if n > 0 {
      UnlocksFollowRuleOrder(have, st, n - 1);
    }
  }

  /** The added ids are new and pairwise distinct. */
  lemma UnlocksFresh(have: seq<string>, st: Stats, n: nat)
    requires n <= |Rules|
    ensures NoDuplicates(Unlocks(have, st, n))
    ensures forall id :: id in Unlocks(have, st, n) ==> id !in have
  {
    var ix, u := UnlockIndices(have, st, n), Unlocks(have, st, n);
    UnlocksFollowRuleOrder(have, st, n);
    RuleIdsDistinct();
    forall id | id in u ensures id !in have {
      UnlocksMembers(have, st, n, id);
    }
    forall a, b | 0 <= a < b < |u| ensures u[a] != u[b] {
      assert ix[a] < ix[b];
    }
  }

  /** Evaluating the list again on the same statistics adds nothing. */
  lemma UnlockIdempotent(have: seq<string>, st: Stats)
    ensures NewlyUnlocked(have + NewlyUnlocked(have, st), st) == []
  {
    var have' := have + NewlyUnlocked(have, st);
    var again := NewlyUnlocked(have', st);
    if again != [] {
      var id := again[0];
      UnlocksMembers(have', st, |Rules|, id);
      var j :| 0 <= j < |Rules| && Rules[j].id == id && Holds(Rules[j], st) && id !in have';
      UnlocksMembers(have, st, |Rules|, id);
      assert false;
    }
  }

  /** An unlocked list without repeated ids keeps that property. */
  lemma UnlockKeepsNoDuplicates(have: seq<string>, st: Stats)
    requires NoDuplicates(have)
    ensures NoDuplicates(have + NewlyUnlocked(have, st))
  {
    var u := NewlyUnlocked(have, st);
    UnlocksFresh(have, st, |Rules|);
    var all := have + u;
    forall a, b | 0 <= a < b < |all| ensures all[a] != all[b] {
      if b >= |have| && a < |have| {
        assert all[b] == u[b - |have|] && u[b - |have|] in u;
        assert all[a] in have;
      } else if a >= |have| {
        assert all[a] == u[a - |have|] && all[b] == u[b - |have|];
      }
    }
  }
}
