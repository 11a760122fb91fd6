# BugClicker in Dafny

BugClicker is a clicker game played inside Telegram. This project models its three cores in Dafny and proves properties of each:
- **The browser game.** This is `ClickerGame` in public/main.js.
  - Every click adds the click power to the score and one coin.
  - The score climbs a level curve in which each level asks for 1.5 times the points of the one before.
  - Coins buy eight upgrades, whose prices grow by 1.5 per level they already have.
  - Ten achievements unlock on thresholds.
  - The state is saved to, and loaded from, the server.
- **The Telegram shop bot.** This is main.py. It keeps one record per user (clicks, level, click power, auto-clickers) that the "click" button and two shop items update.
- **The Mini App backend.** This is backend.py.
  - It rejects every request whose Telegram init data is not signed with the bot's token.
  - It keeps a click counter per user.
  - It answers with the caller's count and a top-10 table.

## Modules

| module | file | what it holds |
|---|---|---|
| `Wrappers` | wrappers.dfy | `Option` and `Result` |
| `Text` | text.dfy | Python string behaviour: ordering and `sorted`, `split`, `in`, `join`, `strip` |
| `Decimal` | decimal.dfy | `str(int)` and the `int(str)` it needs |
| `Dicts` | dicts.dfy | Python dictionaries as insertion-ordered entry lists |
| `Progression` | progression.dfy | the level curve, the upgrade table, its prices and the click power |
| `Achievements` | achievements.dfy | the ten achievement rules and what one evaluation unlocks |
| `Game` | clicker_game.dfy | the class `ClickerGame` and its methods |
| `ShopBot` | shop_bot.dfy | the class `ClickerBot` with the `users_data` dictionary |
| `InitData` | init_data.dfy | the init-data signature check, field decoding, the user id and the display name |
| `Leaderboard` | leaderboard.dfy | the class `ClickBoard` with `user_clicks`, `do_click` and `get_state` |

The powers of 1.5 are exact in this model:
- `getPointsToNextLevel(n)` is `floor(10 * 3^(n-1) / 2^(n-1))`.
- The price of an upgrade at level `k` is `floor(cost * 3^k / 2^k)`.

Three behaviours of the code are worth knowing before reading the model:
- **Rejected stored data.** A stored upgrade or achievement text that `JSON.parse` rejects ends `loadGame` where it is, inside the `try` (public/main.js:105-115). Fields already assigned keep their new values and the rest keep their old ones.
- **Stored level.** The level stored in a profile is taken as it is on load (public/main.js:101). It is not recomputed from the score. So "level is the level of the score" is not an invariant of the game. It holds only after `checkLevelUp`, and then only when the stored level was not already higher.
- **Click power on level-up.** `checkLevelUp` recomputes the click power on a level-up, but the click power does not depend on the level, so the value does not change (public/main.js:234, 266-274).

## Model

| member | source | states |
|---|---|---|
| Progression.PointsToNextLevel | public/main.js:70-72 | every level asks for at least the 10 base points |
| Progression.PointsIncrease | public/main.js:70-72 | a level asks for strictly more points than the level before it |
| Progression.PointsStrictlyIncreasing | public/main.js:70-72 | for levels a < b, level b asks for strictly more points than level a |
| Progression.Scale15AtLeastBase | public/main.js:278 | `floor(c * 1.5^k)` is never below `c` |
| Progression.Scale15Step | public/main.js:278 | one more factor 1.5 adds at least half of the previous value, rounded down |
| Progression.Cumulative | public/main.js:76-78 | reaching level L takes at least 10·(L-1) points |
| Progression.CumulativeStrictlyIncreasing | public/main.js:219-229 | a higher level has a strictly higher threshold |
| Progression.LevelSearch | public/main.js:222-229 | starting from a reached level, the search stops at a level whose threshold is reached and whose successor's is not |
| Progression.LevelForScore | public/main.js:219-229 | the level for a score is at least 1; its threshold is reached and the next level's is not |
| Progression.LevelForScoreIsLargest | public/main.js:219-229 | level L is reached by a score if and only if L is at most the computed level |
| Progression.LevelForScoreUnique | public/main.js:219-229 | any level whose threshold is reached and whose successor's is not is the computed level |
| Progression.LevelAtThreshold | public/main.js:224 | a score exactly at a level's threshold reaches that level (a tie advances) |
| Progression.LevelForScoreMonotone | public/main.js:219-229 | a higher score never gives a lower level |
| Progression.TenPointsReachLevelTwo | public/main.js:70-72 | a score of 10 is level 2 |
| Progression.Scale15 | public/main.js:278 | defines `floor(c * 1.5^k)` exactly as `c * 3^k / 2^k` rounded down; its bounds are Scale15AtLeastBase and Scale15Step |
| Progression.UpgradeCost | public/main.js:278 | defines the price of an upgrade at its current level; UpgradeCostGrows states how it grows |
| Progression.UpgradeCostGrows | public/main.js:278 | an upgrade's price is at least its base cost, and grows by at least half per level (strictly once the base cost is at least 2) |
| Progression.ClickPowerOf | public/main.js:266-274 | the click power is never below 1 |
| Progression.PowerSum | public/main.js:269-271 | defines the sum of level × multiplier over the table; PowerSumBump and PowerSumUnowned state its properties |
| Progression.TotalUpgrades | public/main.js:412-414 | defines `getTotalUpgrades` as the sum of the levels; TotalUpgradesBump and PowerSumUnowned state its properties |
| Progression.PowerSumBump | public/main.js:269-271 | one more level of upgrade i adds exactly its multiplier to the sum of level × multiplier |
| Progression.TotalUpgradesBump | public/main.js:412-414 | one more level of any upgrade adds exactly 1 to the total of levels |
| Progression.ClickPowerBump | public/main.js:282-284 | buying a level with a non-negative multiplier never lowers the click power, and raises it by exactly the multiplier when the sum was not negative |
| Progression.PowerSumUnowned | public/main.js:266-274 | a table with every level 0 has sum 0 and total 0 |
| Progression.InitialClickPower | public/main.js:14-23 | the initial eight-entry table gives click power 1 and no upgrades |
| Achievements.Holds | public/main.js:385-394 | defines each rule's condition: the statistic it names is at least its threshold (the ten rules are the constant `Rules`) |
| Achievements.Unlocks | public/main.js:399-405 | defines the ids the first n rules add, in list order; UnlocksMembers, UnlocksFollowRuleOrder and UnlocksFresh state what they are |
| Achievements.NewlyUnlocked | public/main.js:383-405 | defines the ids one evaluation of the whole list adds; UnlockIdempotent and UnlockKeepsNoDuplicates state its properties |
| Achievements.RuleIdsDistinct | public/main.js:384-395 | no two achievement rules share an id |
| Achievements.UnlocksMembers | public/main.js:399-405 | an id is added iff a rule considered has it, its condition holds and the id is not yet unlocked |
| Achievements.UnlocksFollowRuleOrder | public/main.js:399-405 | the added ids come from rules in increasing list position, so notifications follow the list order |
| Achievements.UnlocksFresh | public/main.js:400-401 | the added ids are pairwise distinct and none was unlocked before |
| Achievements.UnlockIdempotent | public/main.js:383-410 | evaluating the rules again on the same statistics adds nothing |
| Achievements.UnlockKeepsNoDuplicates | public/main.js:400-401 | an unlocked list without repeated ids keeps that property |
| Game.IndexOfKey | public/main.js:277 | the lookup finds the key's position iff the table has the key |
| Game.UpgradeKeysDistinct | public/main.js:14-23 | the eight upgrade keys are distinct |
| Game.MergeUpgrades | public/main.js:107-113 | merging saved upgrades keeps the table's eight entries |
| Game.MergeIgnoresUnknownKeys | public/main.js:108-110 | a saved entry under a key the table does not have changes nothing |
| Game.MergeIdempotent | public/main.js:107-113 | merging the same saved upgrades twice gives what merging once gives |
| Game.ClickerGame.constructor | public/main.js:2-23 | a new game has score, high score, coins 0, level 1, click power 1, no achievements and the initial upgrade table |
| Game.ClickerGame.GetCurrentLevelProgress | public/main.js:74-88 | the loop's sum is the stored level's threshold; gives the never-negative points inside that level and the points it asks for; the progress stays below the requirement exactly when the score has not reached the next level's threshold, which holds whenever the stored level is the score's level |
| Game.ClickerGame.CalculateClickPower | public/main.js:266-274 | the loop computes `max(1, 1 + Σ level·multiplier)` over the table, at least 1 |
| Game.ClickerGame.SaveGame | public/main.js:132-164 | without an identity nothing is sent; otherwise the high score is raised to the score and the full state is sent, with high score ≥ score |
| Game.ClickerGame.CheckLevelUp | public/main.js:218-247 | the level becomes the larger of the old level and the score's level, never lower; one message per level gained, ascending, 500 ms apart |
| Game.ClickerGame.CheckAchievements | public/main.js:383-410 | appends exactly the newly unlocked ids in rule order; saves iff something was unlocked and there is an identity |
| Game.ClickerGame.HandleClick | public/main.js:181-198 | without an identity nothing changes; otherwise score + click power, coins + 1, level-up and achievements as above, one save when anything was unlocked and one when the score is a multiple of 10 |
| Game.ClickerGame.BuyUpgrade | public/main.js:276-294 | an unknown key changes nothing; with coins ≥ price, pays exactly the price, raises only that upgrade's level, never lowers the click power when that upgrade's multiplier is not negative, and saves; otherwise changes nothing |
| Game.ClickerGame.BuyAt | public/main.js:278-293 | for a known upgrade: with coins ≥ `floor(cost * 1.5^level)`, pays exactly that, raises only that level, never lowers the click power when its multiplier is not negative, and saves; otherwise changes nothing |
| Game.ClickerGame.Pay | public/main.js:281-284 | takes exactly the price, raises only that upgrade's level by one, keeps the click power equal to the table's and never lowers it for a non-negative multiplier |
| Game.ClickerGame.MergeSaved | public/main.js:106-110 | the loop over the saved keys leaves exactly the merged table: a known key takes its saved entry, the rest keep theirs |
| Game.ClickerGame.LoadGame | public/main.js:90-130 | without an identity or an answer nothing changes; otherwise takes the stored fields (level 0 read as 1), merges known upgrade keys, takes the achievements, and stops at a text `JSON.parse` rejects |
| Decimal.NatToString | main.py:40 | `str(n)` is a non-empty digit string with no leading zero unless n is 0 |
| Decimal.DigitsOfNatToString | main.py:40 | the digits `str` writes denote the number |
| Decimal.ParseIntToString | backend.py:135 | `int(str(i)) == i` |
| Decimal.IntToStringInjective | main.py:40 | different numbers have different `str` texts |
| Dicts.Get | backend.py:132 | `get` answers None iff the key is absent, and otherwise a value stored under the key |
| Dicts.Put | backend.py:283 | defines `d[k] = v` on an insertion-ordered dictionary; GetPut, PutKeys, PutNew and PutDistinct state its effect |
| Dicts.GetPut | backend.py:283 | after `d[k] = v`, k reads v and every other key reads what it read |
| Dicts.PutKeys | backend.py:283 | assignment keeps an existing key in place and appends a new one |
| Dicts.PutDistinct | backend.py:36 | assignment keeps keys distinct |
| Dicts.PutNew | backend.py:275 | assigning an absent key appends one entry at the end |
| Dicts.GetAppend | backend.py:119-127 | a lookup after appending finds an existing key first, the new one otherwise |
| Dicts.Remove | backend.py:100 | defines `d.pop(k, None)`; GetRemove, RemoveSubsequence, RemoveKeepsOthers, RemoveConcat and RemoveDistinct state its effect |
| Dicts.GetRemove | backend.py:100 | after `pop(k)`, k is absent and every other key reads what it read |
| Dicts.RemoveSubsequence | backend.py:100 | `pop` keeps only entries that were there, none with the removed key |
| Dicts.RemoveKeepsOthers | backend.py:100 | every entry under another key survives `pop` |
| Dicts.RemoveConcat | backend.py:100 | `pop` keeps the surviving entries in their order: removing from a concatenation removes from each part |
| Dicts.RemoveDistinct | backend.py:100 | `pop` keeps keys distinct |
| Dicts.KeysOfHasKey | backend.py:104 | a key is listed by `keys()` iff the dict has it |
| Dicts.FromPairs | backend.py:99 | defines `dict(pairs)`; FromPairsLastWins and FromPairsDistinct state what it holds |
| Dicts.FromPairsLastWins | backend.py:99 | in `dict(pairs)` a repeated key holds the value of its last pair |
| Dicts.FromPairsDistinct | backend.py:99 | `dict(pairs)` has distinct keys |
| Text.Less | backend.py:104 | defines Python's string order: code point by code point, a proper prefix first; the four lemmas below make it a strict total order |
| Text.Insert | backend.py:104 | defines one insertion step of `sorted`; InsertPermutes and InsertAscending state its properties |
| Text.Sort | backend.py:104 | defines `sorted` on keys; SortPermutes, SortAscending, SortDistinct and StrictlyAscendingUnique state what it yields |
| Text.Join | backend.py:104 | defines `sep.join(parts)`; JoinSplit relates it to Split |
| Text.Contains | backend.py:133 | defines Python's `t in s` on two strings; ContainsOccurs characterises it |
| Text.LessIrreflexive | backend.py:104 | string order: no string is below itself |
| Text.LessAsymmetric | backend.py:104 | string order: a below b excludes b below a |
| Text.LessTransitive | backend.py:104 | string order is transitive |
| Text.LessTotal | backend.py:104 | two different strings are ordered one way or the other |
| Text.InsertPermutes | backend.py:104 | inserting into the sorted list adds exactly that element |
| Text.InsertAscending | backend.py:104 | inserting into an ascending list keeps it ascending |
| Text.SortPermutes | backend.py:104 | `sorted` is a permutation |
| Text.SortAscending | backend.py:104 | `sorted` is ascending |
| Text.SortDistinct | backend.py:104 | sorting distinct keys gives a strictly ascending list of the same keys |
| Text.StrictlyAscendingUnique | backend.py:104 | two strictly ascending lists with the same members are equal |
| Text.Split | main.py:168 | `split` yields at least one piece, none holding the separator |
| Text.OccurrencesOfMember | main.py:168 | a string holding the separator has at least one occurrence |
| Text.SplitCount | main.py:168 | `split` yields one more piece than there are separators |
| Text.JoinSplit | main.py:168 | joining the pieces with the separator gives the string back |
| Text.ContainsOccurs | backend.py:133 | `t in s` on strings iff t occurs in s at some position |
| Text.TrimStart | backend.py:262 | keeps a suffix of the input that does not start with whitespace |
| Text.TrimStartDropsSpace | backend.py:262 | every character the left trim drops is whitespace |
| Text.TrimEnd | backend.py:262 | keeps a prefix of the input that does not end with whitespace |
| Text.TrimEndDropsSpace | backend.py:262 | every character the right trim drops is whitespace |
| Text.Strip | backend.py:262 | `strip()` is never longer than the input, and a non-empty result neither starts nor ends with whitespace |
| Text.StripCutsWhitespace | backend.py:262 | `strip()` is a contiguous piece of the input, and only whitespace is cut on either side of it |
| Text.StripUnchanged | backend.py:262 | a string without surrounding whitespace is its own `strip()` |
| InitData.Hex | backend.py:114 | `hexdigest` writes two characters per byte |
| InitData.UnHexHex | backend.py:114 | reading the hex text back gives the digest |
| InitData.HexOfUnHex | backend.py:116 | every text that reads as hex is the hex text of what it reads as |
| InitData.HexInjective | backend.py:116 | equal hex texts mean equal digests |
| InitData.DataCheckString | backend.py:104 | defines the `k=v` lines of the sorted keys joined by line feeds; DataCheckStringSorted and DataCheckStringCanonical characterise it |
| InitData.DataCheckStringSorted | backend.py:104 | the data-check-string is the `k=v` lines of any strictly ascending listing of exactly the fields' keys, joined by line feeds |
| InitData.DataCheckStringCanonical | backend.py:104 | fields holding the same value under every key give the same data-check-string, whatever their order |
| InitData.CheckSignature | backend.py:96-117 | empty init data gives 401 "Missing init data"; a parse failure gives a server error; accepted fields have distinct keys and no `hash` |
| InitData.SignatureDecision | backend.py:99-117 | absent or empty hash gives 401 "Missing hash"; otherwise accepted iff the hash is the hex of HMAC(HMAC("WebAppData", token), data-check-string), else 401 "Invalid init data signature"; accepted fields hold the last value sent for every key but `hash` |
| InitData.SignatureIgnoresFieldOrder | backend.py:99-117 | two init data strings whose fields carry the same final values are accepted or rejected together |
| InitData.DecodeField | backend.py:120-126 | defines the decoding of one field: JSON for `user`, `receiver`, `chat` (the text when parsing fails), the text otherwise |
| InitData.DecodeAll | backend.py:118-127 | defines the `result` dictionary built field by field; DecodeAllFields and DecodeAllDistinct state its properties |
| InitData.DecodeAllFields | backend.py:119-127 | the result has the fields' keys in order; only `user`, `receiver`, `chat` are JSON-decoded (text on failure); other values pass unchanged |
| InitData.DecodeAllDistinct | backend.py:119-127 | the result has distinct keys |
| InitData.VerifiedData | backend.py:91-128 | defines `verify_init_data`: the check's error, or the decoded fields; VerifyInitData is proved equal to it |
| InitData.VerifyInitData | backend.py:91-128 | the loop yields the checked fields with the JSON ones decoded, or the check's error; the result has no `hash` |
| InitData.IntOf | backend.py:135 | defines `int()` on a decoded id: an integer, a boolean as 0/1, a decimal text, or a server error |
| InitData.UserIdOf | backend.py:132-135 | a missing user gives 401 "No user in init data"; an id comes only from a user object that has an `id` |
| InitData.UserIdOfObject | backend.py:132-135 | a user object without `id` gives 401; an integer id, or its decimal text, is the user id |
| InitData.AuthenticatedUserId | backend.py:130-135 | defines `extract_user_id_from_init_data`; AuthenticatedUserIdIsSigned and ExtractUserId are about it |
| InitData.AuthenticatedUserIdIsSigned | backend.py:130-135 | a user id comes only from non-empty init data whose hash is the digest of its other fields |
| InitData.ExtractUserId | backend.py:130-135 | returns the user id of the verified data, or the first error |
| InitData.DisplayName | backend.py:259-262 | defines the name `get_state` shows: the user object's name, or none when `user` is not an object |
| InitData.NameOf | backend.py:262 | defines the joined, stripped first and last name, or else the `username`; DisplayNameJoins and DisplayNameFallsBack state its cases |
| InitData.DisplayNameJoins | backend.py:262 | a first and a last name without surrounding blanks are shown as "first last" |
| InitData.DisplayNameFallsBack | backend.py:262 | with neither name, the `username` is shown, or nothing |
| Leaderboard.InsertByCount | backend.py:264 | inserting adds one entry |
| Leaderboard.Rank | backend.py:264 | ranking keeps the number of entries |
| Leaderboard.InsertByCountPermutes | backend.py:264 | inserting adds exactly that entry |
| Leaderboard.InsertByCountSorted | backend.py:264 | inserting into a non-increasing list keeps it non-increasing |
| Leaderboard.InsertByCountStable | backend.py:264 | inserting puts the entry ahead of the entries with its count |
| Leaderboard.RankPermutes | backend.py:264 | `sorted` by count is a permutation of the entries |
| Leaderboard.RankSorted | backend.py:264 | `sorted(..., reverse=True)` gives non-increasing counts |
| Leaderboard.RankStable | backend.py:264 | entries with equal counts keep their order, as Python's stable sort does |
| Leaderboard.Top | backend.py:264 | the top list has min(10, number of users) entries |
| Leaderboard.TopIsBest | backend.py:264 | the top list has at most 10 entries, non-increasing counts, taken from the counter, and leaves out a user only when full and that user counts no more than any listed one |
| Leaderboard.CountOf | backend.py:275 | defines reading a count, 0 for a missing id |
| Leaderboard.Increment | backend.py:283 | defines `user_clicks[uid] += 1` on the dictionary; IncrementCounts states its effect |
| Leaderboard.IncrementCounts | backend.py:283 | a click adds exactly 1 to its user's count and leaves all other counts unchanged |
| Leaderboard.Rows | backend.py:265-271 | one row per top entry with its id and count; only the caller's row carries the name |
| Leaderboard.ClickBoard.constructor | backend.py:36 | the counter starts empty |
| Leaderboard.ClickBoard.DoClick | backend.py:279-284 | with a valid user id the caller's count rises by one and that count is returned; otherwise the error and no change |
| Leaderboard.TopRows | backend.py:265-271 | the loop builds exactly one row per top entry, in order, naming only the caller's row |
| Leaderboard.ClickBoard.AddClick | backend.py:283-284 | `+= 1` stores the old count plus one under the user, keeps keys distinct and answers the new count |
| Leaderboard.ClickBoard.ReadCount | backend.py:275 | reading the `defaultdict` answers the count (0 when absent) and appends the user with 0 only when absent |
| Leaderboard.ClickBoard.GetState | backend.py:253-277 | errors change nothing; otherwise the caller's id, count and the top-10 rows, with the name only on the caller's row, after which an unknown caller is added with 0 |
| ShopBot.Key | main.py:40 | defines `str(user_id)`, the dictionary key of a user; KeyNormalisation states what it merges and separates |
| ShopBot.ItemOf | main.py:168 | defines `call.data.split('_')[1]` for a "buy_" button |
| ShopBot.Purchase | main.py:172-188 | defines the purchase rule on one record; PurchaseKeepsValid and PurchaseEffect state what it does |
| ShopBot.KeyNormalisation | main.py:40 | a numeric id and its text reach the same record; two different numbers never share one |
| ShopBot.PurchaseKeepsValid | main.py:172-188 | a purchase never makes clicks negative and keeps click power ≥ 1 |
| ShopBot.PurchaseEffect | main.py:172-188 | a record changes iff the item is "power" with ≥ 50 clicks or "auto" with ≥ 200; then exactly the price is taken and exactly one unit added |
| ShopBot.ClickerBot.constructor | main.py:22-28 | the bot starts from the loaded dictionary |
| ShopBot.ClickerBot.GetUserData | main.py:39-49 | creates {0, 1, 1, 0} only for an absent id; an existing record is returned unchanged |
| ShopBot.ClickerBot.BuyItem | main.py:167-188 | only the caller's record changes, by the purchase rule; a refused or unknown item changes nothing |
| ShopBot.ClickerBot.CallbackQuery | main.py:72-111 | every button first creates the caller's {0, 1, 1, 0} record when it is absent; then a "click" adds exactly the click power to the caller's clicks, "buy_" buttons apply the purchase, and other buttons change nothing more; no other user's record changes |

## Left out

- Presentation in public/main.js is not modelled:
  - `initElements`, `updateDisplay`, `renderUpgrades`, `renderAchievements`, `showNotification`, `showAchievement`, `createClickAnimation`, `showLevelUpMessage`, and the upgrade names, icons and descriptions.
  - Sounds, CSS classes and timers.
  - The progress percentage at public/main.js:473 is a float for display only.
  - The level-up messages are returned with their delays instead of being scheduled.
- `initTelegram` and `updateUserInfo` are not modelled: they read `window.Telegram` and `Math.random`. The identity they find is a parameter of the `ClickerGame` constructor.
- Network calls are values:
  - `loadGame` receives the server's already-parsed answer (`None` when the request failed).
  - `saveGame` returns the snapshot it would POST. The server's success answer and the notifications are not modelled.
- Progression.Scale15: the source computes `Math.pow(1.5, k)` in doubles; the model uses the exact value `floor(c * 3^k / 2^k)`.
  - The product `c * 1.5^k` is exact in a double only while the odd part of `c` times 3^k stays below 2^53: up to k = 31 for the level curve (c = 10) and up to k = 27 for the dearest upgrade (c = 10000).
  - Above that, the source's product may be rounded. Where the rounding crosses an integer, its floor differs from the model's.
  - That rounding is not modelled.
- JavaScript numbers are unbounded integers here. Overflow past 2^53 is not modelled.
- Game.ClickerGame.BuyUpgrade: the click power is promised not to fall only when the bought upgrade's multiplier is not negative. The shipped table has only positive multipliers, but a table loaded from a saved profile can carry any, and buying an upgrade with a negative multiplier lowers the power.
- Game.ClickerGame.BuyAt: the same condition on the multiplier applies to its click-power promise.
- Game.ClickerGame.BuyUpgrade: a key naming an `Object.prototype` property (such as `toString`) is treated like any unknown key. In the source it yields a NaN price and takes the "not enough coins" branch.
- Game.ClickerGame.LoadGame:
  - A saved key naming an `Object.prototype` property is ignored. In the source it would add an entry to the table.
  - Saved upgrade entries and achievement lists are taken in the shape the game writes them.
- database.js, server.js, app.py and bot.py are not part of this model: storage, the HTTP server and a second bot.
- main.py:
  - `send_welcome`, `show_shop` and `show_stats` only display text and are not modelled.
  - The bot's replies are reduced to the `ShopReply` that `BuyItem` returns.
  - `save_data` and `load_data` (file I/O) are not modelled; the constructor takes the loaded dictionary.
  - The Flask and webhook wiring is not modelled.
- `auto_clicker_worker` (main.py:194-200) is left out. It is a background thread that runs concurrently with the handlers.
- ShopBot.ClickerBot: records loaded from the file are assumed to have all four fields. A record lacking one raises `KeyError` in the source.
- backend.py wiring is not modelled: `on_start`, the webhook endpoint, the startup and shutdown hooks, `INDEX_HTML`, the health check and the `BOT_TOKEN` start-up check.
- `parse_qsl`, `json.loads`, UTF-8 encoding and HMAC-SHA256 are library code. They are the uninterpreted functions of `Env`, and nothing is proved about them.
- `parseJson` is uninterpreted, so it may return an object with a repeated key, which `json.loads` never does. `Get` would read the first such entry where Python keeps the last. No lemma relies on objects from `parseJson` having distinct keys.
- JSON numbers with a fraction are not modelled (`Json` has no float case), and neither is `int()` truncating them.
- Decimal.ParseInt yields `None` for text that Python's `int()` also accepts: surrounding whitespace, `_` between digits, and non-ASCII digits.
- The reasons attached to `ServerFault` paraphrase Python's exception messages.
- The handlers run one at a time. The asyncio interleaving of concurrent requests, and the timing of the hash comparison, are not modelled.
