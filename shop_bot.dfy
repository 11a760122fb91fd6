/**
 * The Telegram shop bot (main.py): an in-memory dictionary `users_data` from
 * the text of a user id to that user's record, created on first contact and
 * updated in place by the "click" button and the two shop items.
 *
 * Records are values of the map; the source hands out the stored dict and
 * mutates it, which has the same effect because no record is shared
 * between two keys. Writing the file after each change and the bot's
 * replies are not modelled; a purchase reports which reply it would send.
 */
module ShopBot {
  import opened Decimal
  import opened Text

  /** A user id as a handler receives it: Telegram's number, or text. */
  datatype UserId = IntId(n: int) | StrId(s: string)

  /** The key of `users_data`: `str(user_id)`. */
  function Key(id: UserId): string
  {
    match id
    case IntId(n) => IntToString(n)
    case StrId(s) => s
  }

  /** A number and its decimal text reach the same record; two different numbers never do. */
  lemma KeyNormalisation(n: int, m: int)
    ensures Key(IntId(n)) == Key(StrId(IntToString(n)))
    ensures Key(IntId(n)) == Key(IntId(m)) <==> n == m
  {
    if Key(IntId(n)) == Key(IntId(m)) {
      IntToStringInjective(n, m);
    }
  }

  datatype UserData = UserData(clicks: int, level: int, clickPower: int, autoClickers: int)

  /** The record `get_user_data` creates for an unknown user. */
  const NewUser: UserData := UserData(0, 1, 1, 0)

  const PowerPrice: int := 50
  const AutoClickerPrice: int := 200

  /** The answer a purchase sends back. */
  datatype ShopReply = PowerBought | AutoClickerBought | NotEnoughClicks | NoSuchItem

  /** The shape every record the bot creates keeps. */
  predicate RecordValid(u: UserData)
  {
    u.clicks >= 0 && u.clickPower >= 1 && u.autoClickers >= 0
  }

  /** `call.data.split('_')[1]` for a "buy_..." button: the text after "buy_" up to the next underscore. */
  function ItemOf(data: string): string
    requires StartsWith(data, "buy_")
  {
    assert data[3] == "buy_"[3];
    OccurrencesOfMember(data, '_');
    SplitCount(data, '_');
    Split(data, '_')[1]
  }

  /** What `buy_item` does to the caller's record. */
  function Purchase(u: UserData, item: string): UserData
  {
    if item == "power" && u.clicks >= PowerPrice then
      u.(clicks := u.clicks - PowerPrice, clickPower := u.clickPower + 1)
    else if item == "auto" && u.clicks >= AutoClickerPrice then
      u.(clicks := u.clicks - AutoClickerPrice, autoClickers := u.autoClickers + 1)
    else u
  }

  /** A purchase keeps a record valid; in particular the clicks never go negative. */
  lemma PurchaseKeepsValid(u: UserData, item: string)
    requires RecordValid(u)
    ensures RecordValid(Purchase(u, item))
  {
  }

  /**
   * A purchase changes the record exactly when the item is known and
   * affordable, and then takes exactly the price and adds exactly one unit.
   */
  lemma PurchaseEffect(u: UserData, item: string)
    ensures Purchase(u, item) != u <==>
      (item == "power" && u.clicks >= PowerPrice) || (item == "auto" && u.clicks >= AutoClickerPrice)
    ensures Purchase(u, item) != u ==>
      Purchase(u, item).level == u.level
      && (Purchase(u, item).clickPower - u.clickPower) + (Purchase(u, item).autoClickers - u.autoClickers) == 1
      && u.clicks - Purchase(u, item).clicks == (if item == "power" then PowerPrice else AutoClickerPrice)
  {
  }

  class ClickerBot {
    var users: map<string, UserData>

    ghost predicate Valid()
      reads this
    {
      forall k :: k in users ==> RecordValid(users[k])
    }

    /** The bot starts from what `load_data` read (an empty map when there is no file). */
    constructor (loaded: map<string, UserData>)
      ensures users == loaded
    {
      users := loaded;
    }

    /** `get_user_data`: the stored record, created as `NewUser` only when the key is absent. */
    method GetUserData(id: UserId) returns (data: UserData)
      modifies this
      ensures Key(id) in old(users) ==> users == old(users) && data == old(users)[Key(id)]
      ensures Key(id) !in old(users) ==> users == old(users)[Key(id) := NewUser] && data == NewUser
      ensures Key(id) in users && users[Key(id)] == data
      ensures old(Valid()) ==> Valid()
    {
      var userId := Key(id);
      if userId !in users {
        users := users[userId := NewUser];
      }
      data := users[userId];
    }

    /** `buy_item`: buys the item named in `data` for the record under `key`, or changes nothing. */
    method BuyItem(key: string, data: string) returns (reply: ShopReply)
      requires key in users && StartsWith(data, "buy_")
      modifies this
      ensures users == old(users)[key := Purchase(old(users)[key], ItemOf(data))]
      ensures reply == NotEnoughClicks || reply == NoSuchItem ==> users == old(users)
      ensures reply == (
        if ItemOf(data) == "power" then (if old(users)[key].clicks >= PowerPrice then PowerBought else NotEnoughClicks)
        else if ItemOf(data) == "auto" then (if old(users)[key].clicks >= AutoClickerPrice then AutoClickerBought else NotEnoughClicks)
        else NoSuchItem)
      ensures old(Valid()) ==> Valid()
    {
      var item := ItemOf(data);
      var userData := users[key];
      if item == "power" {
        if userData.clicks >= PowerPrice {
          users := users[key := userData.(clicks := userData.clicks - PowerPrice, clickPower := userData.clickPower + 1)];
          reply := PowerBought;
        } else {
          reply := NotEnoughClicks;
        }
      } else if item == "auto" {
        if userData.clicks >= AutoClickerPrice {
          users := users[key := userData.(clicks := userData.clicks - AutoClickerPrice, autoClickers := userData.autoClickers + 1)];
          reply := AutoClickerBought;
        } else {
          reply := NotEnoughClicks;
        }
      } else {
        reply := NoSuchItem;
      }
      assert old(users)[key := userData] == old(users);
    }

    /**
     * `callback_query`: fetches or creates the caller's record, then a
     * "click" adds the click power to the clicks, a "buy_..." button buys,
     * and every other button ("shop", "stats", ...) only shows something.
     * No other user's record changes.
     */
    method CallbackQuery(id: UserId, data: string)
      modifies this
      ensures var key := Key(id);
        var before := if key in old(users) then old(users)[key] else NewUser;
        var after :=
          if data == "click" then before.(clicks := before.clicks + before.clickPower)
          else if StartsWith(data, "buy_") then Purchase(before, ItemOf(data))
          else before;
        users == old(users)[key := after]
      ensures old(Valid()) ==> Valid()
    {
      var userData := GetUserData(id);
      var key := Key(id);
      if data == "click" {
        users := users[key := userData.(clicks := userData.clicks + userData.clickPower)];
      } else if StartsWith(data, "buy_") {
        var _ := BuyItem(key, data);
      }
      assert old(users)[key := userData] == users || data == "click" || StartsWith(data, "buy_");
    }
  }
}
