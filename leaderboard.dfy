/**
 * The click counter of the Mini App backend (backend.py): an in-memory
 * dictionary from user id to count, in which a missing id reads as 0 and
 * reading it inserts it (a `defaultdict(int)`), and the top-10 table that
 * `/api/state` returns.
 */
module Leaderboard {
  import opened Wrappers
  import opened Dicts
  import opened InitData

  /** A user id and that user's click count. */
  type Entry = (int, nat)

  /** Every count is at least every later one. */
  predicate NonIncreasing(s: seq<Entry>)
  {
    forall i, j :: 0 <= i < j < |s| ==> s[i].1 >= s[j].1
  }

  /** Inserts `x` into a non-increasing sequence ahead of the first entry it does not count below. */
  function InsertByCount(x: Entry, s: seq<Entry>): (r: seq<Entry>)
    ensures |r| == |s| + 1
  {
    if |s| == 0 || x.1 >= s[0].1 then [x] + s
    else [s[0]] + InsertByCount(x, s[1..])
  }

  /** `sorted(entries, key=count, reverse=True)`: highest counts first, ties kept in their order. */
  function Rank(s: seq<Entry>): (r: seq<Entry>)
    ensures |r| == |s|
  {
    if |s| == 0 then [] else InsertByCount(s[0], Rank(s[1..]))
  }

  /** The entries with count `c`, in order. */
  function WithCount(s: seq<Entry>, c: nat): seq<Entry>
  {
    if |s| == 0 then []
    else (if s[0].1 == c then [s[0]] else []) + WithCount(s[1..], c)
  }

  lemma {:induction false} InsertByCountPermutes(x: Entry, s: seq<Entry>)
    ensures multiset(InsertByCount(x, s)) == multiset(s) + multiset{x}
  {
    if |s| > 0 && x.1 < s[0].1 {
      InsertByCountPermutes(x, s[1..]);
      assert s == [s[0]] + s[1..];
    }
  }

  /** The tail of a non-increasing sequence is non-increasing, and its head counts at least every entry of the tail. */
  lemma NonIncreasingTail(s: seq<Entry>)
    requires |s| > 0 && NonIncreasing(s)
    ensures NonIncreasing(s[1..])
    ensures forall k :: 0 <= k < |s[1..]| ==> s[0].1 >= s[1..][k].1
  {
    var t := s[1..];
    forall i, j | 0 <= i < j < |t| ensures t[i].1 >= t[j].1 {
      assert t[i] == s[i + 1] && t[j] == s[j + 1];
    }
    forall k | 0 <= k < |t| ensures s[0].1 >= t[k].1 {
      assert t[k] == s[k + 1];
    }
  }

  lemma NonIncreasingCons(a: Entry, t: seq<Entry>)
    requires NonIncreasing(t)
    requires forall k :: 0 <= k < |t| ==> a.1 >= t[k].1
    ensures NonIncreasing([a] + t)
  {
    var full := [a] + t;
    forall i, j | 0 <= i < j < |full| ensures full[i].1 >= full[j].1 {
      assert full[j] == t[j - 1];
      if i > 0 {
        assert full[i] == t[i - 1];
      }
    }
  }

  /** Inserting keeps every count under a bound that `x` and all of `s` are under. */
  lemma {:induction false} InsertByCountBounded(x: Entry, s: seq<Entry>, b: nat)
    requires x.1 <= b
    requires forall k :: 0 <= k < |s| ==> s[k].1 <= b
    ensures forall k :: 0 <= k < |InsertByCount(x, s)| ==> InsertByCount(x, s)[k].1 <= b
  {
    var r := InsertByCount(x, s);
    if |s| > 0 && x.1 < s[0].1 {
      var t := s[1..];
      forall k | 0 <= k < |t| ensures t[k].1 <= b {
        assert t[k] == s[k + 1];
      }
      InsertByCountBounded(x, t, b);
      forall k | 0 <= k < |r| ensures r[k].1 <= b {
        if k > 0 {
          assert r[k] == InsertByCount(x, t)[k - 1];
        }
      }
    } else {
      forall k | 0 <= k < |r| ensures r[k].1 <= b {
        if k > 0 {
          assert r[k] == s[k - 1];
        }
      }
    }
  }

  lemma {:induction false} InsertByCountSorted(x: Entry, s: seq<Entry>)
    requires NonIncreasing(s)
    ensures NonIncreasing(InsertByCount(x, s))
  {
    if |s| == 0 || x.1 >= s[0].1 {
      forall k | 0 <= k < |s| ensures x.1 >= s[k].1 {
        if k > 0 {
          assert s[0].1 >= s[k].1;
        }
      }
      NonIncreasingCons(x, s);
    } else {
      var t := s[1..];
      NonIncreasingTail(s);
      InsertByCountSorted(x, t);
      InsertByCountBounded(x, t, s[0].1);
      NonIncreasingCons(s[0], InsertByCount(x, t));
    }
  }

  /** Ranking reorders the entries and nothing more. */
  lemma {:induction false} RankPermutes(s: seq<Entry>)
    ensures multiset(Rank(s)) == multiset(s)
  {
    if |s| > 0 {
      RankPermutes(s[1..]);
      InsertByCountPermutes(s[0], Rank(s[1..]));
      assert s == [s[0]] + s[1..];
    }
  }

  /** Ranking puts the highest counts first. */
  lemma {:induction false} RankSorted(s: seq<Entry>)
    ensures NonIncreasing(Rank(s))
  {
    if |s| > 0 {
      RankSorted(s[1..]);
      InsertByCountSorted(s[0], Rank(s[1..]));
    }
  }

  lemma {:induction false} InsertByCountStable(x: Entry, s: seq<Entry>, c: nat)
    requires NonIncreasing(s)
    ensures WithCount(InsertByCount(x, s), c) == (if x.1 == c then [x] else []) + WithCount(s, c)
  {
    if |s| > 0 && x.1 < s[0].1 {
      var t := s[1..];
      assert NonIncreasing(t) by {
        forall i, j | 0 <= i < j < |t| ensures t[i].1 >= t[j].1 {
          assert t[i] == s[i + 1] && t[j] == s[j + 1];
        }
      }
      InsertByCountStable(x, t, c);
      WithCountCons(s[0], InsertByCount(x, t), c);
      WithCountCons(s[0], t, c);
      assert s == [s[0]] + t;
    } else {
      WithCountCons(x, s, c);
    }
  }

  lemma WithCountCons(a: Entry, s: seq<Entry>, c: nat)
    ensures WithCount([a] + s, c) == (if a.1 == c then [a] else []) + WithCount(s, c)
  {
    assert ([a] + s)[1..] == s;
  }

  /** Entries with equal counts keep their relative order: the sort is stable, as Python's is. */
  lemma {:induction false} RankStable(s: seq<Entry>, c: nat)
    ensures WithCount(Rank(s), c) == WithCount(s, c)
  {
    if |s| > 0 {
      RankStable(s[1..], c);
      RankSorted(s[1..]);
      InsertByCountStable(s[0], Rank(s[1..]), c);
    }
  }

  const TopSize: nat := 10

  /** `sorted(...)[:10]`. */
  function Top(s: seq<Entry>): (top: seq<Entry>)
    ensures |top| == if |s| < TopSize then |s| else TopSize
  {
    Rank(s)[..if |s| < TopSize then |s| else TopSize]
  }

  /**
   * The top list is sorted by count, takes its entries from `s`, and leaves
   * out an entry only when it is full and the entry counts no more than any
   * entry in it.
   */
  lemma TopIsBest(s: seq<Entry>)
    ensures |Top(s)| <= TopSize
    ensures NonIncreasing(Top(s))
    ensures multiset(Top(s)) <= multiset(s)
    ensures forall e :: e in s && e !in Top(s) ==>
      |Top(s)| == TopSize && forall t :: t in Top(s) ==> t.1 >= e.1
  {
    var r := Rank(s);
    var n := |Top(s)|;
    RankPermutes(s);
    RankSorted(s);
    PrefixSorted(r, n);
    PrefixSubmultiset(r, n);
    forall e | e in s && e !in Top(s)
      ensures |Top(s)| == TopSize && forall t :: t in Top(s) ==> t.1 >= e.1
    {
      assert e in multiset(r);
      PrefixBeatsRest(r, n, e);
    }
  }

  lemma PrefixSorted(r: seq<Entry>, n: nat)
    requires n <= |r| && NonIncreasing(r)
    ensures NonIncreasing(r[..n])
  {
    forall i, j | 0 <= i < j < n ensures r[..n][i].1 >= r[..n][j].1 {
      assert r[..n][i] == r[i] && r[..n][j] == r[j];
    }
  }

  lemma PrefixSubmultiset(r: seq<Entry>, n: nat)
    requires n <= |r|
    ensures multiset(r[..n]) <= multiset(r)
  {
    assert r == r[..n] + r[n..];
  }

  /** An entry of a sorted sequence outside its first `n` counts no more than any of them. */
  lemma PrefixBeatsRest(r: seq<Entry>, n: nat, e: Entry)
    requires n <= |r| && NonIncreasing(r)
    requires e in r && e !in r[..n]
    ensures n < |r|
    ensures forall t :: t in r[..n] ==> t.1 >= e.1
  {
    forall j | 0 <= j < n ensures r[j] != e {
      assert r[..n][j] == r[j];
    }
    forall t | t in r[..n] ensures t.1 >= e.1 {
      var j :| 0 <= j < n && r[..n][j] == t;
      assert r[j] == t;
    }
  }

  /** `user_clicks[user_id]` read as a value: a missing id counts 0. */
  function CountOf(d: Dict<int, nat>, uid: int): nat
  {
    match Get(d, uid)
    case Some(c) => c
    case None => 0
  }

  /** One click of `uid`: `user_clicks[uid] += 1`. */
  function Increment(d: Dict<int, nat>, uid: int): Dict<int, nat>
  {
    Put<int, nat>(d, uid, CountOf(d, uid) + 1)
  }

  /** A click adds exactly one to its user's count and leaves every other count as it was. */
  lemma IncrementCounts(d: Dict<int, nat>, uid: int, other: int)
    ensures CountOf(Increment(d, uid), other) == if other == uid then CountOf(d, uid) + 1 else CountOf(d, other)
  {
    GetPut<int, nat>(d, uid, CountOf(d, uid) + 1, other);
  }

  /** A row of the top table; `name` is `JNull` for every row but the caller's. */
  datatype Row = Row(userId: int, count: nat, name: Json)

  /** The body of an `/api/state` answer. */
  datatype State = State(userId: int, count: nat, top: seq<Row>)

  /** The rows for `top`, naming only the caller's row. */
  function Rows(top: seq<Entry>, caller: int, name: Json): (rows: seq<Row>)
    ensures |rows| == |top|
    ensures forall i :: 0 <= i < |rows| ==> rows[i].userId == top[i].0 && rows[i].count == top[i].1
    ensures forall i :: 0 <= i < |rows| && rows[i].userId != caller ==> rows[i].name == JNull
    ensures forall i :: 0 <= i < |rows| && rows[i].userId == caller ==> rows[i].name == name
  {
    seq(|top|, i requires 0 <= i < |top| => Row(top[i].0, top[i].1, if top[i].0 == caller then name else JNull))
  }

  /** One more entry of the top list gives one more row. */
  lemma RowsExtend(top: seq<Entry>, i: nat, caller: int, name: Json)
    requires i < |top|
    ensures Rows(top[..i + 1], caller, name)
      == Rows(top[..i], caller, name) + [Row(top[i].0, top[i].1, if top[i].0 == caller then name else JNull)]
  {
    var a := Rows(top[..i + 1], caller, name);
    var b := Rows(top[..i], caller, name) + [Row(top[i].0, top[i].1, if top[i].0 == caller then name else JNull)];
    assert |a| == |b|;
    forall k | 0 <= k < |a| ensures a[k] == b[k] {
      assert top[..i + 1][k] == top[k];
      if k < i {
        assert top[..i][k] == top[k];
      }
    }
  }

  /** The loop that builds the `top` rows of an `/api/state` answer. */
  method TopRows(sortedTop: seq<Entry>, caller: int, name: Json) returns (top: seq<Row>)
    ensures top == Rows(sortedTop, caller, name)
  {
    top := [];
    for i := 0 to |sortedTop|
      invariant top == Rows(sortedTop[..i], caller, name)
    {
      var (entryId, count) := sortedTop[i];
      RowsExtend(sortedTop, i, caller, name);
      top := top + [Row(entryId, count, if entryId == caller then name else JNull)];
    }
    assert sortedTop[..|sortedTop|] == sortedTop;
  }

  class ClickBoard {
    /** `user_clicks`: ids in the order they were first read or clicked. */
    var userClicks: Dict<int, nat>

    ghost predicate Valid()
      reads this
    {
      DistinctKeys(userClicks)
    }

    constructor ()
      ensures userClicks == [] && Valid()
    {
      userClicks := [];
    }

    /** `/api/click`: one more click for the authenticated caller, or the error and no change. */
    method DoClick(env: Env, initData: string) returns (r: Result<nat, Error>)
      modifies this
      ensures var id := AuthenticatedUserId(env, initData);
        if id.Err? then r == Err(id.error) && userClicks == old(userClicks)
        else userClicks == Increment(old(userClicks), id.value) && r == Ok(CountOf(old(userClicks), id.value) + 1)
      ensures old(Valid()) ==> Valid()
    {
      var id := ExtractUserId(env, initData);
      if id.Err? {
        r := Err(id.error);
        return;
      }
      ghost var before := userClicks;
      var count := AddClick(id.value);
      assert count == CountOf(before, id.value) + 1;
      r := Ok(count);
    }

    /** `user_clicks[uid] += 1`, answering the new count. */
    method AddClick(uid: int) returns (count: nat)
      modifies this
      ensures userClicks == Increment(old(userClicks), uid)
      ensures count == CountOf(old(userClicks), uid) + 1
      ensures old(Valid()) ==> Valid()
    {
      if Valid() {
        PutDistinct<int, nat>(userClicks, uid, CountOf(userClicks, uid) + 1);
      }
      IncrementCounts(userClicks, uid, uid);
      userClicks := Increment(userClicks, uid);
      count := CountOf(userClicks, uid);
    }

    /**
     * `/api/state`: the caller's count and the top ten, the caller's row
     * carrying the display name. Reading the caller's count afterwards adds
     * the caller with 0 when absent, after the top list was taken.
     */
    method GetState(env: Env, initData: string) returns (r: Result<State, Error>)
      modifies this
      ensures AuthenticatedUserId(env, initData).Err? ==>
        r == Err(AuthenticatedUserId(env, initData).error) && userClicks == old(userClicks)
      ensures AuthenticatedUserId(env, initData).Ok? ==> VerifiedData(env, initData).Ok?
      ensures AuthenticatedUserId(env, initData).Ok? && DisplayName(VerifiedData(env, initData).value).Err? ==>
        r == Err(DisplayName(VerifiedData(env, initData).value).error) && userClicks == old(userClicks)
      ensures AuthenticatedUserId(env, initData).Ok? && DisplayName(VerifiedData(env, initData).value).Ok? ==>
        var uid := AuthenticatedUserId(env, initData).value;
        var name := DisplayName(VerifiedData(env, initData).value).value;
        r == Ok(State(uid, CountOf(old(userClicks), uid), Rows(Top(old(userClicks)), uid, name)))
        && userClicks == if HasKey(old(userClicks), uid) then old(userClicks) else old(userClicks) + [(uid, 0)]
      ensures old(Valid()) ==> Valid()
    {
      var id := ExtractUserId(env, initData);
      if id.Err? {
        return Err(id.error);
      }
      var uid := id.value;
      var data := VerifyInitData(env, initData);
      var nameOrError := DisplayName(data.value);
      if nameOrError.Err? {
        return Err(nameOrError.error);
      }
      var top := TopRows(Top(userClicks), uid, nameOrError.value);
      var count := ReadCount(uid);
      r := Ok(State(uid, count, top));
    }

    /** `user_clicks[uid]` on the `defaultdict`: the count, inserting `uid` with 0 when absent. */
    method ReadCount(uid: int) returns (count: nat)
      modifies this
      ensures count == CountOf(old(userClicks), uid)
      ensures userClicks == if HasKey(old(userClicks), uid) then old(userClicks) else old(userClicks) + [(uid, 0)]
      ensures old(Valid()) ==> Valid()
    {
      count := CountOf(userClicks, uid);
      if !HasKey(userClicks, uid) {
        PutNew<int, nat>(userClicks, uid, 0);
        if Valid() {
          PutDistinct<int, nat>(userClicks, uid, 0);
        }
        userClicks := Put<int, nat>(userClicks, uid, 0);
      }
    }
  }
}
