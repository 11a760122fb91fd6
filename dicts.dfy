/**
 * Python dictionaries as the model sees them: a sequence of entries in
 * insertion order, each key at most once. Iterating a dict, as
 * `verify_init_data` and `get_state` do, visits the entries in this order.
 */
module Dicts {
  import opened Wrappers

  type Dict<K, V> = seq<(K, V)>

  predicate DistinctKeys<K(==), V>(d: Dict<K, V>)
  {
    forall i, j :: 0 <= i < j < |d| ==> d[i].0 != d[j].0
  }

  predicate HasKey<K(==), V>(d: Dict<K, V>, k: K)
  {
    exists i :: 0 <= i < |d| && d[i].0 == k
  }

  /** The keys in insertion order: `list(d.keys())`. */
  function KeysOf<K, V>(d: Dict<K, V>): (ks: seq<K>)
    ensures |ks| == |d|
  {
    seq(|d|, i requires 0 <= i < |d| => d[i].0)
  }

  /** `d.get(k)`: the value stored under `k`, or `None`. */
  function Get<K(==), V>(d: Dict<K, V>, k: K): (r: Option<V>)
    ensures r.None? <==> !HasKey(d, k)
    ensures r.Some? ==> exists i :: 0 <= i < |d| && d[i] == (k, r.value)
  {
    if |d| == 0 then None
    else if d[0].0 == k then Some(d[0].1)
    else
      var r := Get(d[1..], k);
      assert forall i :: 1 <= i < |d| ==> d[i] == d[1..][i - 1];
      r
  }

  /** `d[k] = v`: overwrites the value in place when `k` is present, appends a new entry otherwise. */
  function Put<K(==), V>(d: Dict<K, V>, k: K, v: V): Dict<K, V>
  {
    if |d| == 0 then [(k, v)]
    else if d[0].0 == k then [(k, v)] + d[1..]
    else [d[0]] + Put(d[1..], k, v)
  }

  /** Removes the entry for `k`, as `d.pop(k, None)` does. */
  function Remove<K(==), V>(d: Dict<K, V>, k: K): Dict<K, V>
  {
    if |d| == 0 then []
    else if d[0].0 == k then Remove(d[1..], k)
    else [d[0]] + Remove(d[1..], k)
  }

  /** After `d[k] = v`, `k` reads `v` and every other key reads what it read before. */
  lemma {:induction false} GetPut<K, V>(d: Dict<K, V>, k: K, v: V, k': K)
    ensures Get(Put(d, k, v), k') == if k' == k then Some(v) else Get(d, k')
  {
    if |d| > 0 && d[0].0 != k {
      GetPut(d[1..], k, v, k');
      assert Put(d, k, v)[1..] == Put(d[1..], k, v);
    }
  }

  /** `d[k] = v` keeps an existing key at its position and appends a new one at the end. */
  lemma {:induction false} PutKeys<K, V>(d: Dict<K, V>, k: K, v: V)
    ensures KeysOf(Put(d, k, v)) == if HasKey(d, k) then KeysOf(d) else KeysOf(d) + [k]
  {
    if |d| > 0 && d[0].0 != k {
      PutKeys(d[1..], k, v);
      assert HasKey(d, k) <==> HasKey(d[1..], k) by {
        if HasKey(d, k) {
          var i :| 0 <= i < |d| && d[i].0 == k;
          assert d[1..][i - 1].0 == k;
        }
        if HasKey(d[1..], k) {
          var i :| 0 <= i < |d[1..]| && d[1..][i].0 == k;
          assert d[i + 1].0 == k;
        }
      }
      assert KeysOf(d) == [d[0].0] + KeysOf(d[1..]);
      assert KeysOf(Put(d, k, v)) == [d[0].0] + KeysOf(Put(d[1..], k, v));
    } else if |d| > 0 {
      assert HasKey(d, k) by { assert d[0].0 == k; }
      assert KeysOf(Put(d, k, v)) == KeysOf(d);
    }
  }

  lemma PutDistinct<K, V>(d: Dict<K, V>, k: K, v: V)
    requires DistinctKeys(d)
    ensures DistinctKeys(Put(d, k, v))
  {
    var d' := Put(d, k, v);
    PutKeys(d, k, v);
    forall i, j | 0 <= i < j < |d'| ensures d'[i].0 != d'[j].0 {
      assert KeysOf(d')[i] == d'[i].0 && KeysOf(d')[j] == d'[j].0;
      if j < |d| {
        assert KeysOf(d)[i] == d[i].0 && KeysOf(d)[j] == d[j].0;
      } else {
        assert !HasKey(d, k) && d'[j].0 == k;
        assert KeysOf(d)[i] == d[i].0;
      }
    }
  }

  /** After removing `k`, `k` is absent and every other key reads what it read before. */
  lemma {:induction false} GetRemove<K, V>(d: Dict<K, V>, k: K, k': K)
    ensures Get(Remove(d, k), k') == if k' == k then None else Get(d, k')
  {
    if |d| > 0 {
      GetRemove(d[1..], k, k');
    }
  }

  /** Removing a key keeps only entries that were there, none under that key. */
  lemma {:induction false} RemoveSubsequence<K, V>(d: Dict<K, V>, k: K)
    ensures |Remove(d, k)| <= |d|
    ensures forall e :: e in Remove(d, k) ==> e in d && e.0 != k
  {
    if |d| > 0 {
      RemoveSubsequence(d[1..], k);
    }
  }

  /** Every entry under another key survives the removal. */
  lemma {:induction false} RemoveKeepsOthers<K, V>(d: Dict<K, V>, k: K)
    ensures forall e :: e in d && e.0 != k ==> e in Remove(d, k)
  {
    if |d| > 0 {
      RemoveKeepsOthers(d[1..], k);
      assert d == [d[0]] + d[1..];
    }
  }

  /** Removing a key keeps the remaining entries in their order: it works piece by piece on a concatenation. */
  lemma {:induction false} RemoveConcat<K, V>(d: Dict<K, V>, e: Dict<K, V>, k: K)
    ensures Remove(d + e, k) == Remove(d, k) + Remove(e, k)
  {
    if |d| > 0 {
      RemoveConcat(d[1..], e, k);
      assert (d + e)[1..] == d[1..] + e;
    } else {
      assert d + e == e;
    }
  }

  lemma {:induction false} RemoveDistinct<K, V>(d: Dict<K, V>, k: K)
    requires DistinctKeys(d)
    ensures DistinctKeys(Remove(d, k))
  {
    if |d| > 0 {
      var t := d[1..];
      assert DistinctKeys(t) by {
        forall i, j | 0 <= i < j < |t| ensures t[i].0 != t[j].0 {
          assert t[i] == d[i + 1] && t[j] == d[j + 1];
        }
      }
      RemoveDistinct(t, k);
      RemoveSubsequence(t, k);
      if d[0].0 != k {
        var r := Remove(t, k);
        forall e | e in r ensures e.0 != d[0].0 {
          assert e in t;
          var m :| 0 <= m < |t| && t[m] == e;
          assert d[m + 1] == e;
        }
        var full := [d[0]] + r;
        forall i, j | 0 <= i < j < |full| ensures full[i].0 != full[j].0 {
          if i == 0 {
            assert full[j] == r[j - 1] && full[j] in r;
          } else {
            assert full[i] == r[i - 1] && full[j] == r[j - 1];
          }
        }
      }
    }
  }

  lemma {:induction false} KeysOfHasKey<K, V>(d: Dict<K, V>, k: K)
    ensures k in KeysOf(d) <==> HasKey(d, k)
  {
    if k in KeysOf(d) {
      var i :| 0 <= i < |d| && KeysOf(d)[i] == k;
      assert d[i].0 == k;
    }
    if HasKey(d, k) {
      var i :| 0 <= i < |d| && d[i].0 == k;
      assert KeysOf(d)[i] == k;
    }
  }

  /** Assigning a key the dict does not hold appends one entry at the end. */
  lemma {:induction false} PutNew<K, V>(d: Dict<K, V>, k: K, v: V)
    requires !HasKey(d, k)
    ensures Put(d, k, v) == d + [(k, v)]
  {
    if |d| > 0 {
      assert d[0].0 != k;
      PutNew(d[1..], k, v);
      assert d == [d[0]] + d[1..];
    }
  }

  /** A lookup in `d + [(k, v)]` finds an existing key first, and `k` otherwise. */
  lemma {:induction false} GetAppend<K, V>(d: Dict<K, V>, k: K, v: V, k': K)
    ensures Get(d + [(k, v)], k') == if HasKey(d, k') then Get(d, k') else if k' == k then Some(v) else None
  {
    if |d| > 0 {
      var e := d + [(k, v)];
      assert e[1..] == d[1..] + [(k, v)];
      GetAppend(d[1..], k, v, k');
      assert HasKey(d, k') <==> d[0].0 == k' || HasKey(d[1..], k') by {
        if HasKey(d, k') && d[0].0 != k' {
          var i :| 0 <= i < |d| && d[i].0 == k';
          assert d[1..][i - 1].0 == k';
        }
        if HasKey(d[1..], k') {
          var i :| 0 <= i < |d[1..]| && d[1..][i].0 == k';
          assert d[i + 1].0 == k';
        }
      }
    }
  }

  /** `dict(pairs)`: one entry per distinct key, at its first position, holding its last value. */
  function FromPairs<K(==), V>(pairs: seq<(K, V)>): Dict<K, V>
  {
    if |pairs| == 0 then []
    else
      var last := pairs[|pairs| - 1];
      Put(FromPairs(pairs[..|pairs| - 1]), last.0, last.1)
  }

  /** The value of the last pair whose key is `k`. */
  function LastValue<K(==), V>(pairs: seq<(K, V)>, k: K): Option<V>
  {
    if |pairs| == 0 then None
    else if pairs[|pairs| - 1].0 == k then Some(pairs[|pairs| - 1].1)
    else LastValue(pairs[..|pairs| - 1], k)
  }

  /** In `dict(pairs)` a repeated key keeps the value of its last occurrence. */
  lemma {:induction false} FromPairsLastWins<K, V>(pairs: seq<(K, V)>, k: K)
    ensures Get(FromPairs(pairs), k) == LastValue(pairs, k)
  {
    if |pairs| > 0 {
      var last := pairs[|pairs| - 1];
      FromPairsLastWins(pairs[..|pairs| - 1], k);
      GetPut(FromPairs(pairs[..|pairs| - 1]), last.0, last.1, k);
    }
  }

  lemma {:induction false} FromPairsDistinct<K, V>(pairs: seq<(K, V)>)
    ensures DistinctKeys(FromPairs(pairs))
  {
    if |pairs| > 0 {
      var last := pairs[|pairs| - 1];
      FromPairsDistinct(pairs[..|pairs| - 1]);
      PutDistinct(FromPairs(pairs[..|pairs| - 1]), last.0, last.1);
    }
  }
}
