/** Dictionaries of counters, as built by `d[k] = (d[k] || 0) + 1`. */
module Tally {

  /** `m[k] = (m[k] || 0) + 1`: one more for `k`, every other counter kept. */
  function Inc<K>(m: map<K, nat>, k: K): (r: map<K, nat>)
    ensures r.Keys == m.Keys + {k}
    ensures r[k] == (if k in m then m[k] else 0) + 1
    ensures forall j :: j in m && j != k ==> r[j] == m[j]
  {
    m[k := if k in m then m[k] + 1 else 1]
  }

  /** The sum of all counters of `m`. */
  ghost function Total<K>(m: map<K, nat>): nat
    decreases |m|
  {
    if m == map[] then 0
    else
      var k :| k in m;
      m[k] + Total(m - {k})
  }

  /** Any counter can be taken out of the sum first. */
  lemma {:induction false} TotalRemove<K>(m: map<K, nat>, k: K)
    requires k in m
    ensures Total(m) == m[k] + Total(m - {k})
    decreases |m|
  {
    var j :| j in m && Total(m) == m[j] + Total(m - {j});
    if j != k {
      assert |m - {j}| < |m| && |m - {k}| < |m|;
      TotalRemove(m - {j}, k);
      TotalRemove(m - {k}, j);
      assert (m - {j}) - {k} == (m - {k}) - {j};
    }
  }

  /** Counting one more item adds one to the sum. */
  lemma TotalInc<K>(m: map<K, nat>, k: K)
    ensures Total(Inc(m, k)) == Total(m) + 1
  {
    var r := Inc(m, k);
    TotalRemove(r, k);
    if k in m {
      TotalRemove(m, k);
      assert r - {k} == m - {k};
    } else {
      assert r - {k} == m;
    }
  }

  /** The counters built by counting `keys` one after another from an empty
      dictionary. */
  function Count<K>(keys: seq<K>): map<K, nat> {
    if keys == [] then map[]
    else Inc(Count(keys[..|keys| - 1]), keys[|keys| - 1])
  }

  /** Every key counted once: the counters add up to the number of keys. */
  lemma {:induction false} CountTotal<K>(keys: seq<K>)
    ensures Total(Count(keys)) == |keys|
  {
    if keys != [] {
      CountTotal(keys[..|keys| - 1]);
      TotalInc(Count(keys[..|keys| - 1]), keys[|keys| - 1]);
    }
  }

  /** A key has a counter exactly when it occurs, and the counter is the
      number of its occurrences. */
  lemma {:induction false} CountOccurrences<K>(keys: seq<K>, k: K)
    ensures k in Count(keys) <==> k in keys
    ensures k in Count(keys) ==> Count(keys)[k] == multiset(keys)[k]
  {
    if keys != [] {
      var init, last := keys[..|keys| - 1], keys[|keys| - 1];
      assert keys == init + [last];
      CountOccurrences(init, k);
    }
  }

  /** No counter is zero. */
  lemma CountPositive<K>(keys: seq<K>, k: K)
    requires k in Count(keys)
    ensures Count(keys)[k] >= 1
  {
    CountOccurrences(keys, k);
  }
}
