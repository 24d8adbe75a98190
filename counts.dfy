/** Count maps: the `key -> count` dictionaries the observers keep (edge `paths_count`
    in observers/graph.py, `paths_count` in observers/path.py). A count map whose counts
    are all at least 1 is a finite multiset; a missing key reads as count 0. */
module Counts {

  function Get<K>(m: map<K, int>, k: K): int {
    if k in m then m[k] else 0
  }

  /** The invariant every observer keeps: no stored count is below 1. */
  predicate Positive<K>(m: map<K, int>) {
    forall k | k in m :: m[k] >= 1
  }

  /** One increment; a missing key is created with count 1. */
  function Inc<K>(m: map<K, int>, k: K): map<K, int> {
    m[k := Get(m, k) + 1]
  }

  /** One decrement; a missing key is ignored and a key whose count reaches 0 is deleted. */
  function Dec<K>(m: map<K, int>, k: K): map<K, int> {
    if k !in m then m
    else if m[k] - 1 == 0 then m - {k}
    else m[k := m[k] - 1]
  }

  /** The increments of `ks`, applied in order. */
  function IncAll<K>(m: map<K, int>, ks: seq<K>): map<K, int>
    decreases |ks|
  {
    if |ks| == 0 then m else Inc(IncAll(m, ks[..|ks| - 1]), ks[|ks| - 1])
  }

  /** The decrements of `ks`, applied in order. */
  function DecAll<K>(m: map<K, int>, ks: seq<K>): map<K, int>
    decreases |ks|
  {
    if |ks| == 0 then m else Dec(DecAll(m, ks[..|ks| - 1]), ks[|ks| - 1])
  }

  /** Two positive count maps that agree on every count are equal. */
  lemma PositiveExtensional<K>(a: map<K, int>, b: map<K, int>)
    requires Positive(a) && Positive(b)
    requires forall k :: Get(a, k) == Get(b, k)
    ensures a == b
  {
    assert forall k :: k in a <==> Get(a, k) >= 1;
    assert forall k :: k in b <==> Get(b, k) >= 1;
    assert a.Keys == b.Keys;
  }

  /** Adding a sequence of keys adds, for every key, its number of occurrences. */
  lemma {:induction false} IncAllCount<K>(m: map<K, int>, ks: seq<K>, k: K)
    ensures Get(IncAll(m, ks), k) == Get(m, k) + multiset(ks)[k]
    decreases |ks|
  {
    if |ks| > 0 {
      IncAllCount(m, ks[..|ks| - 1], k);
      assert ks == ks[..|ks| - 1] + [ks[|ks| - 1]];
    }
  }

  lemma {:induction false} IncAllPositive<K>(m: map<K, int>, ks: seq<K>)
    requires Positive(m)
    ensures Positive(IncAll(m, ks))
    decreases |ks|
  {
    if |ks| > 0 {
      IncAllPositive(m, ks[..|ks| - 1]);
    }
  }

  lemma {:induction false} DecAllPositive<K>(m: map<K, int>, ks: seq<K>)
    requires Positive(m)
    ensures Positive(DecAll(m, ks))
    decreases |ks|
  {
    if |ks| > 0 {
      DecAllPositive(m, ks[..|ks| - 1]);
    }
  }

  /** Removing keys that are all present often enough subtracts their occurrences. */
  lemma {:induction false} DecAllCount<K>(m: map<K, int>, ks: seq<K>)
    requires Positive(m)
    requires forall k :: multiset(ks)[k] <= Get(m, k)
    ensures forall k :: Get(DecAll(m, ks), k) == Get(m, k) - multiset(ks)[k]
    decreases |ks|
  {
    if |ks| > 0 {
      var init, last := ks[..|ks| - 1], ks[|ks| - 1];
      assert ks == init + [last];
      assert forall k :: multiset(ks)[k] == multiset(init)[k] + (if k == last then 1 else 0);
      DecAllCount(m, init);
      DecAllPositive(m, init);
    }
  }

  /** Adding the keys of a sequence and then removing them restores a positive count map. */
  lemma IncThenDecAll<K>(m: map<K, int>, ks: seq<K>)
    requires Positive(m)
    ensures DecAll(IncAll(m, ks), ks) == m
  {
    var h := IncAll(m, ks);
    forall k ensures Get(h, k) == Get(m, k) + multiset(ks)[k] {
      IncAllCount(m, ks, k);
    }
    IncAllPositive(m, ks);
    DecAllCount(h, ks);
    DecAllPositive(h, ks);
    PositiveExtensional(DecAll(h, ks), m);
  }

  /** A single increment followed by a single decrement of the same key restores the map. */
  lemma IncThenDec<K>(m: map<K, int>, k: K)
    requires Positive(m)
    ensures Dec(Inc(m, k), k) == m
  {
    assert Get(Inc(m, k), k) == Get(m, k) + 1;
    PositiveExtensional(Dec(Inc(m, k), k), m);
  }

  /** Keys absent from `ks` keep their count through the increments and the decrements. */
  lemma {:induction false} UntouchedKeys<K>(m: map<K, int>, ks: seq<K>, k: K)
    requires k !in ks
    ensures Get(IncAll(m, ks), k) == Get(m, k)
    ensures Get(DecAll(m, ks), k) == Get(m, k)
    decreases |ks|
  {
    if |ks| > 0 {
      UntouchedKeys(m, ks[..|ks| - 1], k);
      assert ks[|ks| - 1] in ks;
    }
  }

  /** The sum of all counts of a map. */
  ghost function Total<K>(m: map<K, int>): int
    decreases |m|
  {
    if |m| == 0 then 0 else var k :| k in m; m[k] + Total(m - {k})
  }

  /** `Total` does not depend on the key it takes out first. */
  lemma {:induction false} TotalRemove<K>(m: map<K, int>, k: K)
    requires k in m
    ensures Total(m) == m[k] + Total(m - {k})
    decreases |m|, 1
  {
    var j :| j in m && Total(m) == m[j] + Total(m - {j});
    if j != k {
      TotalSwap(m, j, k);
    }
  }

  lemma {:induction false} TotalSwap<K>(m: map<K, int>, j: K, k: K)
    requires j in m && k in m && j != k
    ensures m[j] + Total(m - {j}) == m[k] + Total(m - {k})
    decreases |m|, 0
  {
    var rest := m - {j} - {k};
    assert rest == m - {k} - {j};
    assert |m - {j}| < |m| && |m - {k}| < |m|;
    TotalRemove(m - {j}, k);
    TotalRemove(m - {k}, j);
  }

  /** One increment raises the total by one. */
  lemma TotalInc<K>(m: map<K, int>, k: K)
    ensures Total(Inc(m, k)) == Total(m) + 1
  {
    var m' := Inc(m, k);
    TotalRemove(m', k);
    if k in m {
      TotalRemove(m, k);
      assert m' - {k} == m - {k};
    } else {
      assert m' - {k} == m;
    }
  }
}
