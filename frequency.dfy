/** The frequency maps of both processors: a java.util.HashMap from key to
    count, updated one occurrence at a time by
    `put(k, getOrDefault(k, 0) + 1)` (line mode) and overwritten by
    `put(k, count)` (bulk mode). */
module Frequency {

  type Counts = map<string, nat>

  /** HashMap.getOrDefault(k, 0). */
  function Get(m: Counts, k: string): (c: nat)
    ensures k in m ==> c == m[k]
    ensures k !in m ==> c == 0
  {
    if k in m then m[k] else 0
  }

  /** One occurrence of `k`: the key enters the map if it was missing, its
      count goes up by one, and nothing else changes. */
  function Increment(m: Counts, k: string): (r: Counts)
    ensures r.Keys == m.Keys + {k}
    ensures Get(r, k) == Get(m, k) + 1
    ensures forall j :: j != k ==> Get(r, j) == Get(m, j)
  {
    m[k := Get(m, k) + 1]
  }

  /** The map after the occurrences `keys`, in order, are folded into `m`. */
  function Tally(m: Counts, keys: seq<string>): Counts
  {
    if keys == [] then m
    else Increment(Tally(m, keys[..|keys| - 1]), keys[|keys| - 1])
  }

  /** The keys that occur in `keys`. */
  function Distinct(keys: seq<string>): set<string>
  {
    set k | k in keys
  }

  /** Every key in the map has been seen at least once. */
  ghost predicate AllPositive(m: Counts) {
    forall k :: k in m ==> m[k] >= 1
  }

  lemma TallyOne(m: Counts, keys: seq<string>, k: string)
    ensures Tally(m, keys + [k]) == Increment(Tally(m, keys), k)
  {
    assert (keys + [k])[..|keys|] == keys;
  }

  /** Folding two runs of occurrences one after the other is folding their
      concatenation: a second scan adds onto the counts of the first. */
  lemma {:induction false} TallyAppend(m: Counts, a: seq<string>, b: seq<string>)
    ensures Tally(m, a + b) == Tally(Tally(m, a), b)
    decreases |b|
  {
    if b != [] {
      var b' := b[..|b| - 1];
      var k := b[|b| - 1];
      assert a + b == (a + b') + [k];
      assert b == b' + [k];
      TallyOne(m, a + b', k);
      TallyAppend(m, a, b');
      TallyOne(Tally(m, a), b', k);
    } else {
      assert a + b == a;
    }
  }

  /** The fold, key by key: a key is in the result exactly when it was in
      `m` or occurs in `keys`, and its count grows by its number of
      occurrences. */
  lemma {:induction false} TallyCounts(m: Counts, keys: seq<string>)
    ensures Tally(m, keys).Keys == m.Keys + Distinct(keys)
    ensures forall k :: Get(Tally(m, keys), k) == Get(m, k) + multiset(keys)[k]
    decreases |keys|
  {
    if keys != [] {
      var init := keys[..|keys| - 1];
      var last := keys[|keys| - 1];
      assert keys == init + [last];
      TallyCounts(m, init);
      assert Distinct(keys) == Distinct(init) + {last};
      assert multiset(keys) == multiset(init) + multiset{last};
    }
  }

  /** The final counts do not depend on the order in which occurrences are
      folded in. */
  lemma TallyOrderIrrelevant(m: Counts, a: seq<string>, b: seq<string>)
    requires multiset(a) == multiset(b)
    ensures Tally(m, a) == Tally(m, b)
  {
    TallyCounts(m, a);
    TallyCounts(m, b);
    assert Distinct(a) == Distinct(b) by {
      forall k ensures k in a <==> k in b {
        assert k in a <==> k in multiset(a);
        assert k in b <==> k in multiset(b);
      }
    }
    var ta, tb := Tally(m, a), Tally(m, b);
    forall k | k in ta ensures ta[k] == tb[k] {
      assert Get(ta, k) == Get(tb, k);
    }
  }

  /** A key enters the map with count one and only grows. */
  lemma {:induction false} TallyPositive(m: Counts, keys: seq<string>)
    requires AllPositive(m)
    ensures AllPositive(Tally(m, keys))
    decreases |keys|
  {
    if keys != [] {
      TallyPositive(m, keys[..|keys| - 1]);
    }
  }

  /** The sum of all counts. */
  ghost function Total(m: Counts): nat
    decreases |m|
  {
    if m == map[] then 0
    else
      var k :| k in m;
      assert (m - {k}).Keys == m.Keys - {k};
      m[k] + Total(m - {k})
  }

  /** The sum does not depend on which key it starts from. */
  lemma {:induction false} TotalRemove(m: Counts, k: string)
    requires k in m
    ensures Total(m) == m[k] + Total(m - {k})
    decreases |m|
  {
    var j :| j in m && Total(m) == m[j] + Total(m - {j});
    if j != k {
      assert (m - {j}).Keys == m.Keys - {j};
      assert (m - {k}).Keys == m.Keys - {k};
      TotalRemove(m - {j}, k);
      TotalRemove(m - {k}, j);
      assert m - {j} - {k} == m - {k} - {j};
    }
  }

  /** One occurrence adds exactly one to the sum of counts. */
  lemma TotalIncrement(m: Counts, k: string)
    ensures Total(Increment(m, k)) == Total(m) + 1
  {
    var r := Increment(m, k);
    TotalRemove(r, k);
    assert r - {k} == m - {k};
    if k in m {
      TotalRemove(m, k);
    } else {
      assert m - {k} == m;
    }
  }

  /** The sum law: folding in n occurrences raises the sum of counts by n. */
  lemma {:induction false} TallyTotal(m: Counts, keys: seq<string>)
    ensures Total(Tally(m, keys)) == Total(m) + |keys|
    decreases |keys|
  {
    if keys != [] {
      TallyTotal(m, keys[..|keys| - 1]);
      TotalIncrement(Tally(m, keys[..|keys| - 1]), keys[|keys| - 1]);
    }
  }

  /** A map kept as the tally of the occurrences seen so far, after `more`
      occurrences are seen: the new counts add `more` onto the old ones, and
      the sum of counts grows by their number. */
  lemma TallyExtend(seen: seq<string>, more: seq<string>)
    ensures Tally(map[], seen + more) == Tally(Tally(map[], seen), more)
    ensures Total(Tally(map[], seen + more)) == Total(Tally(map[], seen)) + |more|
  {
    TallyAppend(map[], seen, more);
    TallyTotal(Tally(map[], seen), more);
  }

  /** There are at most as many distinct keys as occurrences. */
  lemma {:induction false} DistinctBound(keys: seq<string>)
    ensures |Distinct(keys)| <= |keys|
    decreases |keys|
  {
    if keys != [] {
      var init := keys[..|keys| - 1];
      assert keys == init + [keys[|keys| - 1]];
      assert Distinct(keys) == Distinct(init) + {keys[|keys| - 1]};
      DistinctBound(init);
    }
  }

  /** Starting from an empty map, the number of keys is the number of
      distinct occurrences, which is at most the number of occurrences. */
  lemma TallySize(keys: seq<string>)
    ensures |Tally(map[], keys)| == |Distinct(keys)| <= |keys|
  {
    TallyCounts(map[], keys);
    assert Tally(map[], keys).Keys == Distinct(keys);
    DistinctBound(keys);
  }
}
