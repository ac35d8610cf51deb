/**
 * Counting with a hash map, as the counters of this program do it: a key
 * seen for the first time gets the count 1, a key seen again gets its count
 * raised by one. Also the few facts about lists without repeats that the
 * selections need.
 */
module Counting {
  /** The count of `k`, zero when it has none. */
  function Get<K>(m: map<K, nat>, k: K): nat {
    if k in m then m[k] else 0
  }

  /** One more occurrence of `k`: the map update of the counting loop. */
  function Inc<K>(m: map<K, nat>, k: K): (r: map<K, nat>)
    ensures r.Keys == m.Keys + {k}
    ensures r[k] == Get(m, k) + 1
    ensures forall j :: j in m && j != k ==> r[j] == m[j]
  {
    m[k := Get(m, k) + 1]
  }

  /** The map after counting `xs` in order, one `Inc` per element. */
  function Tally<K>(m: map<K, nat>, xs: seq<K>): map<K, nat>
  {
    if xs == [] then m else Inc(Tally(m, xs[..|xs| - 1]), xs[|xs| - 1])
  }

  /** Each key's count rises by its number of occurrences in `xs`, and nothing else changes. */
  lemma {:induction false} TallyCount<K>(m: map<K, nat>, xs: seq<K>, k: K)
    ensures Get(Tally(m, xs), k) == Get(m, k) + multiset(xs)[k]
  {
    if xs != [] {
      var init := xs[..|xs| - 1];
      assert xs == init + [xs[|xs| - 1]];
      TallyCount(m, init, k);
    }
  }

  /** Keys are only ever added: those of `m` and the elements of `xs`. */
  lemma {:induction false} TallyKeys<K>(m: map<K, nat>, xs: seq<K>)
    ensures Tally(m, xs).Keys == m.Keys + set x | x in xs
  {
    if xs != [] {
      var init := xs[..|xs| - 1];
      assert xs == init + [xs[|xs| - 1]];
      TallyKeys(m, init);
    }
  }

  /** Counting two lists one after the other is counting their concatenation. */
  lemma {:induction false} TallyAppend<K>(m: map<K, nat>, xs: seq<K>, ys: seq<K>)
    ensures Tally(Tally(m, xs), ys) == Tally(m, xs + ys)
  {
    if ys != [] {
      var init := ys[..|ys| - 1];
      var last := ys[|ys| - 1];
      assert ys == init + [last];
      assert xs + ys == (xs + init) + [last];
      TallyAppend(m, xs, init);
      TallySnoc(Tally(m, xs), init, last);
      TallySnoc(m, xs + init, last);
    } else {
      assert xs + ys == xs;
    }
  }

  /** The sum of the counts over a set of keys. */
  ghost function Sum<K>(m: map<K, nat>, keys: set<K>): nat
    requires keys <= m.Keys
  {
    if keys == {} then 0 else var k :| k in keys; m[k] + Sum(m, keys - {k})
  }

  /** The sum of all counts. */
  ghost function Total<K>(m: map<K, nat>): nat {
    Sum(m, m.Keys)
  }

  /** The sum does not depend on the key picked first. */
  lemma SumRemove<K>(m: map<K, nat>, keys: set<K>, k: K)
    requires keys <= m.Keys && k in keys
    ensures Sum(m, keys) == m[k] + Sum(m, keys - {k})
    decreases |keys|
  {
    var k' :| k' in keys && Sum(m, keys) == m[k'] + Sum(m, keys - {k'});
    if k' != k {
      SumRemove(m, keys - {k'}, k);
      SumRemove(m, keys - {k}, k');
      assert keys - {k'} - {k} == keys - {k} - {k'};
    }
  }

  /** Two maps that agree on a set of keys have the same sum over it. */
  lemma SumAgree<K>(m1: map<K, nat>, m2: map<K, nat>, keys: set<K>)
    requires keys <= m1.Keys && keys <= m2.Keys
    requires forall k :: k in keys ==> m1[k] == m2[k]
    ensures Sum(m1, keys) == Sum(m2, keys)
    decreases |keys|
  {
    if keys != {} {
      var k :| k in keys;
      SumRemove(m1, keys, k);
      SumRemove(m2, keys, k);
      SumAgree(m1, m2, keys - {k});
    }
  }

  /** One increment raises the total by one. */
  lemma IncTotal<K>(m: map<K, nat>, k: K)
    ensures Total(Inc(m, k)) == Total(m) + 1
  {
    var r := Inc(m, k);
    SumRemove(r, r.Keys, k);
    SumAgree(m, r, m.Keys - {k});
    if k in m {
      SumRemove(m, m.Keys, k);
      assert r.Keys - {k} == m.Keys - {k};
    } else {
      assert r.Keys - {k} == m.Keys && m.Keys - {k} == m.Keys;
    }
  }

  /** Counting `xs` raises the total by `|xs|`. */
  lemma {:induction false} TallyTotal<K>(m: map<K, nat>, xs: seq<K>)
    ensures Total(Tally(m, xs)) == Total(m) + |xs|
  {
    if xs != [] {
      TallyTotal(m, xs[..|xs| - 1]);
      IncTotal(Tally(m, xs[..|xs| - 1]), xs[|xs| - 1]);
    }
  }

  /** Counting one more element is one more `Inc`. */
  lemma TallySnoc<K>(m: map<K, nat>, xs: seq<K>, x: K)
    ensures Tally(m, xs + [x]) == Inc(Tally(m, xs), x)
  {
    assert (xs + [x])[..|xs|] == xs;
  }

  /** A prefix holds no more copies of an element than the whole list. */
  lemma PrefixCountBound<T>(xs: seq<T>, j: nat, x: T)
    requires j <= |xs|
    ensures multiset(xs[..j])[x] <= multiset(xs)[x]
  {
    assert xs == xs[..j] + xs[j..];
  }

  /** A suffix holds no more copies of an element than the whole list. */
  lemma SuffixCountBound<T>(xs: seq<T>, i: nat, x: T)
    requires i <= |xs|
    ensures multiset(xs[i..])[x] <= multiset(xs)[x]
  {
    assert xs == xs[..i] + xs[i..];
  }

  /** An element found at two positions occurs at least twice. */
  lemma RepeatCountsTwice<T>(xs: seq<T>, i: nat, j: nat)
    requires i < j < |xs| && xs[i] == xs[j]
    ensures multiset(xs)[xs[i]] >= 2
  {
    assert xs == xs[..j] + [xs[j]] + xs[j + 1..];
    assert xs[i] in xs[..j] by { assert xs[..j][i] == xs[i]; }
  }

  /** In a list without repeats every element occurs once. */
  lemma {:induction false} DistinctCount<T>(xs: seq<T>, x: T)
    requires forall i, j :: 0 <= i < j < |xs| ==> xs[i] != xs[j]
    ensures multiset(xs)[x] <= 1
  {
    if xs != [] {
      var init := xs[..|xs| - 1];
      assert xs == init + [xs[|xs| - 1]];
      DistinctCount(init, x);
      if x == xs[|xs| - 1] {
        assert x !in init by {
          forall k | 0 <= k < |init| ensures init[k] != x {
            assert xs[k] != xs[|xs| - 1];
          }
        }
      }
    }
  }
}
