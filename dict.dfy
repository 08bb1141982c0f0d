/**
 * Python dictionaries as the scraper builds them.
 *
 * `FromPairs` is `dict(pairs)` (and a dict comprehension) where only lookups
 * matter: a later pair for a key overwrites an earlier one.
 * `Assoc` is a dictionary whose iteration order matters: a list of
 * (key, value) entries with distinct keys, in insertion order, where storing
 * to an existing key replaces its value and keeps its position.
 */
module Dict {
  import opened Wrappers

  /** `d.get(k)`: the value stored under `k`, or `None`. */
  function Lookup<K, V>(m: map<K, V>, k: K): (r: Option<V>)
    ensures r.Some? <==> k in m
    ensures r.Some? ==> r.value == m[k]
  {
    if k in m then Some(m[k]) else None
  }

  /** `dict(pairs)`: the pairs stored one after the other. */
  function FromPairs<K, V>(pairs: seq<(K, V)>): (m: map<K, V>)
    ensures pairs == [] ==> m == map[]
    ensures pairs != [] ==> pairs[|pairs| - 1].0 in m && m[pairs[|pairs| - 1].0] == pairs[|pairs| - 1].1
  {
    if |pairs| == 0 then map[]
    else
      var last := pairs[|pairs| - 1];
      FromPairs(pairs[..|pairs| - 1])[last.0 := last.1]
  }

  /** Every key of the pairs is stored, and nothing else. */
  lemma {:induction false} FromPairsKeys<K, V>(pairs: seq<(K, V)>)
    ensures FromPairs(pairs).Keys == set p | p in pairs :: p.0
  {
    if |pairs| > 0 {
      var last := pairs[|pairs| - 1];
      FromPairsKeys(pairs[..|pairs| - 1]);
      assert pairs == pairs[..|pairs| - 1] + [last];
    }
  }

  /** Adding one pair at the end overwrites (or adds) exactly that key. */
  lemma FromPairsSnoc<K, V>(pairs: seq<(K, V)>, p: (K, V))
    ensures FromPairs(pairs + [p]) == FromPairs(pairs)[p.0 := p.1]
  {
    assert (pairs + [p])[..|pairs|] == pairs;
  }

  /** Last write wins: a pair with no later pair for its key is the one a lookup sees. */
  lemma {:induction false} FromPairsLastWins<K, V>(pairs: seq<(K, V)>, j: nat)
    requires j < |pairs|
    requires forall k :: j < k < |pairs| ==> pairs[k].0 != pairs[j].0
    ensures pairs[j].0 in FromPairs(pairs)
    ensures FromPairs(pairs)[pairs[j].0] == pairs[j].1
  {
    if j < |pairs| - 1 {
      var front := pairs[..|pairs| - 1];
      forall k | j < k < |front| ensures front[k].0 != front[j].0 {
        assert front[k] == pairs[k];
      }
      FromPairsLastWins(front, j);
    }
  }

  /** Every stored value comes from some pair with that key. */
  lemma {:induction false} FromPairsValueFrom<K, V>(pairs: seq<(K, V)>, k: K)
    requires k in FromPairs(pairs)
    ensures exists j :: 0 <= j < |pairs| && pairs[j] == (k, FromPairs(pairs)[k])
  {
    var last := pairs[|pairs| - 1];
    if last.0 != k {
      var front := pairs[..|pairs| - 1];
      FromPairsValueFrom(front, k);
      var j :| 0 <= j < |front| && front[j] == (k, FromPairs(front)[k]);
      assert pairs[j] == front[j];
    } else {
      assert pairs[|pairs| - 1] == (k, FromPairs(pairs)[k]);
    }
  }

  /** Python's `zip(a, b)`: pairs by position, cut to the shorter list. */
  function Zip<A, B>(a: seq<A>, b: seq<B>): (z: seq<(A, B)>)
    ensures |z| == if |a| <= |b| then |a| else |b|
    ensures forall i :: 0 <= i < |z| ==> z[i].0 == a[i] && z[i].1 == b[i]
  {
    if |a| == 0 || |b| == 0 then [] else [(a[0], b[0])] + Zip(a[1..], b[1..])
  }

  type Assoc<K, V> = seq<(K, V)>

  /** No key occurs twice. */
  predicate DistinctKeys<K(==), V>(a: Assoc<K, V>) {
    forall i, j :: 0 <= i < j < |a| ==> a[i].0 != a[j].0
  }

  /** The keys of an ordered dictionary, in iteration order. */
  function Keys<K, V>(a: Assoc<K, V>): (ks: seq<K>)
    ensures |ks| == |a|
    ensures forall i :: 0 <= i < |a| ==> ks[i] == a[i].0
  {
    if |a| == 0 then [] else [a[0].0] + Keys(a[1..])
  }

  /** The values of an ordered dictionary, in iteration order (Python's `d.values()`). */
  function Values<K, V>(a: Assoc<K, V>): (vs: seq<V>)
    ensures |vs| == |a|
    ensures forall i :: 0 <= i < |a| ==> vs[i] == a[i].1
  {
    if |a| == 0 then [] else [a[0].1] + Values(a[1..])
  }

  /** `d.get(k)` on an ordered dictionary. */
  function Get<K(==), V>(a: Assoc<K, V>, k: K): (r: Option<V>)
    ensures r.None? <==> k !in Keys(a)
    ensures r.Some? ==> exists i :: 0 <= i < |a| && a[i] == (k, r.value)
  {
    if |a| == 0 then None
    else if a[0].0 == k then Some(a[0].1)
    else
      var r := Get(a[1..], k);
      assert r.Some? ==> exists i :: 1 <= i < |a| && a[i] == (k, r.value) by {
        if r.Some? {
          var i :| 0 <= i < |a[1..]| && a[1..][i] == (k, r.value);
          assert a[i + 1] == (k, r.value);
        }
      }
      r
  }

  /** `d[k] = v`: an existing key keeps its place and only its value changes; a new key is appended. */
  function Put<K(==), V>(a: Assoc<K, V>, k: K, v: V): (r: Assoc<K, V>)
    ensures k in Keys(a) ==> Keys(r) == Keys(a)
    ensures k !in Keys(a) ==> r == a + [(k, v)]
  {
    if |a| == 0 then [(k, v)]
    else if a[0].0 == k then [(k, v)] + a[1..]
    else
      var rest := Put(a[1..], k, v);
      assert Keys(a) == [a[0].0] + Keys(a[1..]);
      assert Keys([a[0]] + rest) == [a[0].0] + Keys(rest);
      [a[0]] + rest
  }

  /** After `d[k] = v`, `k` maps to `v` and every other key to what it mapped to before. */
  lemma {:induction false} PutGet<K, V>(a: Assoc<K, V>, k: K, v: V, k': K)
    ensures Get(Put(a, k, v), k') == if k' == k then Some(v) else Get(a, k')
  {
    if |a| > 0 && a[0].0 != k {
      PutGet(a[1..], k, v, k');
      assert Put(a, k, v)[1..] == Put(a[1..], k, v);
    }
  }

  /** Storing never creates a duplicate key. */
  lemma PutDistinct<K, V>(a: Assoc<K, V>, k: K, v: V)
    requires DistinctKeys(a)
    ensures DistinctKeys(Put(a, k, v))
  {
    var r := Put(a, k, v);
    if k in Keys(a) {
      forall i, j | 0 <= i < j < |r| ensures r[i].0 != r[j].0 {
        assert r[i].0 == Keys(r)[i] == Keys(a)[i];
      }
    }
  }

  /** `dict(pairs)` with insertion order kept. */
  function FromPairsOrdered<K(==), V>(pairs: seq<(K, V)>): (a: Assoc<K, V>)
    ensures DistinctKeys(a)
    decreases |pairs|
  {
    if |pairs| == 0 then []
    else
      var last := pairs[|pairs| - 1];
      var front := FromPairsOrdered(pairs[..|pairs| - 1]);
      PutDistinct(front, last.0, last.1);
      Put(front, last.0, last.1)
  }

  /** The ordered dictionary answers every lookup exactly as the plain map of the same pairs. */
  lemma {:induction false} OrderedAgreesWithMap<K, V>(pairs: seq<(K, V)>, k: K)
    ensures Get(FromPairsOrdered(pairs), k) == Lookup(FromPairs(pairs), k)
  {
    if |pairs| > 0 {
      var last := pairs[|pairs| - 1];
      OrderedAgreesWithMap(pairs[..|pairs| - 1], k);
      PutGet(FromPairsOrdered(pairs[..|pairs| - 1]), last.0, last.1, k);
    }
  }

  /**
   * `dict(zip(ks, vs))` in insertion order: the value stored under the
   * `j`-th key is the `j`-th value, unless a later key repeats it.
   */
  lemma ZipLookup<K, V>(ks: seq<K>, vs: seq<V>, j: nat)
    requires j < |ks| && j < |vs|
    requires forall k :: j < k < |ks| ==> ks[k] != ks[j]
    ensures Get(FromPairsOrdered(Zip(ks, vs)), ks[j]) == Some(vs[j])
  {
    var z := Zip(ks, vs);
    forall k | j < k < |z| ensures z[k].0 != z[j].0 { }
    FromPairsLastWins(z, j);
    OrderedAgreesWithMap(z, ks[j]);
  }
}
