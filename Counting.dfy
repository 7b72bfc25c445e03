/** Dictionaries used as tallies: a missing key counts as zero, AddCount is
    the "add to the value at a key, inserting it first" update several days
    share, and MapSum is the total of all values. */
module Counting {

  /** The tally at k, zero when k is absent. */
  function Lookup<K>(m: map<K, int>, k: K): int
  {
    if k in m then m[k] else 0
  }

  /** Adds v to the tally at k, inserting k first when it is absent. */
  function AddCount<K(!new)>(m: map<K, int>, k: K, v: int): (r: map<K, int>)
    ensures r.Keys == m.Keys + {k}
    ensures Lookup(r, k) == Lookup(m, k) + v
  {
    m[k := Lookup(m, k) + v]
  }

  lemma LookupAddCount<K(!new)>(m: map<K, int>, k: K, v: int, j: K)
    ensures Lookup(AddCount(m, k, v), j) == Lookup(m, j) + (if j == k then v else 0)
  {
  }

  /** Two tallies with the same keys and the same counts are equal. */
  lemma TallyEquality<K(!new)>(x: map<K, int>, y: map<K, int>)
    requires forall a :: a in x <==> a in y
    requires forall a :: Lookup(x, a) == Lookup(y, a)
    ensures x == y
  {
    forall a | a in x ensures x[a] == y[a] {
      assert Lookup(x, a) == Lookup(y, a);
    }
  }

  /** Two additions at keys commute. */
  lemma AddCountCommute<K(!new)>(m: map<K, int>, j: K, v: int, k: K, w: int)
    ensures AddCount(AddCount(m, j, v), k, w) == AddCount(AddCount(m, k, w), j, v)
  {
  }

  /** A tally that is not empty has a key. */
  lemma SomeKey<K>(m: map<K, int>) returns (k: K)
    requires m != map[]
    ensures k in m
  {
    k :| k in m;
  }

  /** The sum of all values of m. */
  ghost function MapSum<K>(m: map<K, int>): int
    decreases |m.Keys|
  {
    if m == map[] then 0
    else
      var k :| k in m;
      m[k] + MapSum(m - {k})
  }

  /** MapSum may start from any key. */
  lemma {:induction false} MapSumRemove<K>(m: map<K, int>, k: K)
    requires k in m
    ensures MapSum(m) == m[k] + MapSum(m - {k})
    decreases |m.Keys|
  {
    var j :| j in m && MapSum(m) == m[j] + MapSum(m - {j});
    if j != k {
      assert (m - {j}).Keys == m.Keys - {j};
      assert (m - {k}).Keys == m.Keys - {k};
      MapSumRemove(m - {j}, k);
      MapSumRemove(m - {k}, j);
      assert (m - {j}) - {k} == (m - {k}) - {j};
    }
  }

  /** AddCount raises the sum by exactly the amount added. */
  lemma MapSumAddCount<K(!new)>(m: map<K, int>, k: K, v: int)
    ensures MapSum(AddCount(m, k, v)) == MapSum(m) + v
  {
    var r := AddCount(m, k, v);
    MapSumRemove(r, k);
    if k in m {
      MapSumRemove(m, k);
      assert r - {k} == m - {k};
    } else {
      assert r - {k} == m;
    }
  }

  /** The tally of a sequence, built one element at a time. */
  function Histogram<K(!new)>(timers: seq<K>): map<K, int>
  {
    if timers == [] then map[]
    else AddCount(Histogram(timers[..|timers| - 1]), timers[|timers| - 1], 1)
  }

  /** Each element is tallied with its multiplicity, the keys are exactly the
      elements present, and the counts add up to the length. */
  lemma {:induction false} HistogramCounts<K(!new)>(timers: seq<K>)
    ensures forall t :: Lookup(Histogram(timers), t) == multiset(timers)[t]
    ensures Histogram(timers).Keys == set i | 0 <= i < |timers| :: timers[i]
    ensures MapSum(Histogram(timers)) == |timers|
  {
    if timers != [] {
      var init := timers[..|timers| - 1];
      var last := timers[|timers| - 1];
      HistogramCounts(init);
      assert timers == init + [last];
      assert multiset(timers) == multiset(init) + multiset{last};
      MapSumAddCount(Histogram(init), last, 1);
      var keys := set i | 0 <= i < |timers| :: timers[i];
      var initKeys := set i | 0 <= i < |init| :: init[i];
      assert keys == initKeys + {last} by {
        forall t | t in keys ensures t in initKeys + {last} {
          var i :| 0 <= i < |timers| && timers[i] == t;
          if i < |init| { assert init[i] == t; }
        }
        forall t | t in initKeys ensures t in keys {
          var i :| 0 <= i < |init| && init[i] == t;
          assert timers[i] == t;
        }
        assert timers[|timers| - 1] == last;
      }
    }
  }

  /** The part of a tally whose keys lie in a given set. */
  function Restrict<K>(m: map<K, int>, keys: set<K>): map<K, int>
  {
    map k | k in m && k in keys :: m[k]
  }

  lemma RestrictAdd<K(!new)>(m: map<K, int>, visited: set<K>, k: K)
    requires k in m && k !in visited
    ensures Restrict(m, visited + {k}) == AddCount(Restrict(m, visited), k, m[k])
  {
  }

  lemma RestrictAll<K>(m: map<K, int>, visited: set<K>)
    requires m.Keys <= visited
    ensures Restrict(m, visited) == m
  {
  }

}
