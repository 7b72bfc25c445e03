/** Extended polymerization, counted: a polymer is kept as the tally of its
    adjacent pairs and the tally of its elements; each step every rule
    AB -> C turns the AB pairs into AC and CB pairs and adds as many C's. */
module Day14 {
  import opened Counting

  type Pair = (char, char)

  datatype InsertionRule = InsertionRule(from: Pair, to: char)

  /** A Dictionary<T, long> of counts that MapAdd updates in place. */
  class CountMap<K(==,!new)> {
    var counts: map<K, int>

    constructor ()
      ensures counts == map[]
    {
      counts := map[];
    }

    /** MapAdd: insert the key with 0 when absent, then add count to it. */
    method MapAdd(count: int, value: K)
      modifies this
      ensures counts == AddCount(old(counts), value, count)
    {
      if value !in counts {
        counts := counts[value := 0];
      }
      counts := counts[value := counts[value] + count];
    }
  }

  /** The adjacent pairs of s, in order; none when s has fewer than two
      characters. */
  function Pairs(s: string): (r: seq<Pair>)
    ensures |r| == if |s| == 0 then 0 else |s| - 1
  {
    if |s| < 2 then [] else seq(|s| - 1, i requires 0 <= i < |s| - 1 => (s[i], s[i + 1]))
  }

  /** GetPairMapFromString: MapAdd(1, (s[i], s[i + 1])) for every i. */
  method GetPairMapFromString(s: string) returns (pairMap: CountMap<Pair>)
    ensures fresh(pairMap)
    ensures pairMap.counts == Histogram(Pairs(s))
  {
    pairMap := new CountMap<Pair>();
    var i := 0;
    while i < |s| - 1
      invariant 0 <= i && (i <= |s| - 1 || i == 0)
      invariant pairMap.counts == Histogram(Pairs(s)[..i])
    {
      assert Pairs(s)[..i + 1][..i] == Pairs(s)[..i];
      pairMap.MapAdd(1, (s[i], s[i + 1]));
      i := i + 1;
    }
    assert Pairs(s)[..i] == Pairs(s);
  }

  /** The pair tally of a polymer holds |s| - 1 pairs, each adjacent pair
      counted as often as it occurs. */
  lemma PairMapTotal(s: string)
    ensures MapSum(Histogram(Pairs(s))) == if |s| == 0 then 0 else |s| - 1
    ensures forall p :: Lookup(Histogram(Pairs(s)), p) == multiset(Pairs(s))[p]
  {
    HistogramCounts(Pairs(s));
  }

  /** GetElementMapFromString: MapAdd(1, s[i]) for every i. */
  method GetElementMapFromString(s: string) returns (elementMap: CountMap<char>)
    ensures fresh(elementMap)
    ensures elementMap.counts == Histogram(s)
  {
    elementMap := new CountMap<char>();
    var i := 0;
    while i < |s|
      invariant 0 <= i <= |s|
      invariant elementMap.counts == Histogram(s[..i])
    {
      assert s[..i + 1][..i] == s[..i];
      elementMap.MapAdd(1, s[i]);
      i := i + 1;
    }
    assert s[..i] == s;
  }

  /** The element tally holds |s| elements, each counted as often as it
      occurs. */
  lemma ElementMapTotal(s: string)
    ensures MapSum(Histogram(s)) == |s|
    ensures forall c :: Lookup(Histogram(s), c) == multiset(s)[c]
  {
    HistogramCounts(s);
  }

  // ---------------------------------------------------------------------
  // One step

  /** The new pair tally after the given rules, applied in order: only the
      pairs some rule produces are present. */
  function NextPairs(pairs: map<Pair, int>, rules: seq<InsertionRule>): map<Pair, int>
  {
    if rules == [] then map[]
    else
      var rule := rules[|rules| - 1];
      var before := NextPairs(pairs, rules[..|rules| - 1]);
      if rule.from in pairs then
        AddCount(AddCount(before, (rule.from.0, rule.to), pairs[rule.from]), (rule.to, rule.from.1), pairs[rule.from])
      else before
  }

  /** The element tally after the rules: every matching rule adds as many
      of its inserted element as its pair occurred. */
  function NextElements(elements: map<char, int>, pairs: map<Pair, int>, rules: seq<InsertionRule>): map<char, int>
  {
    if rules == [] then elements
    else
      var rule := rules[|rules| - 1];
      var before := NextElements(elements, pairs, rules[..|rules| - 1]);
      if rule.from in pairs then AddCount(before, rule.to, pairs[rule.from]) else before
  }

  /** GetNextStep: a fresh pair tally, and the given element tally updated
      in place and handed back. */
  method GetNextStep(pairMap: CountMap<Pair>, elementMap: CountMap<char>, rules: seq<InsertionRule>)
    returns (nextPairMap: CountMap<Pair>, nextElementMap: CountMap<char>)
    modifies elementMap
    ensures fresh(nextPairMap)
    ensures nextElementMap == elementMap
    ensures nextPairMap.counts == NextPairs(old(pairMap.counts), rules)
    ensures elementMap.counts == NextElements(old(elementMap.counts), old(pairMap.counts), rules)
  {
    var pairs := pairMap.counts;
    ghost var elements := elementMap.counts;
    nextPairMap := new CountMap<Pair>();
    var i := 0;
    while i < |rules|
      invariant 0 <= i <= |rules|
      invariant nextPairMap.counts == NextPairs(pairs, rules[..i])
      invariant elementMap.counts == NextElements(elements, pairs, rules[..i])
    {
      assert rules[..i + 1][..i] == rules[..i];
      var rule := rules[i];
      if rule.from in pairs {
        nextPairMap.MapAdd(pairs[rule.from], (rule.from.0, rule.to));
        nextPairMap.MapAdd(pairs[rule.from], (rule.to, rule.from.1));
        elementMap.MapAdd(pairs[rule.from], rule.to);
      }
      i := i + 1;
    }
    assert rules[..i] == rules;
    nextElementMap := elementMap;
  }

  /** The pairs a rule produces. */
  predicate Produces(pairs: map<Pair, int>, rule: InsertionRule, p: Pair)
  {
    rule.from in pairs && (p == (rule.from.0, rule.to) || p == (rule.to, rule.from.1))
  }

  /** A pair is in the next tally exactly when some rule whose pair was
      present produces it; pairs no rule matches disappear. */
  lemma {:induction false} NextPairsKeys(pairs: map<Pair, int>, rules: seq<InsertionRule>)
    ensures forall p :: p in NextPairs(pairs, rules) <==> exists i :: 0 <= i < |rules| && Produces(pairs, rules[i], p)
  {
    if rules != [] {
      var init := rules[..|rules| - 1];
      NextPairsKeys(pairs, init);
      forall p ensures p in NextPairs(pairs, rules) <==> exists i :: 0 <= i < |rules| && Produces(pairs, rules[i], p) {
        if p in NextPairs(pairs, rules) && !Produces(pairs, rules[|rules| - 1], p) {
          assert p in NextPairs(pairs, init);
          var i :| 0 <= i < |init| && Produces(pairs, init[i], p);
          assert rules[i] == init[i];
        }
        if exists i :: 0 <= i < |rules| && Produces(pairs, rules[i], p) {
          var i :| 0 <= i < |rules| && Produces(pairs, rules[i], p);
          if i < |init| {
            assert init[i] == rules[i];
          }
        }
      }
    }
  }

  /** The total count of the pairs the rules match (a pair matched by two
      rules counts twice). */
  function MatchedTotal(pairs: map<Pair, int>, rules: seq<InsertionRule>): int
  {
    if rules == [] then 0
    else
      var rule := rules[|rules| - 1];
      MatchedTotal(pairs, rules[..|rules| - 1]) + (if rule.from in pairs then pairs[rule.from] else 0)
  }

  /** Each matched pair becomes two pairs and one new element. */
  lemma {:induction false} NextTotals(elements: map<char, int>, pairs: map<Pair, int>, rules: seq<InsertionRule>)
    ensures MapSum(NextPairs(pairs, rules)) == 2 * MatchedTotal(pairs, rules)
    ensures MapSum(NextElements(elements, pairs, rules)) == MapSum(elements) + MatchedTotal(pairs, rules)
  {
    if rules != [] {
      var init := rules[..|rules| - 1];
      var rule := rules[|rules| - 1];
      NextTotals(elements, pairs, init);
      if rule.from in pairs {
        var c := pairs[rule.from];
        var before := NextPairs(pairs, init);
        MapSumAddCount(before, (rule.from.0, rule.to), c);
        MapSumAddCount(AddCount(before, (rule.from.0, rule.to), c), (rule.to, rule.from.1), c);
        MapSumAddCount(NextElements(elements, pairs, init), rule.to, c);
      }
    }
  }

  /** The pairs the rules rewrite. */
  function Froms(rules: seq<InsertionRule>): set<Pair>
  {
    set i | 0 <= i < |rules| :: rules[i].from
  }

  /** No two rules rewrite the same pair. */
  predicate DistinctFroms(rules: seq<InsertionRule>)
  {
    forall i, j :: 0 <= i < j < |rules| ==> rules[i].from != rules[j].from
  }

  /** With one rule per pair, the matched total is the total of the pairs
      that have a rule. */
  lemma {:induction false} MatchedTotalOfDistinct(pairs: map<Pair, int>, rules: seq<InsertionRule>)
    requires DistinctFroms(rules)
    ensures MatchedTotal(pairs, rules) == MapSum(Restrict(pairs, Froms(rules)))
  {
    if rules == [] {
      assert Restrict(pairs, Froms(rules)) == map[];
    } else {
      var init := rules[..|rules| - 1];
      var rule := rules[|rules| - 1];
      assert DistinctFroms(init);
      MatchedTotalOfDistinct(pairs, init);
      assert Froms(rules) == Froms(init) + {rule.from} by {
        forall p | p in Froms(rules) ensures p in Froms(init) + {rule.from} {
          var i :| 0 <= i < |rules| && rules[i].from == p;
          if i < |init| { assert init[i] == rules[i]; }
        }
        forall p | p in Froms(init) ensures p in Froms(rules) {
          var i :| 0 <= i < |init| && init[i].from == p;
          assert rules[i] == init[i];
        }
        assert rules[|rules| - 1].from == rule.from;
      }
      assert rule.from !in Froms(init);
      if rule.from in pairs {
        RestrictAdd(pairs, Froms(init), rule.from);
        MapSumAddCount(Restrict(pairs, Froms(init)), rule.from, pairs[rule.from]);
      } else {
        assert Restrict(pairs, Froms(rules)) == Restrict(pairs, Froms(init));
      }
    }
  }

  /** When every present pair has exactly one rule, a step doubles the
      number of pairs and adds that many elements. */
  lemma StepDoublesPairs(elements: map<char, int>, pairs: map<Pair, int>, rules: seq<InsertionRule>)
    requires DistinctFroms(rules)
    requires forall p :: p in pairs ==> p in Froms(rules)
    ensures MapSum(NextPairs(pairs, rules)) == 2 * MapSum(pairs)
    ensures MapSum(NextElements(elements, pairs, rules)) == MapSum(elements) + MapSum(pairs)
  {
    NextTotals(elements, pairs, rules);
    MatchedTotalOfDistinct(pairs, rules);
    RestrictAll(pairs, Froms(rules));
  }
}
