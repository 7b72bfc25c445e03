/** Beacon scanner: the integer helpers under the scanner alignment --
    offsets between positions, the six axes and their negations, unordered
    pairs, sign- and order-free distances, the tally of offsets between two
    point clouds, and the differences of consecutive values. */
module Day19 {
  import opened Common
  import opened Counting

  datatype Position3 = Position3(x: int, y: int, z: int)

  /** Subtract(one, two) is the offset that leads from one to two. */
  function Subtract(one: Position3, two: Position3): (r: Position3)
    ensures Add(r, one) == two
  {
    Position3(two.x - one.x, two.y - one.y, two.z - one.z)
  }

  function Add(one: Position3, two: Position3): Position3
  {
    Position3(two.x + one.x, two.y + one.y, two.z + one.z)
  }

  /** Adding the offset from a to b to a gives b. */
  lemma SubtractThenAdd(a: Position3, b: Position3)
    ensures Add(Subtract(a, b), a) == b
  {
  }

  /** Add is the componentwise sum: it commutes and has the origin as unit. */
  lemma AddCommutes(a: Position3, b: Position3)
    ensures Add(a, b) == Add(b, a)
    ensures Add(Position3(0, 0, 0), a) == a
  {
  }

  /** The offset from a point to itself is zero, and reversing the two
      points reverses the offset. */
  lemma SubtractAntisymmetric(a: Position3, b: Position3)
    ensures Subtract(a, a) == Position3(0, 0, 0)
    ensures Add(Subtract(a, b), Subtract(b, a)) == Position3(0, 0, 0)
  {
  }

  datatype Axis = X | Y | Z | XNeg | YNeg | ZNeg

  predicate IsNegative(axis: Axis)
  {
    axis.XNeg? || axis.YNeg? || axis.ZNeg?
  }

  /** An axis and its negation: the same axis with the other sign. */
  function Neg(axis: Axis): (r: Axis)
    ensures IsNegative(r) != IsNegative(axis)
  {
    match axis
    case X => XNeg
    case Y => YNeg
    case Z => ZNeg
    case XNeg => X
    case YNeg => Y
    case ZNeg => Z
  }

  /** The coordinate an axis reads; a negated axis reads the same
      coordinate as the axis itself, with no change of sign. */
  function ValueByAxis(axis: Axis, point: Position3): (r: int)
    ensures r in {point.x, point.y, point.z}
  {
    match axis
    case X => point.x
    case XNeg => point.x
    case Y => point.y
    case YNeg => point.y
    case Z => point.z
    case ZNeg => point.z
  }

  /** Neg is an involution with no fixed point, and it keeps the coordinate
      an axis reads. */
  lemma NegInvolution(axis: Axis, point: Position3)
    ensures Neg(Neg(axis)) == axis
    ensures Neg(axis) != axis
    ensures ValueByAxis(Neg(axis), point) == ValueByAxis(axis, point)
  {
  }

  /** The three positive axes read the three coordinates. */
  lemma AxesRead(point: Position3)
    ensures ValueByAxis(X, point) == point.x
    ensures ValueByAxis(Y, point) == point.y
    ensures ValueByAxis(Z, point) == point.z
  {
  }

  datatype UnorderedPair = UnorderedPair(first: int, second: int)

  /** The pair of two values, smaller first. */
  function MakeUnorderedPair(first: int, second: int): (r: UnorderedPair)
    ensures r.first <= r.second
    ensures multiset{r.first, r.second} == multiset{first, second}
  {
    UnorderedPair(if first < second then first else second, if first < second then second else first)
  }

  /** The order of the two values does not matter. */
  lemma UnorderedPairSymmetric(a: int, b: int)
    ensures MakeUnorderedPair(a, b) == MakeUnorderedPair(b, a)
  {
  }

  datatype AbsoluteDistance = AbsoluteDistance(one: int, two: int, three: int)

  /** The absolute values of the three coordinates, sorted. */
  function MakeAbsoluteDistance(x: int, y: int, z: int): (r: AbsoluteDistance)
    ensures 0 <= r.one <= r.two <= r.three
    ensures multiset{r.one, r.two, r.three} == multiset{Abs(x), Abs(y), Abs(z)}
  {
    Sort3Multiset(Abs(x), Abs(y), Abs(z));
    Sort3(Abs(x), Abs(y), Abs(z))
  }

  /** Three values in ascending order. */
  function Sort3(a: int, b: int, c: int): (r: AbsoluteDistance)
    ensures r.one <= r.two <= r.three
  {
    if a <= b then
      if b <= c then AbsoluteDistance(a, b, c)
      else if a <= c then AbsoluteDistance(a, c, b)
      else AbsoluteDistance(c, a, b)
    else
      if a <= c then AbsoluteDistance(b, a, c)
      else if b <= c then AbsoluteDistance(b, c, a)
      else AbsoluteDistance(c, b, a)
  }

  lemma Sort3Multiset(a: int, b: int, c: int)
    ensures var r := Sort3(a, b, c); multiset{r.one, r.two, r.three} == multiset{a, b, c}
  {
  }

  /** A sorted triple is determined by its multiset of values. */
  lemma SortedUnique(r: AbsoluteDistance, s: AbsoluteDistance)
    requires r.one <= r.two <= r.three && s.one <= s.two <= s.three
    requires multiset{r.one, r.two, r.three} == multiset{s.one, s.two, s.three}
    ensures r == s
  {
    var m := multiset{r.one, r.two, r.three};
    assert r.one in m && s.one in m;
    assert s.one in multiset{r.one, r.two, r.three} && r.one in multiset{s.one, s.two, s.three};
    assert r.one == s.one;
    assert multiset{r.two, r.three} == m - multiset{r.one};
    assert multiset{s.two, s.three} == m - multiset{s.one};
    assert r.two in multiset{s.two, s.three} && s.two in multiset{r.two, r.three};
    assert r.two == s.two;
    assert multiset{r.three} == multiset{s.three};
    assert r.three in multiset{s.three};
  }

  /** Coordinates with the same absolute values in any order give the same
      distance. */
  lemma AbsoluteDistanceInvariant(x: int, y: int, z: int, x': int, y': int, z': int)
    requires multiset{Abs(x), Abs(y), Abs(z)} == multiset{Abs(x'), Abs(y'), Abs(z')}
    ensures MakeAbsoluteDistance(x, y, z) == MakeAbsoluteDistance(x', y', z')
  {
    SortedUnique(MakeAbsoluteDistance(x, y, z), MakeAbsoluteDistance(x', y', z'));
  }

  /** Flipping the sign of a coordinate leaves the distance unchanged. */
  lemma AbsoluteDistanceFlips(x: int, y: int, z: int)
    ensures MakeAbsoluteDistance(-x, y, z) == MakeAbsoluteDistance(x, y, z)
    ensures MakeAbsoluteDistance(x, -y, z) == MakeAbsoluteDistance(x, y, z)
    ensures MakeAbsoluteDistance(x, y, -z) == MakeAbsoluteDistance(x, y, z)
  {
    assert Abs(-x) == Abs(x) && Abs(-y) == Abs(y) && Abs(-z) == Abs(z);
  }

  /** Sorting does not depend on the order of its input. */
  lemma Sort3Permutations(a: int, b: int, c: int)
    ensures Sort3(b, a, c) == Sort3(a, b, c)
    ensures Sort3(b, c, a) == Sort3(a, b, c)
  {
  }

  /** Swapping two axes, or rotating all three, leaves the distance
      unchanged; the two generate every permutation. */
  lemma AbsoluteDistancePermutations(x: int, y: int, z: int)
    ensures MakeAbsoluteDistance(y, x, z) == MakeAbsoluteDistance(x, y, z)
    ensures MakeAbsoluteDistance(y, z, x) == MakeAbsoluteDistance(x, y, z)
  {
    Sort3Permutations(Abs(x), Abs(y), Abs(z));
  }

  /** The offsets from p to each point of two, in order. */
  function Row(p: Position3, two: seq<Position3>): (r: seq<Position3>)
    ensures |r| == |two|
    ensures forall j :: 0 <= j < |two| ==> r[j] == Subtract(two[j], p)
  {
    if two == [] then [] else Row(p, two[..|two| - 1]) + [Subtract(two[|two| - 1], p)]
  }

  lemma RowStep(before: seq<Position3>, p: Position3, two: seq<Position3>, j: int)
    requires 0 <= j < |two|
    ensures before + Row(p, two[..j + 1]) == (before + Row(p, two[..j])) + [Subtract(two[j], p)]
  {
    assert two[..j + 1][..j] == two[..j];
  }

  /** The offsets of all pairs in the order the two loops visit them: the
      points of one outside, the points of two inside. */
  function Offsets(one: seq<Position3>, two: seq<Position3>): (r: seq<Position3>)
    ensures |r| == |one| * |two|
  {
    if one == [] then [] else Offsets(one[..|one| - 1], two) + Row(one[|one| - 1], two)
  }

  /** The elements of s in the order of their first occurrence. */
  function Distinct(s: seq<Position3>): (r: seq<Position3>)
    ensures forall x :: x in r <==> x in s
    ensures forall i, j :: 0 <= i < j < |r| ==> r[i] != r[j]
  {
    if s == [] then []
    else if s[|s| - 1] in s[..|s| - 1] then Distinct(s[..|s| - 1])
    else Distinct(s[..|s| - 1]) + [s[|s| - 1]]
  }

  /** The tally of an offset: the number of pairs it leads between. */
  function Tally(one: seq<Position3>, two: seq<Position3>, d: Position3): nat
  {
    multiset(Offsets(one, two))[d]
  }

  /** d is the first offset met whose tally reaches n. */
  ghost predicate FirstReaching(one: seq<Position3>, two: seq<Position3>, d: Position3, n: int)
  {
    var order := Distinct(Offsets(one, two));
    exists k :: 0 <= k < |order| && order[k] == d && forall k' :: 0 <= k' < k ==> Tally(one, two, order[k']) < n
  }

  /** The counts so far: one entry per offset met, holding how often it was
      met, and keys in the order the offsets were first met. */
  ghost predicate Counted(counts: map<Position3, int>, keys: seq<Position3>, seen: seq<Position3>)
  {
    (forall d :: d in counts <==> d in seen) &&
    (forall d :: d in counts ==> counts[d] == multiset(seen)[d]) &&
    keys == Distinct(seen)
  }

  lemma CountOne(counts: map<Position3, int>, keys: seq<Position3>, seen: seq<Position3>, d: Position3)
    requires Counted(counts, keys, seen)
    ensures Counted(AddCount(counts, d, 1), if d in counts then keys else keys + [d], seen + [d])
  {
    assert (seen + [d])[..|seen|] == seen;
    forall e ensures Lookup(AddCount(counts, d, 1), e) == Lookup(counts, e) + (if e == d then 1 else 0) {
      LookupAddCount(counts, d, 1, e);
    }
  }

  /** The tally loops of GetOverlaps: for each point of one and each point
      of two, the offset between them is counted, inserted with zero first
      when it is new. */
  method CountOffsets(one: seq<Position3>, two: seq<Position3>) returns (counts: map<Position3, int>, keys: seq<Position3>)
    ensures Counted(counts, keys, Offsets(one, two))
  {
    counts := map[];
    keys := [];
    for i := 0 to |one|
      invariant Counted(counts, keys, Offsets(one[..i], two))
    {
      counts, keys := CountRow(counts, keys, Offsets(one[..i], two), one[i], two);
      assert one[..i + 1][..i] == one[..i];
    }
    assert one[..|one|] == one;
  }

  /** The inner tally loop: the offsets from p to each point of two. */
  method CountRow(counts0: map<Position3, int>, keys0: seq<Position3>, ghost seen0: seq<Position3>, p: Position3, two: seq<Position3>)
    returns (counts: map<Position3, int>, keys: seq<Position3>)
    requires Counted(counts0, keys0, seen0)
    ensures Counted(counts, keys, seen0 + Row(p, two))
  {
    counts, keys := counts0, keys0;
    assert seen0 + Row(p, two[..0]) == seen0;
    for j := 0 to |two|
      invariant Counted(counts, keys, seen0 + Row(p, two[..j]))
    {
      var diff := Subtract(two[j], p);
      CountNext(counts, keys, seen0, p, two, j);
      keys := if diff in counts then keys else keys + [diff];
      counts := AddCount(counts, diff, 1);
    }
    assert two[..|two|] == two;
  }

  lemma CountNext(counts: map<Position3, int>, keys: seq<Position3>, seen0: seq<Position3>, p: Position3, two: seq<Position3>, j: int)
    requires 0 <= j < |two| && Counted(counts, keys, seen0 + Row(p, two[..j]))
    ensures var d := Subtract(two[j], p);
      Counted(AddCount(counts, d, 1), if d in counts then keys else keys + [d], seen0 + Row(p, two[..j + 1]))
  {
    CountOne(counts, keys, seen0 + Row(p, two[..j]), Subtract(two[j], p));
    RowStep(seen0, p, two, j);
  }

  /** GetOverlaps: tallies the offset from every point of two to every
      point of one and returns the largest tally with the offset first met
      among those reaching it (a dictionary without removals enumerates in
      insertion order). With no pairs to tally, taking the maximum fails. */
  method GetOverlaps(one: seq<Position3>, two: seq<Position3>) returns (r: Result<(int, Position3)>)
    ensures r.Err? <==> one == [] || two == []
    ensures r.Ok? ==> r.value.0 == Tally(one, two, r.value.1) >= 1
    ensures r.Ok? ==> forall d :: Tally(one, two, d) <= r.value.0
    ensures r.Ok? ==> FirstReaching(one, two, r.value.1, r.value.0)
  {
    var counts, keys := CountOffsets(one, two);
    ghost var offsets := Offsets(one, two);
    if one != [] && two != [] {
      Positive(|one|, |two|);
      assert offsets[0] in keys;
    }
    if keys == [] {
      return Err("Sequence contains no elements");
    }
    var maxValue := MaxValue(counts, keys);
    var first := FirstWithValue(counts, keys, maxValue);
    forall d ensures Tally(one, two, d) <= maxValue {
      if d in offsets {
        var k :| 0 <= k < |keys| && keys[k] == d;
      }
    }
    assert keys[first] in offsets;
    r := Ok((maxValue, keys[first]));
  }

  /** The largest value of the dictionary, enumerated through its keys
      (Max, which fails on an empty dictionary, is called only on one with
      a key). */
  method MaxValue(counts: map<Position3, int>, keys: seq<Position3>) returns (maxValue: int)
    requires keys != [] && forall k :: 0 <= k < |keys| ==> keys[k] in counts
    ensures exists k :: 0 <= k < |keys| && counts[keys[k]] == maxValue
    ensures forall k :: 0 <= k < |keys| ==> counts[keys[k]] <= maxValue
  {
    maxValue := counts[keys[0]];
    for k := 1 to |keys|
      invariant exists k' :: 0 <= k' < k && counts[keys[k']] == maxValue
      invariant forall k' :: 0 <= k' < k ==> counts[keys[k']] <= maxValue
    {
      if counts[keys[k]] > maxValue {
        maxValue := counts[keys[k]];
      }
    }
  }

  /** The position of the first key holding a value that some key holds
      (First). */
  method FirstWithValue(counts: map<Position3, int>, keys: seq<Position3>, v: int) returns (first: int)
    requires forall k :: 0 <= k < |keys| ==> keys[k] in counts
    requires exists k :: 0 <= k < |keys| && counts[keys[k]] == v
    ensures 0 <= first < |keys| && counts[keys[first]] == v
    ensures forall k :: 0 <= k < first ==> counts[keys[k]] != v
  {
    first := 0;
    while counts[keys[first]] != v
      invariant 0 <= first < |keys|
      invariant exists k :: first <= k < |keys| && counts[keys[k]] == v
      invariant forall k :: 0 <= k < first ==> counts[keys[k]] != v
      decreases |keys| - first
    {
      first := first + 1;
    }
  }

  lemma Positive(a: nat, b: nat)
    requires a > 0 && b > 0
    ensures a * b > 0
  {
  }

  /** With no point of two repeated, an offset leads from each point of one
      to at most one point of two. */
  lemma {:induction false} RowTally(p: Position3, two: seq<Position3>, d: Position3)
    requires forall j, k :: 0 <= j < k < |two| ==> two[j] != two[k]
    ensures multiset(Row(p, two))[d] <= 1
    decreases |two|
  {
    if two != [] {
      var front := two[..|two| - 1];
      RowTally(p, front, d);
      var last := Subtract(two[|two| - 1], p);
      assert Row(p, two) == Row(p, front) + [last];
      if last == d {
        forall j | 0 <= j < |front| ensures Row(p, front)[j] != d {
          assert front[j] != two[|two| - 1];
          SubtractThenAdd(front[j], p);
          SubtractThenAdd(two[|two| - 1], p);
        }
        assert d !in Row(p, front);
      }
    }
  }

  /** Every tally is at most |one| when two has no repeated points. */
  lemma {:induction false} TallyBound(one: seq<Position3>, two: seq<Position3>, d: Position3)
    requires forall j, k :: 0 <= j < k < |two| ==> two[j] != two[k]
    ensures Tally(one, two, d) <= |one|
    decreases |one|
  {
    if one != [] {
      TallyBound(one[..|one| - 1], two, d);
      RowTally(one[|one| - 1], two, d);
    }
  }

  /** GetDeltas: the differences of consecutive values. */
  function GetDeltas(values: seq<int>): (r: seq<int>)
    ensures |r| == if values == [] then 0 else |values| - 1
    ensures forall i :: 0 <= i < |r| ==> r[i] == values[i + 1] - values[i]
  {
    if |values| < 2 then [] else [values[1] - values[0]] + GetDeltas(values[1..])
  }

  /** The deltas and the first value give back every value. */
  lemma {:induction false} DeltasRebuild(values: seq<int>, k: int)
    requires 0 <= k < |values|
    ensures values[0] + Sum(GetDeltas(values)[..k]) == values[k]
  {
    if k > 0 {
      DeltasRebuild(values, k - 1);
      var d := GetDeltas(values);
      assert d[..k] == d[..k - 1] + [d[k - 1]];
      SumConcat(d[..k - 1], [d[k - 1]]);
      assert Sum([d[k - 1]]) == d[k - 1] + Sum([]);
    }
  }
}
