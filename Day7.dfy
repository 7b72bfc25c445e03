/** The treachery of whales: the cheapest common position for a row of crabs,
    with a linear and a triangular (summation) fuel cost. */
module Day7 {
  import opened Common

  /** 0 + 1 + ... + n. */
  function Triangle(n: nat): nat
  {
    if n == 0 then 0 else n + Triangle(n - 1)
  }

  lemma {:induction false} TriangleClosedForm(n: nat)
    ensures 2 * Triangle(n) == n * (n + 1)
  {
    if n > 0 { TriangleClosedForm(n - 1); }
  }

  /** Fuel for one crab to move a distance d. */
  function CrabFuel(d: nat, triangular: bool): nat
  {
    if triangular then Triangle(d) else d
  }

  /** The fuel all crabs need to reach target, without any cap. */
  function FuelTotal(target: int, positions: seq<int>, triangular: bool): nat
  {
    if positions == [] then 0
    else
      var last := positions[|positions| - 1];
      FuelTotal(target, positions[..|positions| - 1], triangular) + CrabFuel(Abs(last - target), triangular)
  }

  lemma {:induction false} FuelTotalMonotone(target: int, positions: seq<int>, k: nat, triangular: bool)
    requires k <= |positions|
    ensures FuelTotal(target, positions[..k], triangular) <= FuelTotal(target, positions, triangular)
  {
    if k < |positions| {
      assert positions[..|positions| - 1][..k] == positions[..k];
      FuelTotalMonotone(target, positions[..|positions| - 1], k, triangular);
    } else {
      assert positions[..k] == positions;
    }
  }

  /** What the capped fuel loops return: the total, or int.MaxValue once a
      running total exceeds the cap. Running totals only grow, so that is
      the case exactly when the whole total exceeds it, except that an empty
      list never enters the loop. */
  function CappedFuel(target: int, positions: seq<int>, maxFuel: int, triangular: bool): int
  {
    var total := FuelTotal(target, positions, triangular);
    if |positions| > 0 && total > maxFuel then IntMax else total
  }

  /** The memo of Summation.GetSum: it starts as {0: 0, 1: 1} and only ever
      holds triangular numbers. */
  class Summation {
    var aggregation: map<int, int>

    ghost predicate Valid()
      reads this
    {
      && 0 in aggregation && 1 in aggregation
      && forall k :: k in aggregation ==> k >= 0 && aggregation[k] == Triangle(k)
    }

    constructor ()
      ensures Valid() && aggregation == map[0 := 0, 1 := 1]
    {
      aggregation := map[0 := 0, 1 := 1];
    }

    /** GetSum: throws for a negative n, else returns n(n+1)/2, filling the
        memo on the way down. */
    method GetSum(n: int) returns (r: Result<int>)
      requires Valid()
      modifies this
      ensures Valid()
      ensures n < 0 ==> r.Err?
      ensures n >= 0 ==> r == Ok(Triangle(n)) && 2 * r.value == n * (n + 1)
      ensures old(aggregation).Keys <= aggregation.Keys
      decreases if n < 0 then 0 else n
    {
      if n < 0 {
        return Err("ArgumentException: must be >= 0");
      }
      TriangleClosedForm(n);
      if n in aggregation {
        return Ok(aggregation[n]);
      }
      var rest := GetSum(n - 1);
      var summation := n + rest.value;
      aggregation := aggregation[n := summation];
      return Ok(summation);
    }
  }

  /** TotalFuelToMoveToPosition, with the early exit. */
  method TotalFuelToMoveToPosition(target: int, positions: seq<int>, maxFuel: int) returns (fuel: int)
    ensures fuel == CappedFuel(target, positions, maxFuel, false)
  {
    var sum := 0;
    var i := 0;
    while i < |positions|
      invariant 0 <= i <= |positions|
      invariant sum == FuelTotal(target, positions[..i], false)
      invariant i > 0 ==> sum <= maxFuel
    {
      assert positions[..i + 1][..i] == positions[..i];
      sum := sum + Abs(positions[i] - target);
      if sum > maxFuel {
        FuelTotalMonotone(target, positions, i + 1, false);
        return IntMax;
      }
      i := i + 1;
    }
    assert positions[..i] == positions;
    return sum;
  }

  /** TotalFuelToMoveToPositionSummation: the same loop with GetSum per crab. */
  method TotalFuelToMoveToPositionSummation(target: int, positions: seq<int>, maxFuel: int, memo: Summation)
    returns (fuel: int)
    requires memo.Valid()
    modifies memo
    ensures memo.Valid()
    ensures fuel == CappedFuel(target, positions, maxFuel, true)
  {
    var sum := 0;
    var i := 0;
    while i < |positions|
      invariant 0 <= i <= |positions|
      invariant memo.Valid()
      invariant sum == FuelTotal(target, positions[..i], true)
      invariant i > 0 ==> sum <= maxFuel
    {
      assert positions[..i + 1][..i] == positions[..i];
      var distance := Abs(positions[i] - target);
      var distanceFuel := memo.GetSum(distance);
      sum := sum + distanceFuel.value;
      if sum > maxFuel {
        FuelTotalMonotone(target, positions, i + 1, true);
        return IntMax;
      }
      i := i + 1;
    }
    assert positions[..i] == positions;
    return sum;
  }

  predicate InIntRange(positions: seq<int>)
  {
    forall k :: 0 <= k < |positions| ==> IntMin <= positions[k] <= IntMax
  }

  /** FindBoundaries: the least and the greatest position, or
      (int.MaxValue, int.MinValue) for no positions. */
  method FindBoundaries(positions: seq<int>) returns (least: int, most: int)
    requires InIntRange(positions)
    ensures positions == [] ==> least == IntMax && most == IntMin
    ensures positions != [] ==> least in positions && most in positions
    ensures forall k :: 0 <= k < |positions| ==> least <= positions[k] <= most
  {
    least, most := IntMax, IntMin;
    var i := 0;
    while i < |positions|
      invariant 0 <= i <= |positions|
      invariant i == 0 ==> least == IntMax && most == IntMin
      invariant i > 0 ==> least in positions[..i] && most in positions[..i]
      invariant forall k :: 0 <= k < i ==> least <= positions[k] <= most
    {
      if positions[i] < least {
        least := positions[i];
      }
      if positions[i] > most {
        most := positions[i];
      }
      i := i + 1;
    }
    assert positions[..i] == positions;
  }

  function Min(a: int, b: int): int { if a <= b then a else b }

  /** The least total fuel over the targets lo..hi. */
  function LeastFuelOver(positions: seq<int>, lo: int, hi: int, triangular: bool): int
    requires lo <= hi
    decreases hi - lo
  {
    if lo == hi then FuelTotal(lo, positions, triangular)
    else Min(LeastFuelOver(positions, lo, hi - 1, triangular), FuelTotal(hi, positions, triangular))
  }

  /** LeastFuelOver is the minimum: no target in range is cheaper, and some
      target attains it. */
  lemma {:induction false} LeastFuelOverIsMinimum(positions: seq<int>, lo: int, hi: int, triangular: bool)
    requires lo <= hi
    ensures forall t :: lo <= t <= hi ==> LeastFuelOver(positions, lo, hi, triangular) <= FuelTotal(t, positions, triangular)
    ensures exists t :: lo <= t <= hi && LeastFuelOver(positions, lo, hi, triangular) == FuelTotal(t, positions, triangular)
    decreases hi - lo
  {
    var m := LeastFuelOver(positions, lo, hi, triangular);
    if lo == hi {
      assert m == FuelTotal(lo, positions, triangular);
    } else {
      LeastFuelOverIsMinimum(positions, lo, hi - 1, triangular);
      var t :| lo <= t <= hi - 1 && LeastFuelOver(positions, lo, hi - 1, triangular) == FuelTotal(t, positions, triangular);
      if m == FuelTotal(hi, positions, triangular) {
        assert lo <= hi <= hi;
      } else {
        assert m == FuelTotal(t, positions, triangular);
      }
    }
  }

  /** FindLeastFuel: int.MaxValue for no positions, else the minimum total
      fuel over the targets between the boundaries (capped at int.MaxValue);
      the early exit in the inner loop never changes that minimum. */
  method FindLeastFuel(positions: seq<int>) returns (leastFuel: int)
    requires InIntRange(positions)
    ensures positions == [] ==> leastFuel == IntMax
    ensures positions != [] ==> exists lo, hi :: (lo in positions && hi in positions && lo <= hi
      && (forall k :: 0 <= k < |positions| ==> lo <= positions[k] <= hi)
      && leastFuel == Min(IntMax, LeastFuelOver(positions, lo, hi, false)))
  {
    var least, most := FindBoundaries(positions);
    leastFuel := IntMax;
    var i := least;
    while i <= most
      invariant positions != [] ==> least <= i <= most + 1
      invariant positions == [] ==> i == least
      invariant leastFuel <= IntMax
      invariant leastFuel == if i == least then IntMax else Min(IntMax, LeastFuelOver(positions, least, i - 1, false))
    {
      var fuel := TotalFuelToMoveToPosition(i, positions, leastFuel);
      if fuel < leastFuel {
        leastFuel := fuel;
      }
      i := i + 1;
    }
    if positions != [] {
      assert i == most + 1;
    }
  }

  /** FindLeastFuelSummation: the same search with the triangular cost. */
  method FindLeastFuelSummation(positions: seq<int>, memo: Summation) returns (leastFuel: int)
    requires InIntRange(positions)
    requires memo.Valid()
    modifies memo
    ensures memo.Valid()
    ensures positions == [] ==> leastFuel == IntMax
    ensures positions != [] ==> exists lo, hi :: (lo in positions && hi in positions && lo <= hi
      && (forall k :: 0 <= k < |positions| ==> lo <= positions[k] <= hi)
      && leastFuel == Min(IntMax, LeastFuelOver(positions, lo, hi, true)))
  {
    var least, most := FindBoundaries(positions);
    leastFuel := IntMax;
    var i := least;
    while i <= most
      invariant memo.Valid()
      invariant positions != [] ==> least <= i <= most + 1
      invariant positions == [] ==> i == least
      invariant leastFuel <= IntMax
      invariant leastFuel == if i == least then IntMax else Min(IntMax, LeastFuelOver(positions, least, i - 1, true))
    {
      var fuel := TotalFuelToMoveToPositionSummation(i, positions, leastFuel, memo);
      if fuel < leastFuel {
        leastFuel := fuel;
      }
      i := i + 1;
    }
    if positions != [] {
      assert i == most + 1;
    }
  }
}
