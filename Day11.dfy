/** Dumbo octopus: one step raises every energy level by one, an octopus
    whose level passes 9 flashes once and raises its eight neighbours, and
    every octopus that flashed drops to 0. */
module Day11 {
  import opened Common

  datatype Point = Point(x: int, y: int)

  /** Two arrays of the same dimensions. */
  predicate SameShape<T, U>(a: array2<T>, b: array2<U>)
  {
    a.Length0 == b.Length0 && a.Length1 == b.Length1
  }

  /** Two arrays of the same dimensions and entries. */
  ghost predicate SameEntries<T>(a: array2<T>, b: array2<T>)
    reads a, b
  {
    SameShape(a, b) && forall i, j :: 0 <= i < a.Length0 && 0 <= j < a.Length1 ==> a[i, j] == b[i, j]
  }

  /** ArrayCopy: a new array with the dimensions and entries of source. */
  method ArrayCopy<T(0)>(source: array2<T>) returns (newArray: array2<T>)
    ensures fresh(newArray)
    ensures SameEntries(newArray, source)
  {
    newArray := new T[source.Length0, source.Length1];
    var i := 0;
    while i < source.Length0
      invariant 0 <= i <= source.Length0
      invariant forall a, b :: 0 <= a < i && 0 <= b < source.Length1 ==> newArray[a, b] == source[a, b]
    {
      var j := 0;
      while j < source.Length1
        invariant 0 <= j <= source.Length1
        invariant forall a, b :: 0 <= a < i && 0 <= b < source.Length1 ==> newArray[a, b] == source[a, b]
        invariant forall b :: 0 <= b < j ==> newArray[i, b] == source[i, b]
      {
        newArray[i, j] := source[i, j];
        j := j + 1;
      }
      i := i + 1;
    }
  }

  /** The energy levels (Map), indexed [x, y]. */
  class OctoMap {
    var levels: array2<int>

    constructor (xSize: nat, ySize: nat)
      ensures fresh(levels) && levels.Length0 == xSize && levels.Length1 == ySize
    {
      levels := new int[xSize, ySize];
    }

    /** Copy: a new map over a new array holding the same levels. */
    method Copy() returns (newMap: OctoMap)
      ensures fresh(newMap) && fresh(newMap.levels)
      ensures SameEntries(newMap.levels, levels)
    {
      newMap := new OctoMap(levels.Length0, levels.Length1);
      newMap.levels := ArrayCopy(levels);
    }
  }

  // ---------------------------------------------------------------------
  // Neighbours

  /** The eight surrounding points, x offset outermost, as GetAdjacentPoints
      lists them. */
  function Neighbours(p: Point): seq<Point>
  {
    [Point(p.x - 1, p.y - 1), Point(p.x - 1, p.y), Point(p.x - 1, p.y + 1),
     Point(p.x, p.y - 1), Point(p.x, p.y + 1),
     Point(p.x + 1, p.y - 1), Point(p.x + 1, p.y), Point(p.x + 1, p.y + 1)]
  }

  /** How many offsets (dx, dy), in the order of the two loops, come before
      the given one, leaving out (0, 0). */
  function OffsetIndex(dx: int, dy: int): int
  {
    3 * (dx + 1) + (dy + 1) - (if dx > 0 || (dx == 0 && dy > 0) then 1 else 0)
  }

  /** GetAdjacentPoints: both offsets from -1 to 1, skipping (0, 0). */
  method GetAdjacentPoints(p: Point) returns (points: seq<Point>)
    ensures points == Neighbours(p)
  {
    points := [];
    var dx := -1;
    while dx <= 1
      invariant -1 <= dx <= 2
      invariant points == Neighbours(p)[..OffsetIndex(dx, -1)]
    {
      var dy := -1;
      while dy <= 1
        invariant -1 <= dy <= 2
        invariant points == Neighbours(p)[..OffsetIndex(dx, dy)]
      {
        if !(dx == 0 && dy == 0) {
          points := points + [Point(p.x + dx, p.y + dy)];
        }
        dy := dy + 1;
      }
      dx := dx + 1;
    }
  }

  /** The eight neighbours are the points other than p within one step
      along each axis, and they are distinct. */
  lemma NeighboursMeaning(p: Point)
    ensures |Neighbours(p)| == 8
    ensures forall q :: q in Neighbours(p) <==> q != p && Abs(q.x - p.x) <= 1 && Abs(q.y - p.y) <= 1
    ensures forall i, j :: 0 <= i < j < |Neighbours(p)| ==> Neighbours(p)[i] != Neighbours(p)[j]
  {
    NeighboursDistinct(p);
  }

  lemma NeighboursDistinct(p: Point)
    ensures forall i, j :: 0 <= i < j < |Neighbours(p)| ==> Neighbours(p)[i] != Neighbours(p)[j]
  {
  }

  /** PointIsValid: inside the bounds of the array. */
  predicate PointIsValid<T>(p: Point, a: array2<T>)
  {
    0 <= p.x < a.Length0 && 0 <= p.y < a.Length1
  }

  /** The listed points that are valid indices of the array, in order. */
  function InBounds<T>(points: seq<Point>, a: array2<T>): (r: seq<Point>)
    ensures forall i :: 0 <= i < |r| ==> PointIsValid(r[i], a)
  {
    if points == [] then []
    else
      InBounds(points[..|points| - 1], a)
        + (if PointIsValid(points[|points| - 1], a) then [points[|points| - 1]] else [])
  }

  lemma {:induction false} InBoundsMeaning<T>(points: seq<Point>, a: array2<T>)
    ensures forall q :: q in InBounds(points, a) <==> q in points && PointIsValid(q, a)
  {
    if points != [] {
      InBoundsMeaning(points[..|points| - 1], a);
      assert forall q :: q in points <==> q in points[..|points| - 1] || q == points[|points| - 1];
    }
  }

  /** GetValidAdjacentPoints: the neighbours inside the array. */
  method GetValidAdjacentPoints<T>(p: Point, a: array2<T>) returns (points: seq<Point>)
    ensures points == InBounds(Neighbours(p), a)
  {
    var adjacent := GetAdjacentPoints(p);
    points := InBounds(adjacent, a);
  }

  /** The valid neighbours are the points of the array other than p within
      one step along each axis; p itself is never among them. */
  lemma ValidNeighboursMeaning<T>(p: Point, a: array2<T>)
    ensures forall q :: q in InBounds(Neighbours(p), a) <==>
      PointIsValid(q, a) && q != p && Abs(q.x - p.x) <= 1 && Abs(q.y - p.y) <= 1
    ensures p !in InBounds(Neighbours(p), a)
  {
    NeighboursMeaning(p);
    InBoundsMeaning(Neighbours(p), a);
  }

  /** p and q are different points within one step of each other along
      each axis. */
  predicate Near(p: Point, q: Point)
  {
    p != q && Abs(q.x - p.x) <= 1 && Abs(q.y - p.y) <= 1
  }

  lemma NearSymmetric(p: Point, q: Point)
    ensures Near(p, q) == Near(q, p)
  {
  }

  /** Each point near p is listed once among its eight neighbours, and no
      other point is. */
  lemma NeighbourCount(p: Point, q: Point)
    ensures multiset(Neighbours(p))[q] == if Near(p, q) then 1 else 0
  {
    NeighboursMeaning(p);
    NearCount(Neighbours(p), p, q);
  }

  lemma NearCount(s: seq<Point>, p: Point, q: Point)
    requires forall x :: x in s <==> x != p && Abs(x.x - p.x) <= 1 && Abs(x.y - p.y) <= 1
    requires forall i, j :: 0 <= i < j < |s| ==> s[i] != s[j]
    ensures multiset(s)[q] == if Near(p, q) then 1 else 0
  {
    DistinctCount(s, q);
  }

  /** In a sequence without repeats every element occurs once. */
  lemma {:induction false} DistinctCount<T>(s: seq<T>, x: T)
    requires forall i, j :: 0 <= i < j < |s| ==> s[i] != s[j]
    ensures multiset(s)[x] == if x in s then 1 else 0
  {
    if s != [] {
      DistinctCount(s[1..], x);
      assert s == [s[0]] + s[1..];
      assert s[0] !in s[1..] by {
        forall k | 0 <= k < |s[1..]|
          ensures s[1..][k] != s[0]
        {
          assert s[1..][k] == s[k + 1];
        }
      }
    }
  }

  /** InBounds keeps every occurrence of a point inside the array and drops
      every other. */
  lemma {:induction false} InBoundsCount<T>(points: seq<Point>, a: array2<T>, q: Point)
    ensures multiset(InBounds(points, a))[q] == if PointIsValid(q, a) then multiset(points)[q] else 0
  {
    if points != [] {
      var init, last := points[..|points| - 1], points[|points| - 1];
      InBoundsCount(init, a, q);
      assert points == init + [last];
    }
  }

  // ---------------------------------------------------------------------
  // One step on values

  /** How many entries of s are cells of g in f. */
  function Flashing(s: seq<Point>, g: map<Point, int>, f: set<Point>): nat
  {
    if s == [] then 0
    else (if s[0] in g && s[0] in f then 1 else 0) + Flashing(s[1..], g, f)
  }

  /** The level of cell c once the step has raised it by one and each of its
      neighbours in f has flashed and raised it once more. */
  function Boosted(g: map<Point, int>, f: set<Point>, c: Point): int
    requires c in g
  {
    g[c] + 1 + Flashing(Neighbours(c), g, f)
  }

  /** The cells driven past 9 when the cells in f flash. */
  function Ignite(g: map<Point, int>, f: set<Point>): (r: set<Point>)
    ensures r <= g.Keys
  {
    set c | c in g && Boosted(g, f, c) > 9
  }

  /** f is closed under flashing: every cell it drives past 9 is in f. */
  ghost predicate Closed(g: map<Point, int>, f: set<Point>)
  {
    Ignite(g, f) <= f
  }

  /** The cells that have flashed after n rounds of the cascade, each round
      flashing every cell that the previous round drives past 9. */
  function Cascade(g: map<Point, int>, n: nat): (r: set<Point>)
    ensures r <= g.Keys
  {
    if n == 0 then {} else Ignite(g, Cascade(g, n - 1))
  }

  /** The cells that flash during one step: the cascade run for as many
      rounds as there are cells. */
  function Flashes(g: map<Point, int>): set<Point>
  {
    Cascade(g, |g|)
  }

  /** One step on values: a cell that flashes ends at 0, and every other
      cell rises by one and by one more per flashing neighbour. */
  function Step(g: map<Point, int>): map<Point, int>
  {
    var f := Flashes(g);
    map c | c in g :: if c in f then 0 else Boosted(g, f, c)
  }

  lemma {:induction false} FlashingNone(s: seq<Point>, g: map<Point, int>)
    ensures Flashing(s, g, {}) == 0
  {
    if s != [] {
      FlashingNone(s[1..], g);
    }
  }

  lemma {:induction false} FlashingMonotone(s: seq<Point>, g: map<Point, int>, f: set<Point>, h: set<Point>)
    requires f <= h
    ensures Flashing(s, g, f) <= Flashing(s, g, h)
  {
    if s != [] {
      FlashingMonotone(s[1..], g, f, h);
    }
  }

  /** One more flashing cell p adds one per occurrence of p in s. */
  lemma {:induction false} FlashingAdd(s: seq<Point>, g: map<Point, int>, f: set<Point>, p: Point)
    requires p !in f
    ensures Flashing(s, g, f + {p}) == Flashing(s, g, f) + (if p in g then multiset(s)[p] else 0)
  {
    if s != [] {
      FlashingAdd(s[1..], g, f, p);
      assert s == [s[0]] + s[1..];
    }
  }

  lemma SubsetCard<T>(a: set<T>, b: set<T>)
    requires a <= b
    ensures |a| <= |b|
    ensures a != b ==> |a| < |b|
  {
    assert b == a + (b - a);
    if a != b {
      var x :| x in b && x !in a;
    }
  }

  /** More flashing cells drive at least as many cells past 9. */
  lemma IgniteMonotone(g: map<Point, int>, f: set<Point>, h: set<Point>)
    requires f <= h
    ensures Ignite(g, f) <= Ignite(g, h)
  {
    forall c | c in g
      ensures Boosted(g, f, c) <= Boosted(g, h, c)
    {
      FlashingMonotone(Neighbours(c), g, f, h);
    }
  }

  lemma CascadeBelowStep(g: map<Point, int>, h: set<Point>, n: nat)
    requires Closed(g, h) && n > 0 && Cascade(g, n - 1) <= h
    ensures Cascade(g, n) <= h
  {
    IgniteMonotone(g, Cascade(g, n - 1), h);
  }

  /** Every round of the cascade stays inside every closed set. */
  lemma {:induction false} CascadeBelow(g: map<Point, int>, h: set<Point>, n: nat)
    requires Closed(g, h)
    ensures Cascade(g, n) <= h
  {
    if n > 0 {
      CascadeBelow(g, h, n - 1);
      CascadeBelowStep(g, h, n);
    }
  }

  lemma CascadeGrowsStep(g: map<Point, int>, n: nat)
    requires n > 0 && Cascade(g, n - 1) <= Cascade(g, n)
    ensures Cascade(g, n) <= Cascade(g, n + 1)
  {
    IgniteMonotone(g, Cascade(g, n - 1), Cascade(g, n));
  }

  /** Each round of the cascade only adds cells. */
  lemma {:induction false} CascadeGrows(g: map<Point, int>, n: nat)
    ensures Cascade(g, n) <= Cascade(g, n + 1)
  {
    if n > 0 {
      var k := n - 1;
      CascadeGrows(g, k);
      assert Cascade(g, k + 1) == Cascade(g, n);
      CascadeGrowsStep(g, n);
    }
  }

  /** After n rounds the cascade has settled or holds more than n cells. */
  lemma {:induction false} CascadeSettles(g: map<Point, int>, n: nat)
    ensures Cascade(g, n) == Cascade(g, n + 1) || |Cascade(g, n + 1)| >= n + 1
  {
    CascadeGrows(g, n);
    if n > 0 {
      CascadeSettles(g, n - 1);
      if Cascade(g, n - 1) == Cascade(g, n) {
        assert Cascade(g, n + 1) == Ignite(g, Cascade(g, n - 1));
      } else if Cascade(g, n) != Cascade(g, n + 1) {
        SubsetCard(Cascade(g, n), Cascade(g, n + 1));
      }
    } else if Cascade(g, 0) != Cascade(g, 1) {
      SubsetCard(Cascade(g, 0), Cascade(g, 1));
    }
  }

  /** The flashes of a step are closed under flashing, every one of them
      was driven past 9, and they lie inside every closed set: they are
      the least set closed under flashing, whatever order the cascade
      visits the cells in. */
  lemma FlashesLeast(g: map<Point, int>)
    ensures Ignite(g, Flashes(g)) == Flashes(g)
    ensures forall h :: Closed(g, h) ==> Flashes(g) <= h
  {
    CascadeSettles(g, |g|);
    SubsetCard(Cascade(g, |g| + 1), g.Keys);
    forall h | Closed(g, h)
      ensures Flashes(g) <= h
    {
      CascadeBelow(g, h, |g|);
    }
  }

  /** After a step every cell that flashed is 0 and every other cell has
      risen and is at most 9; a grid of digits stays a grid of digits, its
      zeros being exactly the flashes. */
  lemma StepMeaning(g: map<Point, int>)
    ensures Step(g).Keys == g.Keys
    ensures forall c :: c in g && c in Flashes(g) ==> Step(g)[c] == 0
    ensures forall c :: c in g && c !in Flashes(g) ==> g[c] < Step(g)[c] <= 9
    ensures (forall c :: c in g ==> 0 <= g[c] <= 9) ==>
      (forall c :: c in g ==> 0 <= Step(g)[c] <= 9) && (set c | c in g && Step(g)[c] == 0) == Flashes(g)
  {
    FlashesLeast(g);
  }

  // ---------------------------------------------------------------------
  // The cascade's bookkeeping, on values

  /** Every cell of L not flashed (not in fl) has the level the step gives
      it once the flashes in fl have raised it, less the raises still owed
      to it (debt): from the scan, and from flashes whose neighbours are
      not all raised yet. */
  ghost predicate Owed(L: map<Point, int>, fl: set<Point>, g: map<Point, int>, debt: multiset<Point>)
  {
    forall c :: c in L && c !in fl ==> c in g && L[c] + debt[c] == Boosted(g, fl, c)
  }

  /** Every cell not flashed that has risen from its level in g is at most 9. */
  ghost predicate Low(L: map<Point, int>, fl: set<Point>, g: map<Point, int>)
  {
    forall c :: c in L && c in g && c !in fl && L[c] > g[c] ==> L[c] <= 9
  }

  /** Closed, stated cell by cell: every cell the flashes of lfp drive past 9
      is in lfp. */
  ghost predicate Saturated(g: map<Point, int>, lfp: set<Point>)
  {
    forall c {:trigger Boosted(g, lfp, c)} :: c in g && Boosted(g, lfp, c) > 9 ==> c in lfp
  }

  lemma ClosedSaturated(g: map<Point, int>, lfp: set<Point>)
    requires Closed(g, lfp)
    ensures Saturated(g, lfp)
  {
    forall c | c in g && Boosted(g, lfp, c) > 9
      ensures c in lfp
    {
      assert c in Ignite(g, lfp);
    }
  }

  /** The invariant of the cascade started from grid g whose least set
      closed under flashing is lfp: levels L over the cells of g, flashes fl
      inside lfp, risen cells not flashed at most 9, and debt owed. */
  ghost predicate Cascading(L: map<Point, int>, fl: set<Point>, g: map<Point, int>, lfp: set<Point>,
                            debt: multiset<Point>)
  {
    L.Keys == g.Keys && Saturated(g, lfp) && fl <= lfp && Low(L, fl, g) && Owed(L, fl, g, debt)
  }

  /** From levels L0 and flashes fl0 to L1 and fl1 no level has dropped,
      and every cell flashed before is still flashed and kept its level. */
  ghost predicate Rises(L0: map<Point, int>, fl0: set<Point>, L1: map<Point, int>, fl1: set<Point>)
  {
    && L1.Keys == L0.Keys && fl0 <= fl1
    && forall c :: c in L0 ==> L1[c] >= L0[c] && (c in fl0 ==> L1[c] == L0[c])
  }

  /** A raise owed to a cell that has flashed is dropped. */
  lemma Skip(L: map<Point, int>, fl: set<Point>, g: map<Point, int>, lfp: set<Point>, debt: multiset<Point>, p: Point)
    requires Cascading(L, fl, g, lfp, debt) && p in fl
    ensures Cascading(L, fl, g, lfp, debt - multiset{p})
  {
  }

  lemma CardAdd<T>(s: set<T>, x: T)
    requires x !in s
    ensures |s + {x}| == |s| + 1
  {
  }

  lemma Shrinks<T>(all: set<T>, s: set<T>, x: T)
    requires x in all && x !in s
    ensures all - (s + {x}) < all - s
  {
    assert x in all - s;
  }

  lemma Cancel<T>(a: multiset<T>, b: multiset<T>)
    ensures a + b - b == a
  {
  }

  lemma Narrower<T>(all: set<T>, s: set<T>, t: set<T>, bound: set<T>)
    requires s <= t && all - s < bound
    ensures all - t < bound
  {
  }

  /** Paying the k-th of the raises listed in s, all of them owed. */
  lemma PayNext<T>(debt: multiset<T>, s: seq<T>, k: int)
    requires multiset(s) <= debt && 0 <= k < |s|
    ensures s[k] in debt - multiset(s[..k])
    ensures debt - multiset(s[..k]) - multiset{s[k]} == debt - multiset(s[..k + 1])
  {
    assert s[..k + 1] == s[..k] + [s[k]];
    assert s == s[..k + 1] + s[k + 1..];
  }

  lemma RisesTrans(L0: map<Point, int>, fl0: set<Point>, L1: map<Point, int>, fl1: set<Point>,
                   L2: map<Point, int>, fl2: set<Point>)
    requires Rises(L0, fl0, L1, fl1) && Rises(L1, fl1, L2, fl2)
    ensures Rises(L0, fl0, L2, fl2)
  {
  }

  /** Paying the raise owed to a cell not flashed: its level rises by one. */
  lemma Pay(L: map<Point, int>, fl: set<Point>, g: map<Point, int>, lfp: set<Point>, debt: multiset<Point>, p: Point)
    requires Cascading(L, fl, g, lfp, debt) && p in L && p !in fl && p in debt
    ensures Owed(L[p := L[p] + 1], fl, g, debt - multiset{p})
    ensures L[p] + 1 <= Boosted(g, fl, p)
    ensures Rises(L, fl, L[p := L[p] + 1], fl)
  {
  }

  /** A cell driven past 9 by the flashes inside lfp is itself in lfp. */
  lemma Justified(L: map<Point, int>, fl: set<Point>, g: map<Point, int>, lfp: set<Point>, p: Point)
    requires Saturated(g, lfp) && fl <= lfp && p in g && Boosted(g, fl, p) > 9
    ensures p in lfp
  {
    FlashingMonotone(Neighbours(p), g, fl, lfp);
    assert Boosted(g, lfp, p) > 9;
  }

  /** Once p has flashed, every cell near p is owed one more raise, which
      is what the flash adds to its level in the step. */
  lemma Ignited(L: map<Point, int>, fl: set<Point>, g: map<Point, int>, debt: multiset<Point>,
                p: Point, raises: multiset<Point>)
    requires Owed(L, fl, g, debt) && p !in fl && p in g
    requires forall c :: c in g ==> raises[c] == if Near(p, c) then 1 else 0
    ensures Owed(L, fl + {p}, g, debt + raises)
  {
    forall c | c in L && c !in fl + {p}
      ensures c in g && L[c] + (debt + raises)[c] == Boosted(g, fl + {p}, c)
    {
      FlashingAdd(Neighbours(c), g, fl, p);
      NeighbourCount(c, p);
      NearSymmetric(c, p);
    }
  }

  /** The ghost step of one RaiseEnergy on p not flashed: its level rises
      by one (L1) and, when that passes 9, it flashes and its neighbours are
      owed a raise each. */
  lemma ChargeStep(L: map<Point, int>, fl: set<Point>, g: map<Point, int>, lfp: set<Point>,
                   debt: multiset<Point>, p: Point, raises: multiset<Point>, L1: map<Point, int>)
    requires Cascading(L, fl, g, lfp, debt) && p in L && p !in fl && p in debt
    requires forall c :: c in g ==> raises[c] == if Near(p, c) then 1 else 0
    requires L1 == L[p := L[p] + 1]
    ensures L1[p] > 9 ==> Cascading(L1, fl + {p}, g, lfp, debt - multiset{p} + raises) && Rises(L, fl, L1, fl + {p})
    ensures L1[p] <= 9 ==> Cascading(L1, fl, g, lfp, debt - multiset{p}) && Rises(L, fl, L1, fl)
  {
    Pay(L, fl, g, lfp, debt, p);
    if L1[p] > 9 {
      Justified(L1, fl, g, lfp, p);
      Ignited(L1, fl, g, debt - multiset{p}, p, raises);
    }
  }

  /** The cells of g from (x, y) on in the scan order of the first pass,
      each still owed the raise of that pass. */
  ghost function Pending(g: map<Point, int>, x: int, y: int): multiset<Point>
  {
    multiset(set c | c in g && (c.x > x || (c.x == x && c.y >= y)))
  }

  lemma PendingStep(g: map<Point, int>, x: int, y: int)
    requires Point(x, y) in g
    ensures Point(x, y) in Pending(g, x, y)
    ensures Pending(g, x, y) - multiset{Point(x, y)} == Pending(g, x, y + 1)
  {
    var s := set c | c in g && (c.x > x || (c.x == x && c.y >= y));
    var t := set c | c in g && (c.x > x || (c.x == x && c.y >= y + 1));
    assert t == s - {Point(x, y)};
  }

  /** Every level of L is at least its level in g, and every cell before
      (x, y) in the scan order has flashed or risen. */
  ghost predicate RaisedUpTo(L: map<Point, int>, g: map<Point, int>, fl: set<Point>, x: int, y: int)
  {
    forall c :: c in g ==> c in L && L[c] >= g[c] && ((c.x < x || (c.x == x && c.y < y)) ==> c in fl || L[c] > g[c])
  }

  lemma RaisedStep(L: map<Point, int>, fl: set<Point>, L1: map<Point, int>, fl1: set<Point>,
                   g: map<Point, int>, x: int, y: int)
    requires RaisedUpTo(L, g, fl, x, y) && Rises(L, fl, L1, fl1)
    requires Point(x, y) in L && (Point(x, y) in fl1 || L1[Point(x, y)] > L[Point(x, y)])
    ensures RaisedUpTo(L1, g, fl1, x, y + 1)
  {
  }

  /** Past the last row of column x the scan goes on at column x + 1. */
  lemma PendingColumn(g: map<Point, int>, x: int, height: int)
    requires forall c :: c in g ==> 0 <= c.y < height
    ensures Pending(g, x, height) == Pending(g, x + 1, 0)
  {
    var s := set c | c in g && (c.x > x || (c.x == x && c.y >= height));
    var t := set c | c in g && (c.x > x + 1 || (c.x == x + 1 && c.y >= 0));
    assert s == t;
  }

  /** The cascade after the scan has reached (x, y). */
  ghost predicate Scanned(L: map<Point, int>, fl: set<Point>, g: map<Point, int>, lfp: set<Point>, x: int, y: int)
  {
    Cascading(L, fl, g, lfp, Pending(g, x, y)) && RaisedUpTo(L, g, fl, x, y)
  }

  /** RaiseEnergy on (x, y) moves the scan one cell on. */
  lemma ScanStep(L: map<Point, int>, fl: set<Point>, L1: map<Point, int>, fl1: set<Point>,
                 g: map<Point, int>, lfp: set<Point>, x: int, y: int)
    requires Scanned(L, fl, g, lfp, x, y) && Point(x, y) in g
    requires Cascading(L1, fl1, g, lfp, Pending(g, x, y) - multiset{Point(x, y)})
    requires Rises(L, fl, L1, fl1) && (Point(x, y) in fl1 || L1[Point(x, y)] > L[Point(x, y)])
    ensures Scanned(L1, fl1, g, lfp, x, y + 1)
  {
    PendingStep(g, x, y);
    RaisedStep(L, fl, L1, fl1, g, x, y);
  }

  /** Past the last row of column x the scan goes on at column x + 1. */
  lemma ScanNextColumn(L: map<Point, int>, fl: set<Point>, g: map<Point, int>, lfp: set<Point>, x: int, height: int)
    requires forall c :: c in g ==> 0 <= c.y < height
    requires Scanned(L, fl, g, lfp, x, height)
    ensures Scanned(L, fl, g, lfp, x + 1, 0)
  {
    PendingColumn(g, x, height);
  }

  /** At the start of the step nothing has flashed and every cell is owed
      the raise of the scan. */
  lemma Started(g: map<Point, int>, lfp: set<Point>)
    requires lfp == Flashes(g)
    requires forall c :: c in g ==> c.x >= 0 && c.y >= 0
    ensures Scanned(g, {}, g, lfp, 0, 0)
  {
    FlashesLeast(g);
    ClosedSaturated(g, lfp);
    forall c | c in g
      ensures g[c] + Pending(g, 0, 0)[c] == Boosted(g, {}, c)
    {
      FlashingNone(Neighbours(c), g);
      assert c in (set c | c in g && (c.x > 0 || (c.x == 0 && c.y >= 0)));
    }
  }

  lemma NothingPending(g: map<Point, int>, width: int)
    requires forall c :: c in g ==> c.x < width
    ensures Pending(g, width, 0) == multiset{}
  {
    assert (set c | c in g && (c.x > width || (c.x == width && c.y >= 0))) == {};
  }

  /** With nothing owed and every cell scanned, the flashes are closed
      under flashing and every other cell has its level in the step. */
  lemma ClosedAtEnd(L: map<Point, int>, fl: set<Point>, g: map<Point, int>, width: int)
    requires forall c :: c in g ==> c.x < width
    requires L.Keys == g.Keys && Low(L, fl, g) && Owed(L, fl, g, multiset{}) && RaisedUpTo(L, g, fl, width, 0)
    ensures Closed(g, fl)
    ensures forall c :: c in g && c !in fl ==> L[c] == Boosted(g, fl, c)
  {
    forall c | c in g && c !in fl
      ensures L[c] == Boosted(g, fl, c) <= 9
    {
    }
  }

  /** Once every column is scanned, the flashes are exactly those of the
      step, and every other cell has its level in the step. */
  lemma Settled(L: map<Point, int>, fl: set<Point>, g: map<Point, int>, lfp: set<Point>, width: int)
    requires lfp == Flashes(g) && forall c :: c in g ==> c.x < width
    requires Scanned(L, fl, g, lfp, width, 0)
    ensures fl == Flashes(g)
    ensures forall c :: c in g && c !in fl ==> L[c] == Boosted(g, fl, c)
    ensures Zeroed(L, fl) == Step(g)
  {
    NothingPending(g, width);
    ClosedAtEnd(L, fl, g, width);
    FlashesLeast(g);
    ZeroedStep(L, fl, g);
  }

  lemma ZeroedStep(L: map<Point, int>, fl: set<Point>, g: map<Point, int>)
    requires L.Keys == g.Keys && fl == Flashes(g)
    requires forall c :: c in g && c !in fl ==> L[c] == Boosted(g, fl, c)
    ensures Zeroed(L, fl) == Step(g)
  {
  }

  /** The levels L with every cell of fl back at 0. */
  ghost function Zeroed(L: map<Point, int>, fl: set<Point>): map<Point, int>
  {
    map c | c in L :: if c in fl then 0 else L[c]
  }

  // ---------------------------------------------------------------------
  // One step on the array

  /** The points inside the array. */
  ghost function Cells<T>(a: array2<T>): set<Point>
  {
    set i, j | 0 <= i < a.Length0 && 0 <= j < a.Length1 :: Point(i, j)
  }

  /** The levels of the array as a grid of values. */
  ghost function Grid(a: array2<int>): (g: map<Point, int>)
    reads a
    ensures forall p :: p in g <==> PointIsValid(p, a)
    ensures forall i, j :: 0 <= i < a.Length0 && 0 <= j < a.Length1 ==> Point(i, j) in g && g[Point(i, j)] == a[i, j]
  {
    map p | p in Cells(a) :: a[p.x, p.y]
  }

  /** The array holds the levels L. */
  ghost predicate Levels(a: array2<int>, L: map<Point, int>)
    reads a
  {
    && (forall p :: p in L <==> PointIsValid(p, a))
    && forall i, j {:trigger a[i, j]} :: 0 <= i < a.Length0 && 0 <= j < a.Length1 ==>
         Point(i, j) in L && L[Point(i, j)] == a[i, j]
  }

  lemma GridLevels(a: array2<int>, L: map<Point, int>)
    ensures Levels(a, L) <==> Grid(a) == L
  {
    if Levels(a, L) {
      forall p | p in L
        ensures Grid(a)[p] == L[p]
      {
        assert Point(p.x, p.y) == p;
      }
    }
  }

  /** The flash array marks exactly the cells of fl. */
  ghost predicate Marks(flashed: array2<bool>, fl: set<Point>)
    reads flashed
  {
    && (forall p :: p in fl ==> PointIsValid(p, flashed))
    && forall i, j {:trigger flashed[i, j]} :: 0 <= i < flashed.Length0 && 0 <= j < flashed.Length1 ==>
         (flashed[i, j] <==> Point(i, j) in fl)
  }

  /** The cells holding 0. */
  ghost function ZeroSet(a: array2<int>): set<Point>
    reads a
  {
    set i, j | 0 <= i < a.Length0 && 0 <= j < a.Length1 && a[i, j] == 0 :: Point(i, j)
  }

  /** Every level is between 0 and 9, as in a parsed puzzle input. */
  ghost predicate Digits(a: array2<int>)
    reads a
  {
    forall i, j :: 0 <= i < a.Length0 && 0 <= j < a.Length1 ==> 0 <= a[i, j] <= 9
  }

  /** The arrays hold the levels L and the flashes fl. */
  ghost predicate Holds(a: array2<int>, flashed: array2<bool>, L: map<Point, int>, fl: set<Point>)
    reads a, flashed
  {
    SameShape(a, flashed) && Levels(a, L) && Marks(flashed, fl)
  }

  /** The valid neighbours of p are the cells of g near p, each once. */
  lemma RaisesOf<T>(p: Point, a: array2<T>, g: map<Point, int>)
    requires forall c :: c in g <==> PointIsValid(c, a)
    ensures forall c :: c in g ==> multiset(InBounds(Neighbours(p), a))[c] == if Near(p, c) then 1 else 0
  {
    forall c | c in g
      ensures multiset(InBounds(Neighbours(p), a))[c] == if Near(p, c) then 1 else 0
    {
      InBoundsCount(Neighbours(p), a, c);
      NeighbourCount(p, c);
    }
  }

  /** Raises the level of p by one. */
  method Bump(a: array2<int>, p: Point, ghost L: map<Point, int>)
    requires PointIsValid(p, a) && Levels(a, L)
    modifies a
    ensures Levels(a, L[p := L[p] + 1]) && a[p.x, p.y] == L[p] + 1
  {
    a[p.x, p.y] := a[p.x, p.y] + 1;
  }

  /** Marks one unmarked cell: the flash set gains exactly that cell. */
  method Flag(flashed: array2<bool>, p: Point, ghost fl: set<Point>)
    requires PointIsValid(p, flashed) && Marks(flashed, fl) && !flashed[p.x, p.y]
    modifies flashed
    ensures Marks(flashed, fl + {p})
  {
    flashed[p.x, p.y] := true;
  }

  /** RaiseEnergy: a flashed cell is left alone; otherwise its level rises
      by one and, once above 9, it flashes, is counted, and raises each of
      its neighbours inside the map. In terms of the ghost levels L and
      flashes fl of the cascade started from grid g: the raise owed to p
      is paid, the invariant is kept, and p has flashed or risen. */
  method RaiseEnergy(p: Point, m: OctoMap, flashed: array2<bool>, flashCount: int,
                     ghost g: map<Point, int>, ghost lfp: set<Point>, ghost debt: multiset<Point>,
                     ghost L: map<Point, int>, ghost fl: set<Point>)
    returns (count: int, ghost L': map<Point, int>, ghost fl': set<Point>)
    requires PointIsValid(p, m.levels) && Holds(m.levels, flashed, L, fl)
    requires Cascading(L, fl, g, lfp, debt) && p in debt
    modifies m.levels, flashed
    decreases g.Keys - fl, 1
    ensures Holds(m.levels, flashed, L', fl') && Cascading(L', fl', g, lfp, debt - multiset{p})
    ensures Rises(L, fl, L', fl') && (p in fl' || L'[p] > L[p])
    ensures count - |fl'| == flashCount - |fl|
  {
    count, L', fl' := flashCount, L, fl;
    if flashed[p.x, p.y] {
      Skip(L, fl, g, lfp, debt, p);
      return;
    }
    var flashes;
    flashes, L', fl' := Charge(p, m.levels, flashed, g, lfp, debt, L, fl);
    if flashes {
      count := count + 1;
      var nextPoints := GetValidAdjacentPoints(p, m.levels);
      ghost var owed := debt - multiset{p} + multiset(nextPoints);
      ghost var L1, fl1 := L', fl';
      CardAdd(fl, p);
      Shrinks(g.Keys, fl, p);
      count, L', fl' := RaiseNeighbours(nextPoints, m, flashed, count, g, lfp, owed, L1, fl1, g.Keys - fl);
      Cancel(debt - multiset{p}, multiset(nextPoints));
      RisesTrans(L, fl, L1, fl1, L', fl');
    }
  }

  /** The first half of RaiseEnergy on a cell not yet flashed: its level
      rises by one and, once above 9, the cell is marked as flashed and
      each of its neighbours inside the array is owed a raise. */
  method Charge(p: Point, a: array2<int>, flashed: array2<bool>,
                ghost g: map<Point, int>, ghost lfp: set<Point>, ghost debt: multiset<Point>,
                ghost L: map<Point, int>, ghost fl: set<Point>)
    returns (flashes: bool, ghost L': map<Point, int>, ghost fl': set<Point>)
    requires PointIsValid(p, a) && Holds(a, flashed, L, fl) && !flashed[p.x, p.y]
    requires Cascading(L, fl, g, lfp, debt) && p in debt
    modifies a, flashed
    ensures Holds(a, flashed, L', fl')
    ensures L' == L[p := L[p] + 1] && (flashes <==> L'[p] > 9)
    ensures flashes ==> fl' == fl + {p} && Cascading(L', fl', g, lfp, debt - multiset{p} + multiset(InBounds(Neighbours(p), a)))
    ensures !flashes ==> fl' == fl && Cascading(L', fl', g, lfp, debt - multiset{p})
    ensures Rises(L, fl, L', fl')
  {
    L' := L[p := L[p] + 1];
    RaisesOf(p, a, g);
    ChargeStep(L, fl, g, lfp, debt, p, multiset(InBounds(Neighbours(p), a)), L');
    Bump(a, p, L);
    flashes := a[p.x, p.y] > 9;
    fl' := fl;
    if flashes {
      Flag(flashed, p, fl);
      fl' := fl + {p};
    }
  }

  /** The foreach loop of RaiseEnergy over the neighbours of a cell that has
      just flashed, paying the raise owed to each; bound is what was
      unflashed before that flash. */
  method RaiseNeighbours(nextPoints: seq<Point>, m: OctoMap, flashed: array2<bool>, flashCount: int,
                         ghost g: map<Point, int>, ghost lfp: set<Point>, ghost debt: multiset<Point>,
                         ghost L: map<Point, int>, ghost fl: set<Point>, ghost bound: set<Point>)
    returns (count: int, ghost L': map<Point, int>, ghost fl': set<Point>)
    requires forall k :: 0 <= k < |nextPoints| ==> PointIsValid(nextPoints[k], m.levels)
    requires Holds(m.levels, flashed, L, fl) && g.Keys - fl < bound
    requires Cascading(L, fl, g, lfp, debt) && multiset(nextPoints) <= debt
    modifies m.levels, flashed
    decreases bound, 0
    ensures Holds(m.levels, flashed, L', fl') && Cascading(L', fl', g, lfp, debt - multiset(nextPoints))
    ensures Rises(L, fl, L', fl')
    ensures count - |fl'| == flashCount - |fl|
  {
    count, L', fl' := flashCount, L, fl;
    var k := 0;
    while k < |nextPoints|
      invariant 0 <= k <= |nextPoints|
      invariant Holds(m.levels, flashed, L', fl') && Cascading(L', fl', g, lfp, debt - multiset(nextPoints[..k]))
      invariant Rises(L, fl, L', fl')
      invariant count - |fl'| == flashCount - |fl|
    {
      PayNext(debt, nextPoints, k);
      ghost var L1, fl1 := L', fl';
      Narrower(g.Keys, fl, fl1, bound);
      count, L', fl' := RaiseEnergy(nextPoints[k], m, flashed, count, g, lfp, debt - multiset(nextPoints[..k]), L1, fl1);
      RisesTrans(L, fl, L1, fl1, L', fl');
      k := k + 1;
    }
    assert nextPoints[..k] == nextPoints;
  }

  /** The inner loop of the first pass of GetNextStep: RaiseEnergy on every
      cell of column x. */
  method RaiseColumn(x: int, m: OctoMap, flashed: array2<bool>, flashCount: int,
                     ghost g: map<Point, int>, ghost lfp: set<Point>, ghost L: map<Point, int>, ghost fl: set<Point>)
    returns (count: int, ghost L': map<Point, int>, ghost fl': set<Point>)
    requires 0 <= x < m.levels.Length0 && Holds(m.levels, flashed, L, fl)
    requires Scanned(L, fl, g, lfp, x, 0) && flashCount == |fl|
    modifies m.levels, flashed
    ensures Holds(m.levels, flashed, L', fl') && Scanned(L', fl', g, lfp, x + 1, 0) && count == |fl'|
  {
    count, L', fl' := flashCount, L, fl;
    var y := 0;
    while y < m.levels.Length1
      invariant 0 <= y <= m.levels.Length1
      invariant Holds(m.levels, flashed, L', fl') && Scanned(L', fl', g, lfp, x, y) && count == |fl'|
    {
      var currentPoint := Point(x, y);
      ghost var L1, fl1 := L', fl';
      assert currentPoint in L1;
      PendingStep(g, x, y);
      count, L', fl' := RaiseEnergy(currentPoint, m, flashed, count, g, lfp, Pending(g, x, y), L1, fl1);
      ScanStep(L1, fl1, L', fl', g, lfp, x, y);
      y := y + 1;
    }
    ScanNextColumn(L', fl', g, lfp, x, m.levels.Length1);
  }

  /** The second pass of GetNextStep: every flashed cell goes back to 0. */
  method ResetFlashed(a: array2<int>, flashed: array2<bool>, ghost L: map<Point, int>, ghost fl: set<Point>)
    requires SameShape(a, flashed) && Levels(a, L) && Marks(flashed, fl)
    modifies a
    ensures forall i, j :: 0 <= i < a.Length0 && 0 <= j < a.Length1 ==>
      a[i, j] == if flashed[i, j] then 0 else old(a[i, j])
    ensures Levels(a, Zeroed(L, fl))
  {
    var x := 0;
    while x < a.Length0
      invariant 0 <= x <= a.Length0
      invariant forall i, j :: 0 <= i < a.Length0 && 0 <= j < a.Length1 ==>
        a[i, j] == if i < x && flashed[i, j] then 0 else old(a[i, j])
    {
      var y := 0;
      while y < a.Length1
        invariant 0 <= y <= a.Length1
        invariant forall i, j :: 0 <= i < a.Length0 && 0 <= j < a.Length1 ==>
          a[i, j] == if (i < x || (i == x && j < y)) && flashed[i, j] then 0 else old(a[i, j])
      {
        if flashed[x, y] {
          a[x, y] := 0;
        }
        y := y + 1;
      }
      x := x + 1;
    }
  }

  /** GetNextStep: one step on a copy of the map, which the step leaves
      untouched. The result is Step of the original levels and the count
      is the number of its flashes, whatever order the cascade takes;
      every cell of the result is 0 or has risen, and on a map of digits
      the result is again a map of digits whose zeros are the flashes. */
  method GetNextStep(m: OctoMap) returns (nextMap: OctoMap, flashCount: int)
    ensures fresh(nextMap) && fresh(nextMap.levels) && SameShape(nextMap.levels, m.levels)
    ensures forall i, j :: 0 <= i < m.levels.Length0 && 0 <= j < m.levels.Length1 ==>
      m.levels[i, j] == old(m.levels[i, j])
    ensures Grid(nextMap.levels) == Step(Grid(m.levels))
    ensures flashCount == |Flashes(Grid(m.levels))|
    ensures forall i, j :: 0 <= i < m.levels.Length0 && 0 <= j < m.levels.Length1 ==>
      nextMap.levels[i, j] == 0 || nextMap.levels[i, j] > m.levels[i, j]
    ensures Digits(m.levels) ==> Digits(nextMap.levels) && flashCount == |ZeroSet(nextMap.levels)|
  {
    ghost var g := Grid(m.levels);
    nextMap := m.Copy();
    var hasFlashed := new bool[nextMap.levels.Length0, nextMap.levels.Length1]((i, j) => false);
    assert Grid(nextMap.levels) == g;
    GridLevels(nextMap.levels, g);
    ghost var L, fl;
    flashCount, L, fl := RaiseAll(nextMap, hasFlashed, g);
    ResetFlashed(nextMap.levels, hasFlashed, L, fl);
    GridLevels(nextMap.levels, Step(g));
    StepOnArray(m.levels, nextMap.levels);
  }

  /** The first pass of GetNextStep, column by column over the copied
      levels of grid g with nothing flashed yet: the flashes are those of
      the step, and clearing them leaves Step(g). */
  method RaiseAll(m: OctoMap, flashed: array2<bool>, ghost g: map<Point, int>)
    returns (flashCount: int, ghost L: map<Point, int>, ghost fl: set<Point>)
    requires Holds(m.levels, flashed, g, {})
    modifies m.levels, flashed
    ensures Holds(m.levels, flashed, L, fl)
    ensures fl == Flashes(g) && Zeroed(L, fl) == Step(g) && flashCount == |fl|
  {
    ghost var lfp := Flashes(g);
    Started(g, lfp);
    flashCount, L, fl := 0, g, {};
    var x := 0;
    while x < m.levels.Length0
      invariant 0 <= x <= m.levels.Length0
      invariant Holds(m.levels, flashed, L, fl)
      invariant Scanned(L, fl, g, lfp, x, 0) && flashCount == |fl|
    {
      flashCount, L, fl := RaiseColumn(x, m, flashed, flashCount, g, lfp, L, fl);
      x := x + 1;
    }
    Settled(L, fl, g, lfp, x);
  }

  /** What StepMeaning says of a grid, read on arrays holding it. */
  lemma StepOnArray(a: array2<int>, b: array2<int>)
    requires SameShape(a, b) && Grid(b) == Step(Grid(a))
    ensures forall i, j :: 0 <= i < a.Length0 && 0 <= j < a.Length1 ==> b[i, j] == 0 || b[i, j] > a[i, j]
    ensures Digits(a) ==> Digits(b) && ZeroSet(b) == Flashes(Grid(a))
  {
    var g := Grid(a);
    StepMeaning(g);
    forall i, j | 0 <= i < a.Length0 && 0 <= j < a.Length1
      ensures b[i, j] == Step(g)[Point(i, j)] && a[i, j] == g[Point(i, j)]
    {
    }
    if Digits(a) {
      StepDigits(a, b, g);
    }
  }

  lemma StepDigits(a: array2<int>, b: array2<int>, g: map<Point, int>)
    requires SameShape(a, b) && g == Grid(a) && Grid(b) == Step(g) && Digits(a)
    requires forall i, j :: 0 <= i < a.Length0 && 0 <= j < a.Length1 ==> b[i, j] == Step(g)[Point(i, j)]
    requires (forall c :: c in g ==> 0 <= Step(g)[c] <= 9) && (set c | c in g && Step(g)[c] == 0) == Flashes(g)
    ensures Digits(b) && ZeroSet(b) == Flashes(g)
  {
    assert ZeroSet(b) == set c | c in g && Step(g)[c] == 0;
  }
}
