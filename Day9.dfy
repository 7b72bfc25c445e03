/** Smoke basin: a height map, its low points, and the basin around each
    low point, grown by a flood fill from an explicit stack. */
module Day9 {
  import opened Common

  datatype Coord = Coord(x: int, y: int)

  /** The height map, an int[height, width]. */
  class Data {
    var heightMap: array2<int>

    constructor (width: nat, height: nat)
      ensures fresh(heightMap)
      ensures heightMap.Length0 == height && heightMap.Length1 == width
    {
      heightMap := new int[height, width];
    }

    function GetHeight(): int
      reads this
    {
      heightMap.Length0
    }

    function GetWidth(): int
      reads this
    {
      heightMap.Length1
    }

    predicate IsValid(coord: Coord)
      reads this
    {
      0 <= coord.x < GetWidth() && 0 <= coord.y < GetHeight()
    }

    /** The height at a coordinate; indexing outside the map throws, and
        every caller checks IsValid first. */
    function GetValue(coord: Coord): int
      requires IsValid(coord)
      reads this, heightMap
    {
      heightMap[coord.y, coord.x]
    }

    /** Every coordinate of the map. */
    function AllCells(): set<Coord>
      reads this
    {
      set x, y | 0 <= x < GetWidth() && 0 <= y < GetHeight() :: Coord(x, y)
    }
  }

  /** GetAdjacentPoints: left, right, up and down. */
  function GetAdjacentPoints(point: Coord): seq<Coord>
  {
    [Coord(point.x - 1, point.y), Coord(point.x + 1, point.y), Coord(point.x, point.y - 1), Coord(point.x, point.y + 1)]
  }

  /** The adjacent points are the four at distance one, each listed once. */
  lemma AdjacentMeaning(point: Coord)
    ensures |GetAdjacentPoints(point)| == 4
    ensures forall q :: q in GetAdjacentPoints(point) <==> Abs(q.x - point.x) + Abs(q.y - point.y) == 1
    ensures forall i, j :: 0 <= i < j < 4 ==> GetAdjacentPoints(point)[i] != GetAdjacentPoints(point)[j]
  {
  }

  /** The listed coordinates that lie inside the map, in order. */
  function ValidPoints(data: Data, points: seq<Coord>): (r: seq<Coord>)
    reads data
    ensures forall i :: 0 <= i < |r| ==> data.IsValid(r[i])
  {
    if points == [] then []
    else
      ValidPoints(data, points[..|points| - 1])
        + (if data.IsValid(points[|points| - 1]) then [points[|points| - 1]] else [])
  }

  /** The kept points are those of the list inside the map. */
  lemma {:induction false} ValidPointsMeaning(data: Data, points: seq<Coord>)
    ensures forall q :: q in ValidPoints(data, points) <==> q in points && data.IsValid(q)
  {
    if points != [] {
      ValidPointsMeaning(data, points[..|points| - 1]);
      assert forall q :: q in points <==> q in points[..|points| - 1] || q == points[|points| - 1];
    }
  }

  // ---------------------------------------------------------------------
  // Low points

  /** Every listed point inside the map is higher than the given height. */
  predicate AllHigher(data: Data, points: seq<Coord>, height: int)
    requires forall i :: 0 <= i < |points| ==> data.IsValid(points[i])
    reads data, data.heightMap
  {
    points == [] || (data.GetValue(points[0]) > height && AllHigher(data, points[1..], height))
  }

  lemma {:induction false} AllHigherMeaning(data: Data, points: seq<Coord>, height: int)
    requires forall i :: 0 <= i < |points| ==> data.IsValid(points[i])
    ensures AllHigher(data, points, height) <==> forall p :: p in points ==> data.GetValue(p) > height
  {
    if points != [] {
      AllHigherMeaning(data, points[1..], height);
      assert forall p :: p in points <==> p == points[0] || p in points[1..];
    }
  }

  /** IsLowPoint: every neighbour inside the map is strictly higher. */
  predicate IsLowPoint(data: Data, coord: Coord)
    requires data.IsValid(coord)
    reads data, data.heightMap
  {
    AllHigher(data, ValidPoints(data, GetAdjacentPoints(coord)), data.GetValue(coord))
  }

  /** A low point is lower than each of its neighbours inside the map. */
  lemma LowPointMeaning(data: Data, coord: Coord)
    requires data.IsValid(coord)
    ensures IsLowPoint(data, coord) <==>
      forall q :: data.IsValid(q) && Abs(q.x - coord.x) + Abs(q.y - coord.y) == 1 ==> data.GetValue(q) > data.GetValue(coord)
  {
    AdjacentMeaning(coord);
    ValidPointsMeaning(data, GetAdjacentPoints(coord));
    AllHigherMeaning(data, ValidPoints(data, GetAdjacentPoints(coord)), data.GetValue(coord));
  }

  /** The low points of the whole map. */
  ghost function LowSet(data: Data): iset<Coord>
    reads data, data.heightMap
  {
    iset c | data.IsValid(c) && IsLowPoint(data, c)
  }

  /** The points of low in row y with x below n, left to right. */
  ghost function LowPointsInRow(low: iset<Coord>, y: int, n: int): seq<Coord>
    decreases n
  {
    if n <= 0 then []
    else LowPointsInRow(low, y, n - 1) + (if Coord(n - 1, y) in low then [Coord(n - 1, y)] else [])
  }

  /** The points of low in the rows above m, row by row. */
  ghost function LowPointsAbove(low: iset<Coord>, width: int, m: int): seq<Coord>
    decreases m
  {
    if m <= 0 then [] else LowPointsAbove(low, width, m - 1) + LowPointsInRow(low, m - 1, width)
  }

  /** GetLowPoints: every row top to bottom, every column left to right. */
  method GetLowPoints(data: Data) returns (lowPoints: seq<Coord>)
    ensures lowPoints == LowPointsAbove(LowSet(data), data.GetWidth(), data.GetHeight())
  {
    lowPoints := [];
    var y := 0;
    while y < data.GetHeight()
      invariant 0 <= y <= data.GetHeight()
      invariant lowPoints == LowPointsAbove(LowSet(data), data.GetWidth(), y)
    {
      lowPoints := ScanRow(data, y, lowPoints);
      y := y + 1;
    }
  }

  /** The inner loop of GetLowPoints: one row, left to right. */
  method ScanRow(data: Data, y: int, found: seq<Coord>) returns (lowPoints: seq<Coord>)
    requires 0 <= y < data.GetHeight()
    ensures lowPoints == found + LowPointsInRow(LowSet(data), y, data.GetWidth())
  {
    lowPoints := found;
    var x := 0;
    while x < data.GetWidth()
      invariant 0 <= x <= data.GetWidth()
      invariant lowPoints == found + LowPointsInRow(LowSet(data), y, x)
    {
      var testPoint := Coord(x, y);
      assert testPoint in LowSet(data) <==> IsLowPoint(data, testPoint);
      if IsLowPoint(data, testPoint) {
        lowPoints := lowPoints + [testPoint];
      }
      x := x + 1;
    }
  }

  /** Row-major order: by row, then by column. */
  predicate Before(a: Coord, b: Coord)
  {
    a.y < b.y || (a.y == b.y && a.x < b.x)
  }

  /** Strictly increasing in row-major order (so also without repeats). */
  predicate Ordered(s: seq<Coord>)
  {
    forall i, j :: 0 <= i < j < |s| ==> Before(s[i], s[j])
  }

  /** Appending points that all come after every earlier point keeps the
      order. */
  lemma AppendOrdered(a: seq<Coord>, b: seq<Coord>)
    requires Ordered(a) && Ordered(b)
    requires forall p, q :: p in a && q in b ==> Before(p, q)
    ensures Ordered(a + b)
  {
    forall i, j | 0 <= i < j < |a + b| ensures Before((a + b)[i], (a + b)[j]) {
      if i < |a| <= j {
        assert a[i] in a && b[j - |a|] in b;
      }
    }
  }

  /** Appending one more point after the earlier ones, which all lie to its
      left in the same row. */
  lemma AppendColumn(prev: seq<Coord>, tail: seq<Coord>, low: iset<Coord>, y: int, n: int)
    requires 0 < n
    requires forall c :: c in prev <==> c in low && c.y == y && 0 <= c.x < n - 1
    requires Ordered(prev)
    requires tail == if Coord(n - 1, y) in low then [Coord(n - 1, y)] else []
    ensures forall c :: c in prev + tail <==> c in low && c.y == y && 0 <= c.x < n
    ensures Ordered(prev + tail)
  {
    forall c ensures c in prev + tail <==> c in prev || c in tail {
    }
    forall p, q | p in prev && q in tail ensures Before(p, q) {
    }
    AppendOrdered(prev, tail);
  }

  /** Appending the points of row y after those of the rows above it. */
  lemma AppendRow(above: seq<Coord>, row: seq<Coord>, low: iset<Coord>, y: int, width: int)
    requires 0 <= y
    requires forall c :: c in above <==> c in low && 0 <= c.y < y
    requires forall c :: c in row <==> c in low && c.y == y && 0 <= c.x < width
    requires forall c :: c in low ==> 0 <= c.x < width
    requires Ordered(above) && Ordered(row)
    ensures forall c :: c in above + row <==> c in low && 0 <= c.y <= y
    ensures Ordered(above + row)
  {
    forall c ensures c in above + row <==> c in above || c in row {
    }
    forall p, q | p in above && q in row ensures Before(p, q) {
    }
    AppendOrdered(above, row);
  }

  /** The row lists the points of low in row y left of n, in strictly
      increasing column order. */
  lemma {:induction false} LowPointsInRowMeaning(low: iset<Coord>, y: int, n: int)
    ensures forall c :: c in LowPointsInRow(low, y, n) <==> c in low && c.y == y && 0 <= c.x < n
    ensures Ordered(LowPointsInRow(low, y, n))
    decreases n
  {
    if n > 0 {
      LowPointsInRowMeaning(low, y, n - 1);
      AppendColumn(LowPointsInRow(low, y, n - 1), if Coord(n - 1, y) in low then [Coord(n - 1, y)] else [], low, y, n);
    }
  }

  /** The rows above m list the points of low above m, in row-major order,
      when every point of low lies in a column below width. */
  lemma {:induction false} LowPointsAboveMeaning(low: iset<Coord>, width: int, m: int)
    requires forall c :: c in low ==> 0 <= c.x < width
    ensures forall c :: c in LowPointsAbove(low, width, m) <==> c in low && 0 <= c.y < m
    ensures Ordered(LowPointsAbove(low, width, m))
    decreases m
  {
    if m > 0 {
      LowPointsAboveMeaning(low, width, m - 1);
      LowPointsInRowMeaning(low, m - 1, width);
      AppendRow(LowPointsAbove(low, width, m - 1), LowPointsInRow(low, m - 1, width), low, m - 1, width);
    }
  }

  /** GetLowPoints returns exactly the low points of the map, each once,
      in row-major order. */
  lemma LowPointsMeaning(data: Data)
    ensures forall c :: c in LowPointsAbove(LowSet(data), data.GetWidth(), data.GetHeight()) <==> data.IsValid(c) && IsLowPoint(data, c)
    ensures Ordered(LowPointsAbove(LowSet(data), data.GetWidth(), data.GetHeight()))
  {
    LowPointsAboveMeaning(LowSet(data), data.GetWidth(), data.GetHeight());
  }

  // ---------------------------------------------------------------------
  // The basin set

  /** Keyify: the coordinate printed as "X:Y". */
  function Keyify(coord: Coord): string
  {
    IntToString(coord.x) + ":" + IntToString(coord.y)
  }

  lemma IntToStringNoColon(i: int)
    ensures ':' !in IntToString(i)
  {
    var n := NatToString(if i < 0 then -i else i);
    assert AllDigits(n);
    assert forall k :: 0 <= k < |n| ==> n[k] != ':';
  }

  /** A printed integer starts with '-' exactly when it is negative. */
  lemma IntToStringSign(i: int)
    ensures |IntToString(i)| > 0
    ensures IntToString(i)[0] == '-' <==> i < 0
  {
    var n := NatToString(if i < 0 then -i else i);
    assert IsDigit(n[0]);
  }

  /** Printed integers are distinct for distinct integers. */
  lemma IntToStringInjective(a: int, b: int)
    requires IntToString(a) == IntToString(b)
    ensures a == b
  {
    IntToStringSign(a);
    IntToStringSign(b);
    var na := NatToString(if a < 0 then -a else a);
    var nb := NatToString(if b < 0 then -b else b);
    if a < 0 {
      assert IntToString(a)[1..] == na && IntToString(b)[1..] == nb;
    }
    assert DigitsValue(na) == DigitsValue(nb);
  }

  /** The position of the first ':' (the length when there is none). */
  function FirstColon(s: string): nat
  {
    if s == [] then 0 else if s[0] == ':' then 0 else 1 + FirstColon(s[1..])
  }

  lemma {:induction false} FirstColonAfter(s: string, t: string)
    requires ':' !in s
    ensures FirstColon(s + ":" + t) == |s|
  {
    if s != [] {
      assert (s + ":" + t)[1..] == s[1..] + ":" + t;
      FirstColonAfter(s[1..], t);
    }
  }

  /** Two coordinates have the same key only when they are equal. */
  lemma KeyifyInjective(a: Coord, b: Coord)
    ensures Keyify(a) == Keyify(b) <==> a == b
  {
    if Keyify(a) == Keyify(b) {
      var sx, sy, tx, ty := IntToString(a.x), IntToString(a.y), IntToString(b.x), IntToString(b.y);
      IntToStringNoColon(a.x);
      IntToStringNoColon(b.x);
      FirstColonAfter(sx, sy);
      FirstColonAfter(tx, ty);
      assert sx == Keyify(a)[..|sx|] && tx == Keyify(b)[..|tx|];
      assert sy == Keyify(a)[|sx| + 1..] && ty == Keyify(b)[|tx| + 1..];
      IntToStringInjective(a.x, b.x);
      IntToStringInjective(a.y, b.y);
    }
  }

  /** The Dictionary<string, Coord> of visited coordinates, keyed by
      Keyify; the ghost field holds the coordinates themselves. */
  class Basin {
    var visited: map<string, Coord>
    ghost var cells: set<Coord>

    /** Every entry sits under its own key, and the keys are those of the
        cells. */
    ghost predicate Valid()
      reads this
    {
      && (forall k {:trigger visited[k]} :: k in visited ==> k == Keyify(visited[k]))
      && (forall c {:trigger Keyify(c)} :: c in cells <==> Keyify(c) in visited)
    }

    /** The constructor adds the starting point. */
    constructor (point: Coord)
      ensures Valid() && cells == {point}
    {
      visited := map[Keyify(point) := point];
      cells := {point};
      new;
      forall c ensures c in cells <==> Keyify(c) in visited {
        KeyifyInjective(c, point);
      }
    }

    /** Contains: the key of the coordinate is present, that is, the
        coordinate is in the basin. */
    function Contains(coord: Coord): (r: bool)
      requires Valid()
      reads this
      ensures r <==> coord in cells
    {
      Keyify(coord) in visited
    }

    /** Add: false, changing nothing, when the coordinate is present;
        otherwise inserts it under its key and returns true. */
    method Add(coord: Coord) returns (added: bool)
      requires Valid()
      modifies this
      ensures Valid()
      ensures added <==> coord !in old(cells)
      ensures cells == old(cells) + {coord}
      ensures visited == if added then old(visited)[Keyify(coord) := coord] else old(visited)
    {
      if Keyify(coord) in visited {
        return false;
      }
      visited := visited[Keyify(coord) := coord];
      cells := cells + {coord};
      forall c ensures c in cells <==> Keyify(c) in visited {
        KeyifyInjective(c, coord);
      }
      return true;
    }
  }

  // ---------------------------------------------------------------------
  // Growing a basin

  /** A cell the flood fill may enter: inside the map and not of height 9. */
  ghost predicate Open(data: Data, c: Coord)
    reads data, data.heightMap
  {
    data.IsValid(c) && data.GetValue(c) != 9
  }

  /** A walk from one cell to another through open cells, one step to a
      neighbour at a time (the start itself need not be open). */
  ghost predicate IsPath(data: Data, from: Coord, to: Coord, p: seq<Coord>)
    reads data, data.heightMap
  {
    && |p| >= 1 && p[0] == from && p[|p| - 1] == to
    && forall i :: 0 < i < |p| ==> Open(data, p[i]) && p[i] in GetAdjacentPoints(p[i - 1])
  }

  ghost predicate Reachable(data: Data, from: Coord, to: Coord)
    reads data, data.heightMap
  {
    exists p :: IsPath(data, from, to, p)
  }

  /** Every open neighbour of c is in s. */
  ghost predicate Settled(data: Data, s: set<Coord>, c: Coord)
    reads data, data.heightMap
  {
    forall n :: n in GetAdjacentPoints(c) && Open(data, n) ==> n in s
  }

  /** s is closed under open neighbours. (The trigger keeps the solver from
      unfolding Settled for every cell it learns is in s.) */
  ghost predicate Closed(data: Data, s: set<Coord>)
    reads data, data.heightMap
  {
    forall c {:trigger Settled(data, s, c)} :: c in s ==> Settled(data, s, c)
  }

  /** Every cell of s, except those still on the stack, is settled. */
  ghost predicate SettledBut(data: Data, s: set<Coord>, stack: seq<Coord>)
    reads data, data.heightMap
  {
    forall c {:trigger Settled(data, s, c)} :: c in s && c !in stack ==> Settled(data, s, c)
  }

  /** A set closed under open neighbours holds every cell reachable from
      any of its cells. */
  lemma {:induction false} ClosedHoldsReachable(data: Data, s: set<Coord>, from: Coord, to: Coord, p: seq<Coord>)
    requires Closed(data, s) && from in s && IsPath(data, from, to, p)
    ensures to in s
    decreases |p|
  {
    if |p| > 1 {
      var q := p[..|p| - 1];
      assert IsPath(data, from, p[|p| - 2], q);
      ClosedHoldsReachable(data, s, from, p[|p| - 2], q);
      assert Settled(data, s, p[|p| - 2]);
    }
  }

  /** A reachable cell's open neighbour is reachable. */
  lemma ReachStep(data: Data, from: Coord, c: Coord, n: Coord)
    requires Reachable(data, from, c) && n in GetAdjacentPoints(c) && Open(data, n)
    ensures Reachable(data, from, n)
  {
    var p :| IsPath(data, from, c, p);
    assert IsPath(data, from, n, p + [n]);
  }

  /** The basin invariant: the start is in, every cell is reachable and,
      but for the start, open. */
  ghost predicate Sound(data: Data, lowPoint: Coord, cells: set<Coord>)
    reads data, data.heightMap
  {
    && lowPoint in cells
    && (forall c {:trigger Reachable(data, lowPoint, c)} :: c in cells ==> Reachable(data, lowPoint, c))
    && (forall c :: c in cells ==> c == lowPoint || Open(data, c))
  }

  /** After a popped cell's neighbours are visited, every cell off the
      stack is still settled. */
  lemma FillStep(data: Data, oldStack: seq<Coord>, next: Coord, popped: seq<Coord>, stack: seq<Coord>,
                 before: set<Coord>, after: set<Coord>)
    requires |oldStack| > 0 && next == oldStack[|oldStack| - 1] && popped == oldStack[..|oldStack| - 1]
    requires SettledBut(data, before, oldStack) && before <= after
    requires Settled(data, after, next) && popped <= stack
    requires forall c :: c in after ==> c in before || c in stack
    ensures SettledBut(data, after, stack)
  {
    forall c | c in after && c !in stack ensures Settled(data, after, c) {
      if c != next {
        assert c in before;
        assert oldStack == popped + [next];
        assert forall i :: 0 <= i < |popped| ==> popped[i] == stack[i];
        assert c !in oldStack;
        assert Settled(data, before, c);
      }
    }
  }

  /** What is left to fill shrinks as soon as the basin grows. */
  lemma FillShrinks(all: set<Coord>, before: set<Coord>, after: set<Coord>)
    requires before <= after <= all
    ensures all - after <= all - before
    ensures after != before ==> all - after < all - before
  {
    if after != before {
      var added :| added in after && added !in before;
      assert added in all - before;
    }
  }

  /** Adding a reachable open cell keeps the basin sound. */
  lemma SoundAdd(data: Data, lowPoint: Coord, cells: set<Coord>, next: Coord, c: Coord)
    requires Sound(data, lowPoint, cells) && next in cells
    requires c in GetAdjacentPoints(next) && Open(data, c)
    ensures Sound(data, lowPoint, cells + {c})
  {
    assert Reachable(data, lowPoint, next);
    ReachStep(data, lowPoint, next, c);
  }

  /** Once every open point of the filtered neighbours is in s, the popped
      coordinate is settled. */
  lemma SettledByVisit(data: Data, s: set<Coord>, next: Coord, validTestPoints: seq<Coord>)
    requires validTestPoints == ValidPoints(data, GetAdjacentPoints(next))
    requires forall m :: 0 <= m < |validTestPoints| && Open(data, validTestPoints[m]) ==> validTestPoints[m] in s
    ensures Settled(data, s, next)
  {
    ValidPointsMeaning(data, GetAdjacentPoints(next));
    forall n | n in GetAdjacentPoints(next) && Open(data, n) ensures n in s {
      var m :| 0 <= m < |validTestPoints| && validTestPoints[m] == n;
    }
  }

  /** Every coordinate inside the map is one of its cells. */
  lemma InAllCells(data: Data, c: Coord)
    requires data.IsValid(c)
    ensures c in data.AllCells()
  {
    assert c == Coord(c.x, c.y);
  }

  /** The body of the inner loop of GetBasin: a neighbour inside the map
      that is not of height 9 and not yet in the basin is pushed and added. */
  method VisitPoint(data: Data, basin: Basin, next: Coord, testPoint: Coord, stack: seq<Coord>, ghost lowPoint: Coord)
    returns (newStack: seq<Coord>)
    requires basin.Valid() && Sound(data, lowPoint, basin.cells) && next in basin.cells
    requires testPoint in GetAdjacentPoints(next) && data.IsValid(testPoint)
    modifies basin
    ensures basin.Valid() && Sound(data, lowPoint, basin.cells)
    ensures basin.cells == old(basin.cells) + (if Open(data, testPoint) then {testPoint} else {})
    ensures newStack == if Open(data, testPoint) && testPoint !in old(basin.cells) then stack + [testPoint] else stack
  {
    newStack := stack;
    if data.GetValue(testPoint) != 9 && !basin.Contains(testPoint) {
      SoundAdd(data, lowPoint, basin.cells, next, testPoint);
      newStack := newStack + [testPoint];
      var _ := basin.Add(testPoint);
    }
  }

  /** The inner loop of GetBasin for one popped coordinate: each neighbour
      inside the map that is not of height 9 and not yet in the basin is
      pushed and added. */
  method VisitNeighbours(data: Data, basin: Basin, next: Coord, stack: seq<Coord>, ghost lowPoint: Coord)
    returns (newStack: seq<Coord>)
    requires basin.Valid() && Sound(data, lowPoint, basin.cells) && next in basin.cells
    requires forall i :: 0 <= i < |stack| ==> stack[i] in basin.cells
    modifies basin
    ensures basin.Valid() && Sound(data, lowPoint, basin.cells)
    ensures old(basin.cells) <= basin.cells
    ensures forall c :: c in basin.cells ==> c in old(basin.cells) || (c in newStack && data.IsValid(c))
    ensures Settled(data, basin.cells, next)
    ensures forall i :: 0 <= i < |newStack| ==> newStack[i] in basin.cells
    ensures basin.cells == old(basin.cells) ==> newStack == stack
    ensures stack <= newStack
  {
    var validTestPoints := ValidPoints(data, GetAdjacentPoints(next));
    ValidPointsMeaning(data, GetAdjacentPoints(next));
    newStack := stack;
    var j := 0;
    while j < |validTestPoints|
      invariant 0 <= j <= |validTestPoints|
      invariant basin.Valid() && Sound(data, lowPoint, basin.cells) && next in basin.cells
      invariant old(basin.cells) <= basin.cells
      invariant forall m :: 0 <= m < j && Open(data, validTestPoints[m]) ==> validTestPoints[m] in basin.cells
      invariant forall c :: c in basin.cells ==> c in old(basin.cells) || (c in newStack && data.IsValid(c))
      invariant forall i :: 0 <= i < |newStack| ==> newStack[i] in basin.cells
      invariant basin.cells == old(basin.cells) ==> newStack == stack
      invariant stack <= newStack
    {
      newStack := VisitPoint(data, basin, next, validTestPoints[j], newStack, lowPoint);
      j := j + 1;
    }
    SettledByVisit(data, basin.cells, next, validTestPoints);
  }

  /** GetBasin: a depth-first flood fill from the low point. The basin it
      returns holds exactly the cells reachable from the low point through
      cells inside the map not of height 9, and is closed under such
      neighbours. */
  method GetBasin(lowPoint: Coord, data: Data) returns (basin: Basin)
    ensures fresh(basin) && basin.Valid()
    ensures lowPoint in basin.cells
    ensures forall c :: c in basin.cells && c != lowPoint ==> Open(data, c)
    ensures Closed(data, basin.cells)
    ensures forall c :: c in basin.cells <==> Reachable(data, lowPoint, c)
  {
    basin := new Basin(lowPoint);
    assert IsPath(data, lowPoint, lowPoint, [lowPoint]);
    var stack := [lowPoint];
    while |stack| != 0
      invariant basin.Valid() && Sound(data, lowPoint, basin.cells)
      invariant basin.cells <= data.AllCells() + {lowPoint}
      invariant forall i :: 0 <= i < |stack| ==> stack[i] in basin.cells
      invariant SettledBut(data, basin.cells, stack)
      decreases data.AllCells() + {lowPoint} - basin.cells, |stack|
    {
      ghost var oldStack := stack;
      ghost var before := basin.cells;
      var next := stack[|stack| - 1];
      stack := stack[..|stack| - 1];
      ghost var popped := stack;
      stack := VisitNeighbours(data, basin, next, stack, lowPoint);
      FillStep(data, oldStack, next, popped, stack, before, basin.cells);
      FillShrinks(data.AllCells() + {lowPoint}, before, basin.cells);
    }
    forall c | Reachable(data, lowPoint, c) ensures c in basin.cells {
      var p :| IsPath(data, lowPoint, c, p);
      ClosedHoldsReachable(data, basin.cells, lowPoint, c, p);
    }
  }
}
