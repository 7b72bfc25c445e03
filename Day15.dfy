/** Chiton: the risk map is tiled five times in each direction with risks
    raised per tile and wrapped back into 1..9, and a Dijkstra search over
    the 4-neighbour grid finds the path of lowest total risk from the top
    left to the bottom right. */
module Day15 {
  import opened Common

  datatype Point = Point(x: int, y: int)

  /** int.MaxValue, the distance of a point not reached yet. */
  const MaxValue: int := 0x7fff_ffff

  /** Risks above 9 wrap round to 1. */
  function WrapValue(x: int): int
  {
    if x > 9 then (x - 1) % 9 + 1 else x
  }

  /** Wrap: subtracts 9 while the value is above 9, so a risk of at least
      1 lands in 1..9 and one of at most 9 is kept. */
  method Wrap(x: int) returns (r: int)
    ensures r == WrapValue(x)
    ensures x >= 1 ==> 1 <= r <= 9
    ensures x <= 9 ==> r == x
  {
    r := x;
    while r > 9
      invariant WrapValue(r) == WrapValue(x)
      invariant x > 9 ==> r >= 1
      invariant x <= 9 ==> r == x
    {
      r := r - 9;
    }
  }

  /** The first index of tile i along an axis whose tiles are n cells
      long: i * n, written as repeated addition so that the proofs about
      tiles stay linear. */
  function Origin(i: nat, n: nat): nat
  {
    if i == 0 then 0 else Origin(i - 1, n) + n
  }

  lemma {:induction false} OriginMul(i: nat, n: nat)
    ensures Origin(i, n) == i * n
  {
    if i > 0 {
      OriginMul(i - 1, n);
    }
  }

  /** Tile i ends no later than any later tile c begins. */
  lemma {:induction false} OriginMonotone(i: nat, c: nat, n: nat)
    requires i < c
    ensures Origin(i, n) + n <= Origin(c, n)
  {
    if i + 1 < c {
      OriginMonotone(i, c - 1, n);
    }
  }

  /** The cell x of tile i lies inside tile i and outside every other tile. */
  lemma TileIndex(x: int, i: nat, n: nat, c: nat)
    requires 0 <= x < n
    ensures i < c ==> Origin(i, n) + x < Origin(c, n)
    ensures c < i ==> Origin(c, n) + n <= Origin(i, n) + x
  {
    if i < c {
      OriginMonotone(i, c, n);
    }
    if c < i {
      OriginMonotone(c, i, n);
    }
  }

  /** Tile (i, j) of newGrid holds the risks of grid raised by i + j. */
  ghost predicate TileDone(grid: array2<int>, newGrid: array2<int>, i: nat, j: nat)
    reads grid, newGrid
  {
    && Origin(i, grid.Length0) + grid.Length0 <= newGrid.Length0
    && Origin(j, grid.Length1) + grid.Length1 <= newGrid.Length1
    && forall x, y :: 0 <= x < grid.Length0 && 0 <= y < grid.Length1 ==>
         newGrid[Origin(i, grid.Length0) + x, Origin(j, grid.Length1) + y] == WrapValue(grid[x, y] + i + j)
  }

  /** Cell (x, y) lies outside the cells [x0, x1) x [y0, y1). */
  predicate Outside(x: int, y: int, x0: int, x1: int, y0: int, y1: int)
  {
    x < x0 || x1 <= x || y < y0 || y1 <= y
  }

  /** A cell of tile (i, j) lies outside every other tile (c, d). */
  lemma OtherTile(x: int, y: int, i: nat, j: nat, c: nat, d: nat, w: nat, h: nat)
    requires 0 <= x < w && 0 <= y < h && (i != c || j != d)
    ensures Outside(Origin(i, w) + x, Origin(j, h) + y, Origin(c, w), Origin(c, w) + w, Origin(d, h), Origin(d, h) + h)
  {
    TileIndex(x, i, w, c);
    TileIndex(y, j, h, d);
  }

  /** The innermost loop of SplatGrid: column x of tile (xCopy, yCopy). */
  method FillColumn(grid: array2<int>, newGrid: array2<int>, xCopy: nat, yCopy: nat, x: int)
    requires grid != newGrid && 0 <= x < grid.Length0
    requires Origin(xCopy, grid.Length0) + x < newGrid.Length0 && Origin(yCopy, grid.Length1) + grid.Length1 <= newGrid.Length1
    modifies newGrid
    ensures forall y :: 0 <= y < grid.Length1 ==>
      newGrid[Origin(xCopy, grid.Length0) + x, Origin(yCopy, grid.Length1) + y] == WrapValue(grid[x, y] + xCopy + yCopy)
    ensures forall x', y' :: 0 <= x' < newGrid.Length0 && 0 <= y' < newGrid.Length1 && Outside(x', y', Origin(xCopy, grid.Length0) + x, Origin(xCopy, grid.Length0) + x + 1, Origin(yCopy, grid.Length1), Origin(yCopy, grid.Length1) + grid.Length1) ==>
      newGrid[x', y'] == old(newGrid[x', y'])
  {
    var w := grid.Length0;
    var h := grid.Length1;
    OriginMul(xCopy, w);
    OriginMul(yCopy, h);
    ghost var x0, y0 := Origin(xCopy, w), Origin(yCopy, h);
    for y := 0 to h
      invariant forall y' :: 0 <= y' < y ==> newGrid[x0 + x, y0 + y'] == WrapValue(grid[x, y'] + xCopy + yCopy)
      invariant forall x', y' :: 0 <= x' < newGrid.Length0 && 0 <= y' < newGrid.Length1 && Outside(x', y', x0 + x, x0 + x + 1, y0, y0 + y) ==>
        newGrid[x', y'] == old(newGrid[x', y'])
    {
      var shift := xCopy + yCopy;
      var wrapped := Wrap(grid[x, y] + shift);
      newGrid[x + xCopy * w, y + yCopy * h] := wrapped;
    }
  }

  /** The two inner loops of SplatGrid: one copy of grid into tile
      (xCopy, yCopy); every cell outside that tile keeps its value. */
  method FillTile(grid: array2<int>, newGrid: array2<int>, xCopy: nat, yCopy: nat, xTimes: nat, yTimes: nat)
    requires grid != newGrid
    requires xCopy < xTimes && yCopy < yTimes
    requires newGrid.Length0 == Origin(xTimes, grid.Length0) && newGrid.Length1 == Origin(yTimes, grid.Length1)
    modifies newGrid
    ensures TileDone(grid, newGrid, xCopy, yCopy)
    ensures forall x', y' :: 0 <= x' < newGrid.Length0 && 0 <= y' < newGrid.Length1 && Outside(x', y', Origin(xCopy, grid.Length0), Origin(xCopy, grid.Length0) + grid.Length0, Origin(yCopy, grid.Length1), Origin(yCopy, grid.Length1) + grid.Length1) ==>
      newGrid[x', y'] == old(newGrid[x', y'])
  {
    var w := grid.Length0;
    var h := grid.Length1;
    OriginMonotone(xCopy, xTimes, w);
    OriginMonotone(yCopy, yTimes, h);
    ghost var x0, y0 := Origin(xCopy, w), Origin(yCopy, h);
    for x := 0 to w
      invariant forall x', y' :: 0 <= x' < x && 0 <= y' < h ==> newGrid[x0 + x', y0 + y'] == WrapValue(grid[x', y'] + xCopy + yCopy)
      invariant forall x', y' :: 0 <= x' < newGrid.Length0 && 0 <= y' < newGrid.Length1 && Outside(x', y', x0, x0 + x, y0, y0 + h) ==>
        newGrid[x', y'] == old(newGrid[x', y'])
    {
      FillColumn(grid, newGrid, xCopy, yCopy, x);
    }
  }

  /** One tile of SplatGrid: tile (xCopy, yCopy) is filled and every other
      tile that was filled stays filled. */
  method SplatTile(grid: array2<int>, newGrid: array2<int>, xCopy: nat, yCopy: nat, xTimes: nat, yTimes: nat)
    requires grid != newGrid
    requires xCopy < xTimes && yCopy < yTimes
    requires newGrid.Length0 == Origin(xTimes, grid.Length0) && newGrid.Length1 == Origin(yTimes, grid.Length1)
    modifies newGrid
    ensures TileDone(grid, newGrid, xCopy, yCopy)
    ensures forall i: nat, j: nat :: (i != xCopy || j != yCopy) && old(TileDone(grid, newGrid, i, j)) ==> TileDone(grid, newGrid, i, j)
  {
    FillTile(grid, newGrid, xCopy, yCopy, xTimes, yTimes);
    var w := grid.Length0;
    var h := grid.Length1;
    forall i: nat, j: nat | (i != xCopy || j != yCopy) && old(TileDone(grid, newGrid, i, j))
      ensures TileDone(grid, newGrid, i, j)
    {
      forall x, y | 0 <= x < w && 0 <= y < h
        ensures newGrid[Origin(i, w) + x, Origin(j, h) + y] == WrapValue(grid[x, y] + i + j)
      {
        assert old(grid[x, y]) == grid[x, y];
        OtherTile(x, y, i, j, xCopy, yCopy, w, h);
      }
    }
  }

  /** SplatGrid: xTimes by yTimes copies of grid, tile (i, j) raised by
      i + j and wrapped. */
  method SplatGrid(grid: array2<int>, xTimes: nat, yTimes: nat) returns (newGrid: array2<int>)
    ensures fresh(newGrid)
    ensures newGrid.Length0 == grid.Length0 * xTimes && newGrid.Length1 == grid.Length1 * yTimes
    ensures forall i: nat, j: nat :: i < xTimes && j < yTimes ==> TileDone(grid, newGrid, i, j)
  {
    newGrid := new int[grid.Length0 * xTimes, grid.Length1 * yTimes];
    var w := grid.Length0;
    var h := grid.Length1;
    OriginMul(xTimes, w);
    OriginMul(yTimes, h);
    for xCopy := 0 to xTimes
      invariant forall i: nat, j: nat :: i < xCopy && j < yTimes ==> TileDone(grid, newGrid, i, j)
    {
      for yCopy := 0 to yTimes
        invariant forall i: nat, j: nat :: i < xCopy && j < yTimes ==> TileDone(grid, newGrid, i, j)
        invariant forall j: nat :: j < yCopy ==> TileDone(grid, newGrid, xCopy, j)
      {
        SplatTile(grid, newGrid, xCopy, yCopy, xTimes, yTimes);
      }
    }
  }

  // ---------------------------------------------------------------------
  // The search

  /** The record the search keeps for one point: the point, the point it
      was last reached from, the lowest total risk found so far and whether
      the point is settled. */
  datatype Path = Path(to: Point, from: Option<Point>, distance: int, completed: bool)

  /** A queue entry: a point and the total risk it was queued with. */
  datatype WeightedNode = WeightedNode(point: Point, weight: int)

  /** The four points that share a side with p. */
  predicate Adjacent(p: Point, q: Point)
  {
    Abs(p.x - q.x) + Abs(p.y - q.y) == 1
  }

  /** Above, below, left and right of point, in that order. */
  function GetAdjacentPoints(point: Point): (r: seq<Point>)
    ensures |r| == 4
    ensures forall q :: q in r <==> Adjacent(point, q)
  {
    [Point(point.x, point.y - 1), Point(point.x, point.y + 1), Point(point.x - 1, point.y), Point(point.x + 1, point.y)]
  }

  predicate PointIsValid(point: Point, grid: array2<int>)
  {
    0 <= point.x < grid.Length0 && 0 <= point.y < grid.Length1
  }

  /** The dictionary holds one record per point of the grid, filed under
      that point. */
  ghost predicate Keys(paths: map<Point, Path>, grid: array2<int>)
  {
    && (forall p :: p in paths <==> PointIsValid(p, grid))
    && (forall p :: p in paths ==> paths[p].to == p)
  }

  /** The queue holds only unsettled points, each with the distance
      recorded for it. */
  ghost predicate QueueOk(paths: map<Point, Path>, queue: set<WeightedNode>)
  {
    forall n :: n in queue ==> n.point in paths && !paths[n.point].completed && n.weight == paths[n.point].distance < MaxValue
  }

  /** So the queue holds at most one entry per point. */
  lemma OneEntryPerPoint(paths: map<Point, Path>, queue: set<WeightedNode>)
    requires QueueOk(paths, queue)
    ensures forall n, m :: n in queue && m in queue && n.point == m.point ==> n == m
  {
  }

  /** What the search keeps true of the record of point p. rank numbers
      the settled points in the order they were settled. A point is only
      ever reached from a settled point, settled before it, one step away,
      and its distance is that point's plus its own risk. No distance is
      above MaxValue, a settled point's is finite, and a finite one belongs
      to the start or to a point that was reached from somewhere. */
  ghost predicate PointOk(grid: array2<int>, paths: map<Point, Path>, rank: map<Point, nat>, start: Point, p: Point)
    reads grid
  {
    p in paths && PointIsValid(p, grid) &&
    var r := paths[p];
    && (r.completed <==> p in rank)
    && (p in rank ==> r.distance < MaxValue)
    && r.distance <= MaxValue
    && (r.distance < MaxValue ==> p == start || r.from.Some?)
    && (r.from.Some? ==>
          && r.from.value in rank && r.from.value in paths
          && (p in rank ==> rank[r.from.value] < rank[p])
          && Adjacent(r.from.value, p)
          && r.distance == paths[r.from.value].distance + grid[p.x, p.y])
  }

  /** Everything the search keeps true between two steps: the start keeps
      distance 0 and nothing is settled before it. */
  ghost predicate Search(grid: array2<int>, paths: map<Point, Path>, queue: set<WeightedNode>, rank: map<Point, nat>, start: Point)
    reads grid
  {
    && Keys(paths, grid)
    && (forall p :: p in rank ==> p in paths && rank[p] < |rank|)
    && (forall p {:trigger PointOk(grid, paths, rank, start, p)} :: p in paths ==> PointOk(grid, paths, rank, start, p))
    && QueueOk(paths, queue)
    && start in paths && paths[start].distance == 0 && paths[start].from.None?
    && (start !in rank ==> rank == map[])
  }

  /** The links GetPath follows: every link leads to a settled point, and
      from a settled point to one settled earlier. */
  ghost predicate Linked(paths: map<Point, Path>, rank: map<Point, nat>)
  {
    forall p :: p in paths && paths[p].from.Some? ==>
      && paths[p].from.value in rank && paths[p].from.value in paths
      && (p in rank ==> rank[paths[p].from.value] < rank[p])
  }

  lemma SearchLinked(grid: array2<int>, paths: map<Point, Path>, queue: set<WeightedNode>, rank: map<Point, nat>, start: Point)
    requires Search(grid, paths, queue, rank, start)
    ensures Linked(paths, rank)
  {
    forall p | p in paths && paths[p].from.Some?
      ensures paths[p].from.value in rank && paths[p].from.value in paths && (p in rank ==> rank[paths[p].from.value] < rank[p])
    {
      assert PointOk(grid, paths, rank, start, p);
    }
  }

  /** One record before and after a round of relaxations from current:
      unchanged, or an unsettled point given a strictly lower distance
      through current. */
  predicate Step(before: Path, after: Path, current: Point)
  {
    && after.to == before.to && after.completed == before.completed
    && (after == before || (!before.completed && after.from == Some(current) && after.distance < before.distance))
  }

  /** The first two loops of Process: a record for every point of the
      grid, none reached and none settled. */
  method InitPaths(grid: array2<int>) returns (paths: map<Point, Path>)
    ensures Keys(paths, grid)
    ensures forall p :: p in paths ==> paths[p] == Path(p, None, MaxValue, false)
  {
    paths := map[];
    for x := 0 to grid.Length0
      invariant forall p :: p in paths <==> 0 <= p.x < x && 0 <= p.y < grid.Length1
      invariant forall p :: p in paths ==> paths[p] == Path(p, None, MaxValue, false)
    {
      for y := 0 to grid.Length1
        invariant forall p :: p in paths <==> (0 <= p.x < x && 0 <= p.y < grid.Length1) || (p.x == x && 0 <= p.y < y)
        invariant forall p :: p in paths ==> paths[p] == Path(p, None, MaxValue, false)
      {
        paths := paths[Point(x, y) := Path(Point(x, y), None, MaxValue, false)];
      }
    }
  }

  /** The lowest weight among the queued entries. */
  method MinWeight(queue: set<WeightedNode>) returns (min: int)
    requires queue != {}
    ensures exists n :: n in queue && n.weight == min
    ensures forall n :: n in queue ==> min <= n.weight
  {
    var first :| first in queue;
    min := first.weight;
    var rest := queue - {first};
    while rest != {}
      invariant rest <= queue
      invariant exists n :: n in queue && n.weight == min
      invariant forall n :: n in queue - rest ==> min <= n.weight
      decreases |rest|
    {
      var n :| n in rest;
      if n.weight < min {
        min := n.weight;
      }
      rest := rest - {n};
    }
  }

  /** The entry the loop takes next: one of lowest weight. */
  method PopMin(queue: set<WeightedNode>) returns (minElement: WeightedNode)
    requires queue != {}
    ensures minElement in queue
    ensures forall n :: n in queue ==> minElement.weight <= n.weight
  {
    var min := MinWeight(queue);
    minElement :| minElement in queue && minElement.weight == min;
  }

  /** One step of the inner foreach: reaching next from current is kept
      only when it is strictly cheaper than what next has. */
  method Relax(grid: array2<int>, paths: map<Point, Path>, queue: set<WeightedNode>, current: Point, next: Point, ghost rank: map<Point, nat>, ghost start: Point)
    returns (paths': map<Point, Path>, queue': set<WeightedNode>)
    requires Search(grid, paths, queue, rank, start)
    requires current in rank && Adjacent(current, next) && next in paths && !paths[next].completed
    ensures Search(grid, paths', queue', rank, start)
    ensures forall p :: p in paths && p != next ==> paths'[p] == paths[p]
    ensures Step(paths[next], paths'[next], current)
    ensures paths'[next].distance <= paths[current].distance + grid[next.x, next.y]
  {
    var nextPointPath := paths[next];
    var edgeDistance := grid[next.x, next.y];
    var totalDistanceToNode := paths[current].distance + edgeDistance;
    paths', queue' := paths, queue;
    if totalDistanceToNode < nextPointPath.distance {
      paths' := paths[next := nextPointPath.(distance := totalDistanceToNode, from := Some(current))];
      queue' := (set n | n in queue && n.point != next) + {WeightedNode(next, totalDistanceToNode)};
      RelaxSearch(grid, paths, queue, rank, start, current, next, totalDistanceToNode, paths', queue');
    }
  }

  /** A strictly cheaper way to next through current keeps the search
      consistent: nothing was reached from next, as it is not settled. */
  lemma RelaxSearch(grid: array2<int>, paths: map<Point, Path>, queue: set<WeightedNode>, rank: map<Point, nat>, start: Point,
                    current: Point, next: Point, d: int, paths': map<Point, Path>, queue': set<WeightedNode>)
    requires Search(grid, paths, queue, rank, start)
    requires current in rank && Adjacent(current, next) && next in paths && !paths[next].completed
    requires d == paths[current].distance + grid[next.x, next.y] && d < paths[next].distance
    requires paths' == paths[next := paths[next].(distance := d, from := Some(current))]
    requires queue' == (set n | n in queue && n.point != next) + {WeightedNode(next, d)}
    ensures Search(grid, paths', queue', rank, start)
  {
    RelaxPoints(grid, paths, queue, rank, start, current, next, d, paths');
    assert PointOk(grid, paths, rank, start, next);
    assert next != start;
  }

  /** The point-wise part of RelaxSearch. */
  lemma RelaxPoints(grid: array2<int>, paths: map<Point, Path>, queue: set<WeightedNode>, rank: map<Point, nat>, start: Point,
                    current: Point, next: Point, d: int, paths': map<Point, Path>)
    requires Search(grid, paths, queue, rank, start)
    requires current in rank && Adjacent(current, next) && next in paths && !paths[next].completed
    requires d == paths[current].distance + grid[next.x, next.y] && d < paths[next].distance
    requires paths' == paths[next := paths[next].(distance := d, from := Some(current))]
    ensures forall p {:trigger PointOk(grid, paths', rank, start, p)} :: p in paths' ==> PointOk(grid, paths', rank, start, p)
  {
    assert PointOk(grid, paths, rank, start, current);
    assert PointOk(grid, paths, rank, start, next);
    forall p | p in paths'
      ensures PointOk(grid, paths', rank, start, p)
    {
      assert PointOk(grid, paths, rank, start, p);
      if paths[p].from.Some? {
        assert paths[p].from.value != next;
      }
    }
  }

  /** The foreach of Process: every valid, unsettled neighbour of current
      is offered the way through current. */
  method RelaxNeighbours(grid: array2<int>, paths: map<Point, Path>, queue: set<WeightedNode>, current: Point, ghost rank: map<Point, nat>, ghost start: Point)
    returns (paths': map<Point, Path>, queue': set<WeightedNode>)
    requires Search(grid, paths, queue, rank, start) && current in rank
    ensures Search(grid, paths', queue', rank, start)
    ensures forall p :: p in paths ==> Step(paths[p], paths'[p], current)
    ensures forall p :: p in paths && Adjacent(current, p) && !paths[p].completed ==> paths'[p].distance <= paths[current].distance + grid[p.x, p.y]
  {
    var adjacentPoints := GetAdjacentPoints(current);
    paths', queue' := paths, queue;
    for k := 0 to 4
      invariant Search(grid, paths', queue', rank, start)
      invariant forall p :: p in paths ==> Step(paths[p], paths'[p], current)
      invariant forall p :: p in adjacentPoints[..k] && p in paths && !paths[p].completed ==>
        paths'[p].distance <= paths[current].distance + grid[p.x, p.y]
    {
      var adjacentPoint := adjacentPoints[k];
      if PointIsValid(adjacentPoint, grid) && !paths'[adjacentPoint].completed {
        paths', queue' := Relax(grid, paths', queue', current, adjacentPoint, rank, start);
      }
      PrefixStep(adjacentPoints, k);
    }
    assert adjacentPoints[..4] == adjacentPoints;
  }

  /** Settling the entry m taken from the queue. */
  lemma Settle(grid: array2<int>, paths: map<Point, Path>, queue: set<WeightedNode>, rank: map<Point, nat>, start: Point, m: WeightedNode)
    requires Search(grid, paths, queue, rank, start) && m in queue
    requires rank == map[] ==> queue == {WeightedNode(start, 0)}
    ensures m.point in paths && m.point !in rank
    ensures Search(grid, paths[m.point := paths[m.point].(completed := true)], queue - {m}, rank[m.point := |rank|], start)
  {
    var c := m.point;
    assert PointOk(grid, paths, rank, start, c);
    var paths' := paths[c := paths[c].(completed := true)];
    var rank' := rank[c := |rank|];
    assert |rank'| == |rank| + 1;
    assert start in rank' by {
      if start !in rank {
        assert m == WeightedNode(start, 0);
      }
    }
    forall p | p in paths'
      ensures PointOk(grid, paths', rank', start, p)
    {
      assert PointOk(grid, paths, rank, start, p);
    }
  }

  /** Taking an entry off the queue keeps the search consistent. */
  lemma Dequeue(grid: array2<int>, paths: map<Point, Path>, queue: set<WeightedNode>, rank: map<Point, nat>, start: Point, m: WeightedNode)
    requires Search(grid, paths, queue, rank, start)
    ensures Search(grid, paths, queue - {m}, rank, start)
  {
  }

  /** The search before the loop: only the start has a distance, and it
      is the only entry of the queue. */
  lemma StartSearch(grid: array2<int>, paths: map<Point, Path>, start: Point)
    requires Keys(paths, grid) && start in paths
    requires forall p :: p in paths ==> paths[p] == Path(p, None, MaxValue, false)
    ensures Search(grid, paths[start := paths[start].(distance := 0)], {WeightedNode(start, 0)}, map[], start)
  {
    var paths' := paths[start := paths[start].(distance := 0)];
    forall p | p in paths'
      ensures PointOk(grid, paths', map[], start, p)
    {
    }
  }

  /** The body of the loop after the target test: settles current, the
      point of the entry m just taken off the queue, and relaxes its
      neighbours. */
  method Visit(grid: array2<int>, paths: map<Point, Path>, queue: set<WeightedNode>, current: Point,
               ghost rank: map<Point, nat>, ghost start: Point, ghost m: WeightedNode, ghost full: set<WeightedNode>)
    returns (paths': map<Point, Path>, queue': set<WeightedNode>, ghost rank': map<Point, nat>)
    requires Search(grid, paths, full, rank, start) && m in full && queue == full - {m} && current == m.point
    requires rank == map[] ==> full == {WeightedNode(start, 0)}
    ensures current in paths && current !in rank && rank' == rank[current := |rank|]
    ensures Search(grid, paths', queue', rank', start)
    ensures paths'[current] == paths[current].(completed := true)
    ensures forall p :: p in paths && p != current ==> Step(paths[p], paths'[p], current)
  {
    Settle(grid, paths, full, rank, start, m);
    var currentPath := paths[current].(completed := true);
    paths' := paths[current := currentPath];
    rank' := rank[current := |rank|];
    paths', queue' := RelaxNeighbours(grid, paths', queue, current, rank', start);
  }

  /** The Dijkstra loop of Process, from (0, 0) until the bottom right
      point is taken from the queue or the queue runs dry. A grid with no
      cell fails, as (0, 0) has no record. */
  method ShortestPaths(grid: array2<int>) returns (r: Result<map<Point, Path>>, ghost queue: set<WeightedNode>, ghost rank: map<Point, nat>)
    ensures r.Err? <==> grid.Length0 == 0 || grid.Length1 == 0
    ensures r.Ok? ==> Search(grid, r.value, queue, rank, Point(0, 0))
  {
    var shortestPaths := InitPaths(grid);
    var nextNodesQueue: set<WeightedNode> := {};
    var currentNode := Point(0, 0);
    if currentNode !in shortestPaths {
      return Err("KeyNotFound"), {}, map[];
    }
    ghost var start := currentNode;
    StartSearch(grid, shortestPaths, start);
    shortestPaths := shortestPaths[currentNode := shortestPaths[currentNode].(distance := 0)];
    nextNodesQueue := {WeightedNode(currentNode, 0)};
    rank := map[];
    ghost var unsettled := shortestPaths.Keys;
    while nextNodesQueue != {}
      invariant Search(grid, shortestPaths, nextNodesQueue, rank, start)
      invariant rank == map[] ==> nextNodesQueue == {WeightedNode(start, 0)}
      invariant forall p :: p in shortestPaths && p !in rank ==> p in unsettled
      decreases |unsettled|
    {
      var minElement := PopMin(nextNodesQueue);
      ghost var full := nextNodesQueue;
      Dequeue(grid, shortestPaths, nextNodesQueue, rank, start, minElement);
      nextNodesQueue := nextNodesQueue - {minElement};
      currentNode := minElement.point;
      if currentNode.x == grid.Length0 - 1 && currentNode.y == grid.Length1 - 1 {
        break;
      }
      shortestPaths, nextNodesQueue, rank := Visit(grid, shortestPaths, nextNodesQueue, currentNode, rank, start, minElement, full);
      unsettled := unsettled - {currentNode};
    }
    r := Ok(shortestPaths);
    queue := nextNodesQueue;
  }

  // ---------------------------------------------------------------------
  // Reading the answer off the records

  /** The points GetPath returns: each record names the one before it as
      its from, and the first has no from. */
  ghost predicate Chain(paths: map<Point, Path>, path: seq<Point>)
  {
    && |path| > 0
    && (forall i :: 0 <= i < |path| ==> path[i] in paths)
    && paths[path[0]].from.None?
    && (forall i :: 0 < i < |path| ==> paths[path[i]].from == Some(path[i - 1]))
  }

  /** A walk over the grid: valid cells, one step apart. */
  predicate Walk(grid: array2<int>, path: seq<Point>)
    reads grid
  {
    && |path| > 0
    && (forall i :: 0 <= i < |path| ==> PointIsValid(path[i], grid))
    && (forall i :: 0 < i < |path| ==> Adjacent(path[i - 1], path[i]))
  }

  /** GetPath: follow the from links back from end, then reverse. The links
      only lead to settled points, each settled earlier than the last, so the
      walk back ends. */
  method GetPath(end: Point, paths: map<Point, Path>, ghost rank: map<Point, nat>) returns (path: seq<Point>)
    requires end in paths && Linked(paths, rank)
    ensures Chain(paths, path) && path[|path| - 1] == end
  {
    var back := [end];
    var currentNode := end;
    while paths[currentNode].from.Some?
      invariant currentNode in paths && |back| > 0 && back[0] == end && back[|back| - 1] == currentNode
      invariant forall i :: 0 <= i < |back| ==> back[i] in paths
      invariant forall i :: 0 < i < |back| ==> paths[back[i - 1]].from == Some(back[i])
      invariant |back| > 1 ==> currentNode in rank
      decreases if currentNode in rank then 0 else 1, if currentNode in rank then rank[currentNode] else 0
    {
      back := back + [paths[currentNode].from.value];
      currentNode := paths[currentNode].from.value;
    }
    path := Reversed(back);
    ReversedIndex(back);
  }

  /** The risks of the cells of a path, added up. */
  function PathRisk(grid: array2<int>, path: seq<Point>): int
    reads grid
    requires forall i :: 0 <= i < |path| ==> PointIsValid(path[i], grid)
  {
    if path == [] then 0
    else
      var last := path[|path| - 1];
      assert PointIsValid(last, grid);
      PathRisk(grid, path[..|path| - 1]) + grid[last.x, last.y]
  }

  /** Along a chain of records, each step adds the risk of the cell entered:
      the risks after the first cell add up to the difference of the
      distances at the two ends, and the chain is a walk over the grid. */
  lemma {:induction false} ChainRisk(grid: array2<int>, paths: map<Point, Path>, queue: set<WeightedNode>, rank: map<Point, nat>, start: Point, path: seq<Point>)
    requires Search(grid, paths, queue, rank, start) && Chain(paths, path)
    ensures Walk(grid, path)
    ensures PathRisk(grid, path) - grid[path[0].x, path[0].y] == paths[path[|path| - 1]].distance - paths[path[0]].distance
  {
    var n := |path|;
    assert PointOk(grid, paths, rank, start, path[n - 1]);
    if n > 1 {
      var prefix := path[..n - 1];
      assert Chain(paths, prefix);
      ChainRisk(grid, paths, queue, rank, start, prefix);
    }
  }

  /** A chain of more than one point, or one whose last point has a finite
      distance, starts at the start. */
  lemma ChainStart(grid: array2<int>, paths: map<Point, Path>, queue: set<WeightedNode>, rank: map<Point, nat>, start: Point, path: seq<Point>)
    requires Search(grid, paths, queue, rank, start) && Chain(paths, path)
    requires |path| > 1 || paths[path[0]].distance < MaxValue
    ensures path[0] == start
  {
    assert PointOk(grid, paths, rank, start, path[0]);
    if |path| > 1 {
      assert PointOk(grid, paths, rank, start, path[1]);
    }
  }

  /** The answer of Process on a grid: the search from the top-left corner,
      the path GetPath reads back from the bottom-right one, and its risk
      without the corner where it starts. When the path leaves its first
      cell it starts at the top-left corner, and then the answer is the
      distance the search found. */
  method LowestRisk(grid: array2<int>) returns (r: Result<int>, paths: map<Point, Path>, path: seq<Point>)
    ensures r.Err? <==> grid.Length0 == 0 || grid.Length1 == 0
    ensures r.Ok? ==> Keys(paths, grid) && Walk(grid, path) && path[|path| - 1] == Point(grid.Length0 - 1, grid.Length1 - 1)
    ensures r.Ok? ==> r.value == PathRisk(grid, path) - grid[0, 0]
    ensures r.Ok? && |path| > 1 ==> path[0] == Point(0, 0)
    ensures r.Ok? && path[0] == Point(0, 0) ==> r.value == paths[Point(grid.Length0 - 1, grid.Length1 - 1)].distance
  {
    var searched;
    ghost var queue, rank;
    searched, queue, rank := ShortestPaths(grid);
    if searched.Err? {
      return Err(searched.msg), map[], [];
    }
    paths := searched.value;
    var target := Point(grid.Length0 - 1, grid.Length1 - 1);
    assert PointIsValid(target, grid);
    SearchLinked(grid, paths, queue, rank, Point(0, 0));
    path := GetPath(target, paths, rank);
    ChainRisk(grid, paths, queue, rank, Point(0, 0), path);
    assert PointOk(grid, paths, rank, Point(0, 0), path[0]);
    if |path| > 1 {
      ChainStart(grid, paths, queue, rank, Point(0, 0), path);
    }
    r := Ok(PathRisk(grid, path) - grid[0, 0]);
  }

  /** Process: the map five tiles wide and five tall, then its lowest risk. */
  method Process(baseGrid: array2<int>) returns (grid: array2<int>, r: Result<int>, paths: map<Point, Path>, path: seq<Point>)
    ensures fresh(grid) && grid.Length0 == baseGrid.Length0 * 5 && grid.Length1 == baseGrid.Length1 * 5
    ensures forall i: nat, j: nat :: i < 5 && j < 5 ==> TileDone(baseGrid, grid, i, j)
    ensures r.Err? <==> baseGrid.Length0 == 0 || baseGrid.Length1 == 0
    ensures r.Ok? ==> Keys(paths, grid) && Walk(grid, path) && path[|path| - 1] == Point(grid.Length0 - 1, grid.Length1 - 1)
    ensures r.Ok? ==> r.value == PathRisk(grid, path) - grid[0, 0]
    ensures r.Ok? && |path| > 1 ==> path[0] == Point(0, 0)
    ensures r.Ok? && path[0] == Point(0, 0) ==> r.value == paths[Point(grid.Length0 - 1, grid.Length1 - 1)].distance
  {
    grid := SplatGrid(baseGrid, 5, 5);
    r, paths, path := LowestRisk(grid);
  }
}
