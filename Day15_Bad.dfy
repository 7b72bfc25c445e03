/** Chiton, first attempt: an exhaustive depth-first search over simple
    paths from the top-left cell, with a shared traversal context whose
    visited set, current path and cost are put back after each step, and
    which keeps the cheapest path that reached the bottom-right cell. */
module Day15_BadPaths {
  import opened Common

  /** A cell (x, y) of the grid. */
  datatype Point = Point(x: int, y: int)

  /** int.MaxValue, the cost of the best path before one is found. */
  const MaxValue: int := 0x7fff_ffff

  /** One step left, right, up or down. */
  predicate Adjacent(p: Point, q: Point)
  {
    Abs(p.x - q.x) + Abs(p.y - q.y) == 1
  }

  predicate PointIsValid(point: Point, grid: array2<int>)
  {
    0 <= point.x < grid.Length0 && 0 <= point.y < grid.Length1
  }

  /** Left, right, above and below point, in that order. */
  function GetAdjacentPoints(point: Point): (r: seq<Point>)
    ensures |r| == 4
    ensures forall q :: q in r <==> Adjacent(point, q)
  {
    [Point(point.x - 1, point.y), Point(point.x + 1, point.y), Point(point.x, point.y - 1), Point(point.x, point.y + 1)]
  }

  /** The two Where filters and ToList over the neighbours: valid cells
      not visited, in their order. */
  function NextPoints(points: seq<Point>, grid: array2<int>, visited: set<Point>): (r: seq<Point>)
    ensures forall q {:trigger q in r} :: q in r <==> q in points && PointIsValid(q, grid) && q !in visited
  {
    if points == [] then []
    else
      var rest := NextPoints(points[1..], grid, visited);
      if PointIsValid(points[0], grid) && points[0] !in visited then [points[0]] + rest else rest
  }

  /** A path and its cost; a Stack is modelled bottom first, so pushing
      appends. */
  datatype WeightedPath = WeightedPath(path: seq<Point>, cost: int)

  /** The risk of every cell, by point. */
  type Risks = map<Point, int>

  /** Every cell of the grid. */
  ghost function Cells(grid: array2<int>): set<Point>
  {
    set x, y | 0 <= x < grid.Length0 && 0 <= y < grid.Length1 :: Point(x, y)
  }

  ghost function RiskMap(grid: array2<int>): (risk: Risks)
    reads grid
    ensures forall p :: p in risk <==> PointIsValid(p, grid)
    ensures forall p :: p in risk ==> PointIsValid(p, grid) && risk[p] == grid[p.x, p.y]
  {
    map p | p in Cells(grid) :: grid[p.x, p.y]
  }

  /** A simple path from start: each later point a cell of the grid one
      step from the one before, and no cell twice. Stated one step at a
      time, the way the search builds it. */
  ghost predicate Trail(risk: Risks, start: Point, path: seq<Point>)
  {
    if |path| <= 1 then path == [start]
    else
      var last := path[|path| - 1];
      && Trail(risk, start, path[..|path| - 1])
      && last in risk && Adjacent(path[|path| - 2], last) && last !in path[..|path| - 1]
  }

  /** The same, point by point. */
  lemma {:induction false} TrailFacts(risk: Risks, start: Point, path: seq<Point>)
    requires Trail(risk, start, path)
    ensures |path| > 0 && path[0] == start
    ensures forall i :: 0 < i < |path| ==> path[i] in risk
    ensures forall i :: 0 < i < |path| ==> Adjacent(path[i - 1], path[i])
    ensures forall i, j :: 0 <= i < j < |path| ==> path[i] != path[j]
  {
    if |path| > 1 {
      var init := path[..|path| - 1];
      TrailFacts(risk, start, init);
      forall i, j | 0 <= i < j < |path| ensures path[i] != path[j] {
        if j < |path| - 1 {
          assert path[i] == init[i] && path[j] == init[j];
        } else {
          assert path[i] == init[i];
        }
      }
      forall i | 0 < i < |path| ensures path[i] in risk && Adjacent(path[i - 1], path[i]) {
        if i < |path| - 1 {
          assert path[i] == init[i] && path[i - 1] == init[i - 1];
        }
      }
    }
  }

  /** A simple path from start ending at end. */
  ghost predicate Candidate(risk: Risks, start: Point, end: Point, path: seq<Point>)
  {
    Trail(risk, start, path) && path[|path| - 1] == end
  }

  /** The risks of a path's points after the first, added up (a point
      off the grid adds nothing; on a Trail there is none). */
  ghost function Cost(risk: Risks, path: seq<Point>): int
  {
    if |path| <= 1 then 0
    else
      var last := path[|path| - 1];
      Cost(risk, path[..|path| - 1]) + (if last in risk then risk[last] else 0)
  }

  ghost predicate NonNegative(risk: Risks)
  {
    forall p :: p in risk ==> risk[p] >= 0
  }

  /** The current path between two steps: a simple path from start whose
      cells are exactly the visited ones and whose cost is its risk. */
  ghost predicate CurrentOk(risk: Risks, start: Point, visited: set<Point>, current: WeightedPath)
  {
    && Trail(risk, start, current.path)
    && (forall p :: p in visited <==> p in current.path)
    && current.cost == Cost(risk, current.path)
  }

  /** The best path: still the initial empty one at int.MaxValue, or a
      cheaper simple path from start to end at its own risk. */
  ghost predicate BestOk(risk: Risks, start: Point, end: Point, best: WeightedPath)
  {
    || (best.path == [] && best.cost == MaxValue)
    || (Candidate(risk, start, end, best.path) && best.cost == Cost(risk, best.path) && best.cost < MaxValue)
  }

  /** The invariant of the traversal context: risk is the grid's, the
      current path is a simple path over the visited cells, and the best
      path is as BestOk says. */
  ghost predicate ContextOk(grid: array2<int>, risk: Risks, start: Point, end: Point, visited: set<Point>, current: WeightedPath, best: WeightedPath)
    reads grid
  {
    risk == RiskMap(grid) && CurrentOk(risk, start, visited, current) && BestOk(risk, start, end, best)
  }

  lemma ContextFacts(grid: array2<int>, risk: Risks, start: Point, end: Point, visited: set<Point>, current: WeightedPath, best: WeightedPath)
    requires ContextOk(grid, risk, start, end, visited, current, best)
    ensures risk == RiskMap(grid) && CurrentOk(risk, start, visited, current) && BestOk(risk, start, end, best)
    ensures |current.path| > 0
  {
  }

  /** best costs no more than any simple path to end that goes on from
      prefix. */
  ghost predicate BestBelow(risk: Risks, start: Point, end: Point, prefix: seq<Point>, best: WeightedPath)
  {
    forall path {:trigger Candidate(risk, start, end, path)} :: Candidate(risk, start, end, path) && prefix <= path ==> best.cost <= Cost(risk, path)
  }

  /** The same, for the paths whose point after prefix is one of firsts. */
  ghost predicate BestVia(risk: Risks, start: Point, end: Point, prefix: seq<Point>, firsts: seq<Point>, best: WeightedPath)
  {
    forall path {:trigger Candidate(risk, start, end, path)} ::
      Candidate(risk, start, end, path) && prefix <= path && |path| > |prefix| && path[|prefix|] in firsts ==>
      best.cost <= Cost(risk, path)
  }

  /** With no negative risk, going on never makes a path cheaper. */
  lemma {:induction false} CostPrefix(risk: Risks, prefix: seq<Point>, path: seq<Point>)
    requires NonNegative(risk) && 0 < |prefix| && prefix <= path
    ensures Cost(risk, prefix) <= Cost(risk, path)
    decreases |path|
  {
    if |path| > |prefix| {
      var shorter := path[..|path| - 1];
      assert prefix <= shorter;
      CostPrefix(risk, prefix, shorter);
    } else {
      assert prefix == path;
    }
  }

  /** Pushing an unvisited valid neighbour of the last point keeps a simple
      path and adds that cell's risk. */
  lemma Push(risk: Risks, start: Point, visited: set<Point>, current: WeightedPath, next: Point)
    requires CurrentOk(risk, start, visited, current)
    requires Adjacent(current.path[|current.path| - 1], next) && next in risk && next !in visited
    ensures CurrentOk(risk, start, visited + {next}, WeightedPath(current.path + [next], current.cost + risk[next]))
  {
    var path := current.path + [next];
    assert path[..|path| - 1] == current.path;
  }

  /** Popping the last point of a longer current path, unmarking it and
      taking its risk back keeps the context's invariant. */
  lemma Pop(grid: array2<int>, risk: Risks, start: Point, end: Point, visited: set<Point>, current: WeightedPath, best: WeightedPath)
    requires ContextOk(grid, risk, start, end, visited, current, best) && |current.path| > 1
    ensures var last := current.path[|current.path| - 1];
      && PointIsValid(last, grid)
      && ContextOk(grid, risk, start, end, visited - {last},
                   WeightedPath(current.path[..|current.path| - 1], current.cost - grid[last.x, last.y]), best)
  {
  }

  /** A simple path to end that goes on from a path ending at end is that
      path. */
  lemma AtEnd(risk: Risks, start: Point, end: Point, prefix: seq<Point>, path: seq<Point>)
    requires Candidate(risk, start, end, path) && prefix <= path && 0 < |prefix| && prefix[|prefix| - 1] == end
    ensures path == prefix
  {
    TrailFacts(risk, start, path);
  }

  /** A simple path to end going on from the current path, whose last point
      is not end, goes next to a valid unvisited neighbour. */
  lemma GoesOn(grid: array2<int>, risk: Risks, start: Point, end: Point, visited: set<Point>, current: WeightedPath, path: seq<Point>)
    requires risk == RiskMap(grid) && CurrentOk(risk, start, visited, current)
    requires Candidate(risk, start, end, path) && current.path <= path && current.path[|current.path| - 1] != end
    ensures |path| > |current.path|
    ensures path[|current.path|] in NextPoints(GetAdjacentPoints(current.path[|current.path| - 1]), grid, visited)
    ensures current.path + [path[|current.path|]] <= path
  {
    var n := |current.path|;
    TrailFacts(risk, start, path);
    assert path[n - 1] == current.path[n - 1];
    assert path[n] !in current.path by {
      forall i | 0 <= i < n
        ensures path[n] != current.path[i]
      {
        assert current.path[i] == path[i];
      }
    }
    assert current.path + [path[n]] == path[..n + 1];
  }

  /** Below the cost of every path through one of firsts, then below the
      cost of every path through next too: below for all of them. */
  lemma ViaStep(risk: Risks, start: Point, end: Point, prefix: seq<Point>, firsts: seq<Point>, next: Point, best: WeightedPath, best': WeightedPath)
    requires BestVia(risk, start, end, prefix, firsts, best) && best'.cost <= best.cost
    requires BestBelow(risk, start, end, prefix + [next], best')
    ensures BestVia(risk, start, end, prefix, firsts + [next], best')
  {
    forall path | Candidate(risk, start, end, path) && prefix <= path && |path| > |prefix| && path[|prefix|] in firsts + [next]
      ensures best'.cost <= Cost(risk, path)
    {
      if path[|prefix|] !in firsts {
        assert prefix + [next] == path[..|prefix| + 1];
      }
    }
  }

  /** The best path after a step: the same one, or a strictly cheaper one
      that goes on from prefix. */
  predicate Improved(before: WeightedPath, after: WeightedPath, prefix: seq<Point>)
  {
    after == before || (after.cost < before.cost && prefix <= after.path)
  }

  /** The early return: with no negative risk, every path going on from a
      current path that already costs more than best costs more too. */
  lemma Pruned(risk: Risks, start: Point, end: Point, visited: set<Point>, current: WeightedPath, best: WeightedPath)
    requires NonNegative(risk) && CurrentOk(risk, start, visited, current) && current.cost > best.cost
    ensures BestBelow(risk, start, end, current.path, best)
  {
    forall path | Candidate(risk, start, end, path) && current.path <= path
      ensures best.cost <= Cost(risk, path)
    {
      CostPrefix(risk, current.path, path);
    }
  }

  /** At end the only path going on from the current one is itself. */
  lemma Reached(risk: Risks, start: Point, end: Point, visited: set<Point>, current: WeightedPath, best: WeightedPath)
    requires CurrentOk(risk, start, visited, current) && current.path[|current.path| - 1] == end && best.cost <= current.cost
    ensures BestBelow(risk, start, end, current.path, best)
  {
    forall path | Candidate(risk, start, end, path) && current.path <= path
      ensures best.cost <= Cost(risk, path)
    {
      AtEnd(risk, start, end, current.path, path);
    }
  }

  /** Below every path through each of the next points, so below every
      path going on from the current one. */
  lemma Explored(grid: array2<int>, risk: Risks, start: Point, end: Point, visited: set<Point>, current: WeightedPath, best: WeightedPath, nextPoints: seq<Point>)
    requires risk == RiskMap(grid) && CurrentOk(risk, start, visited, current) && current.path[|current.path| - 1] != end
    requires nextPoints == NextPoints(GetAdjacentPoints(current.path[|current.path| - 1]), grid, visited)
    requires BestVia(risk, start, end, current.path, nextPoints, best)
    ensures BestBelow(risk, start, end, current.path, best)
  {
    forall path | Candidate(risk, start, end, path) && current.path <= path
      ensures best.cost <= Cost(risk, path)
    {
      GoesOn(grid, risk, start, end, visited, current, path);
    }
  }
}

/** The search itself, over the traversal context. */
module Day15_Bad {
  import opened Common
  import opened Day15_BadPaths

  /** GraphTraversalContext: the shared state of the search. */
  class GraphTraversalContext {
    var shortestPath: WeightedPath
    var currentPath: WeightedPath
    const start: Point
    const end: Point
    const riskGrid: array2<int>
    var visited: set<Point>
    /** The risks of riskGrid, which the search never changes. */
    ghost const risk: Risks

    ghost predicate Valid()
      reads this, riskGrid
    {
      ContextOk(riskGrid, risk, start, end, visited, currentPath, shortestPath)
    }

    /** The context FindShortestPath starts from: the path [start] at cost
        0, the empty best path at int.MaxValue, and start visited. */
    constructor (riskGrid: array2<int>, start: Point)
      ensures this.riskGrid == riskGrid && this.start == start
      ensures end == Point(riskGrid.Length0 - 1, riskGrid.Length1 - 1)
      ensures currentPath == WeightedPath([start], 0) && shortestPath == WeightedPath([], MaxValue)
      ensures visited == {start} && risk == RiskMap(riskGrid)
      ensures Valid()
    {
      currentPath := WeightedPath([start], 0);
      shortestPath := WeightedPath([], MaxValue);
      this.start := start;
      end := Point(riskGrid.Length0 - 1, riskGrid.Length1 - 1);
      this.riskGrid := riskGrid;
      visited := {start};
      risk := RiskMap(riskGrid);
    }

    /** The recursive FindShortestPath: give up when the path already costs
        more than the best one, record it when it reached end at a lower
        cost, and otherwise go on into every valid unvisited neighbour. The
        context is left as it was found, except for a best path that only
        gets cheaper and only by one going on from the current path; with no
        negative risk, the best then costs no more than any simple path to
        end going on from the current one. */
    method FindShortestPath(currentPoint: Point)
      requires Valid() && currentPath.path[|currentPath.path| - 1] == currentPoint
      modifies this
      decreases |risk.Keys - visited|, 2
      ensures Valid()
      ensures visited == old(visited) && currentPath == old(currentPath)
      ensures Improved(old(shortestPath), shortestPath, currentPath.path)
      ensures NonNegative(risk) ==> BestBelow(risk, start, end, currentPath.path, shortestPath)
    {
      ContextFacts(riskGrid, risk, start, end, visited, currentPath, shortestPath);
      if currentPath.cost > shortestPath.cost {
        if NonNegative(risk) {
          Pruned(risk, start, end, visited, currentPath, shortestPath);
        }
        return;
      }
      if currentPoint == end {
        if currentPath.cost < shortestPath.cost {
          shortestPath := WeightedPath(currentPath.path, currentPath.cost);
        }
        Reached(risk, start, end, visited, currentPath, shortestPath);
        return;
      }
      ExploreNext(currentPoint);
    }

    /** The foreach over the valid unvisited neighbours of a point that is
        not end: Descend into each in turn. */
    method ExploreNext(currentPoint: Point)
      requires Valid() && currentPath.path[|currentPath.path| - 1] == currentPoint && currentPoint != end
      modifies this
      decreases |risk.Keys - visited|, 1
      ensures Valid()
      ensures visited == old(visited) && currentPath == old(currentPath)
      ensures Improved(old(shortestPath), shortestPath, currentPath.path)
      ensures NonNegative(risk) ==> BestBelow(risk, start, end, currentPath.path, shortestPath)
    {
      ContextFacts(riskGrid, risk, start, end, visited, currentPath, shortestPath);
      var nextPoints := NextPoints(GetAdjacentPoints(currentPoint), riskGrid, visited);
      ghost var initial := shortestPath;
      for k := 0 to |nextPoints|
        invariant Valid()
        invariant visited == old(visited) && currentPath == old(currentPath)
        invariant Improved(initial, shortestPath, currentPath.path)
        invariant NonNegative(risk) ==> BestVia(risk, start, end, currentPath.path, nextPoints[..k], shortestPath)
      {
        ghost var best := shortestPath;
        assert nextPoints[k] in nextPoints;
        Descend(currentPoint, nextPoints[k]);
        if NonNegative(risk) {
          PrefixStep(nextPoints, k);
          ViaStep(risk, start, end, currentPath.path, nextPoints[..k], nextPoints[k], best, shortestPath);
        }
      }
      if NonNegative(risk) {
        assert nextPoints[..|nextPoints|] == nextPoints;
        Explored(riskGrid, risk, start, end, visited, currentPath, shortestPath, nextPoints);
      }
    }

    /** The loop body: push the neighbour, add its risk and mark it
        visited; search from it; then undo the three in reverse order. */
    method Descend(currentPoint: Point, nextPoint: Point)
      requires Valid() && currentPath.path[|currentPath.path| - 1] == currentPoint && currentPoint != end
      requires Adjacent(currentPoint, nextPoint) && PointIsValid(nextPoint, riskGrid) && nextPoint !in visited
      modifies this
      decreases |risk.Keys - visited|, 0
      ensures Valid()
      ensures visited == old(visited) && currentPath == old(currentPath)
      ensures Improved(old(shortestPath), shortestPath, currentPath.path)
      ensures NonNegative(risk) ==> BestBelow(risk, start, end, currentPath.path + [nextPoint], shortestPath)
    {
      ghost var before, best := currentPath, shortestPath;
      RemoveOne(risk.Keys, visited, nextPoint);
      Enter(nextPoint);
      ghost var entered := currentPath;
      FindShortestPath(nextPoint);
      assert currentPath == entered && |entered.path| == |before.path| + 1;
      Leave(nextPoint);
      DropLast(before.path, nextPoint);
      assert currentPath == before;
      if shortestPath != best {
        PrefixAppend(before.path, nextPoint, shortestPath.path);
      }
    }

    /** Push, add the risk, mark visited. */
    method Enter(nextPoint: Point)
      requires Valid() && Adjacent(currentPath.path[|currentPath.path| - 1], nextPoint)
      requires PointIsValid(nextPoint, riskGrid) && nextPoint !in visited
      modifies this
      ensures currentPath == WeightedPath(old(currentPath.path) + [nextPoint], old(currentPath.cost) + riskGrid[nextPoint.x, nextPoint.y])
      ensures visited == old(visited) + {nextPoint} && shortestPath == old(shortestPath)
      ensures Valid()
    {
      Push(risk, start, visited, currentPath, nextPoint);
      currentPath := WeightedPath(currentPath.path + [nextPoint], currentPath.cost + riskGrid[nextPoint.x, nextPoint.y]);
      visited := visited + {nextPoint};
    }

    /** Unmark, take the risk back, pop: the state Enter started from. */
    method Leave(nextPoint: Point)
      requires Valid() && |currentPath.path| > 1 && currentPath.path[|currentPath.path| - 1] == nextPoint
      modifies this
      ensures PointIsValid(nextPoint, riskGrid)
      ensures visited == old(visited) - {nextPoint} && shortestPath == old(shortestPath)
      ensures currentPath == WeightedPath(old(currentPath.path)[..|old(currentPath.path)| - 1], old(currentPath.cost) - riskGrid[nextPoint.x, nextPoint.y])
      ensures Valid()
    {
      Pop(riskGrid, risk, start, end, visited, currentPath, shortestPath);
      visited := visited - {nextPoint};
      currentPath := WeightedPath(currentPath.path[..|currentPath.path| - 1], currentPath.cost - riskGrid[nextPoint.x, nextPoint.y]);
    }
  }

  /** FindShortestPath over a risk grid: the search from the top-left cell.
      The result is the empty path at int.MaxValue or a simple path from the
      top-left to the bottom-right cell at its own risk; with no negative
      risk it costs no more than any such path. */
  method FindShortestPath(riskGrid: array2<int>) returns (shortest: WeightedPath)
    ensures var risk, start, end := RiskMap(riskGrid), Point(0, 0), Point(riskGrid.Length0 - 1, riskGrid.Length1 - 1);
      && ((shortest.path == [] && shortest.cost == MaxValue) ||
          (Candidate(risk, start, end, shortest.path) && shortest.cost == Cost(risk, shortest.path) && shortest.cost < MaxValue))
      && (NonNegative(risk) ==> forall path :: Candidate(risk, start, end, path) ==> shortest.cost <= Cost(risk, path))
  {
    var start := Point(0, 0);
    var context := new GraphTraversalContext(riskGrid, start);
    context.FindShortestPath(start);
    shortest := context.shortestPath;
    forall path | NonNegative(context.risk) && Candidate(context.risk, start, context.end, path)
      ensures shortest.cost <= Cost(context.risk, path)
    {
      TrailFacts(context.risk, start, path);
      assert [start] <= path;
    }
  }
}
