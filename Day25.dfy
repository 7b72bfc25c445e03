/** Sea cucumbers: an east-facing herd ('>') and a south-facing herd ('v')
    on a grid that wraps at its edges. In each step every east-facing
    cucumber whose east neighbour is empty moves there, all at once, and
    then the same for the south-facing herd; the model counts the steps
    until one in which nothing moves. */
module Day25 {
  import opened Common

  /** A cell (x, y): x along the width, y along the height. */
  type Point = (int, int)

  /** The two herds: East moves along x, South along y. */
  datatype Herd = East | South

  function Marker(d: Herd): char
  {
    if d == East then '>' else 'v'
  }

  predicate InGrid(w: nat, h: nat, p: Point)
  {
    0 <= p.0 < w && 0 <= p.1 < h
  }

  /** One cell on along an axis of size n, wrapping to 0 at the edge. */
  function Next(n: nat, i: int): int
  {
    if i + 1 >= n then 0 else i + 1
  }

  /** One cell back along an axis of size n, wrapping to n - 1. */
  function Prev(n: nat, i: int): int
  {
    if i == 0 then n - 1 else i - 1
  }

  /** GetEastAdjacent (d = East) and GetSouthAdjacent (d = South): the cell
      a cucumber of herd d at p moves to. It lies in the grid. */
  function Adjacent(w: nat, h: nat, d: Herd, p: Point): (q: Point)
    ensures InGrid(w, h, p) ==> InGrid(w, h, q)
    ensures d == East ==> q.1 == p.1
    ensures d == South ==> q.0 == p.0
  {
    if d == East then (Next(w, p.0), p.1) else (p.0, Next(h, p.1))
  }

  /** The cell from which a cucumber of herd d moves to p. */
  function Behind(w: nat, h: nat, d: Herd, p: Point): (q: Point)
    ensures InGrid(w, h, p) ==> InGrid(w, h, q)
  {
    if d == East then (Prev(w, p.0), p.1) else (p.0, Prev(h, p.1))
  }

  /** Within the grid, Adjacent and Behind undo each other. */
  lemma AdjacentBehind(w: nat, h: nat, d: Herd, p: Point)
    requires InGrid(w, h, p)
    ensures Behind(w, h, d, Adjacent(w, h, d, p)) == p
    ensures Adjacent(w, h, d, Behind(w, h, d, p)) == p
  {
  }

  // ---------------------------------------------------------------------
  // Grids as values

  /** The grid's contents: cells[x][y] for x < width and y < height. */
  datatype Grid = Grid(width: nat, height: nat, cells: seq<seq<char>>)

  ghost predicate Shaped(g: Grid)
  {
    |g.cells| == g.width && forall x :: 0 <= x < g.width ==> |g.cells[x]| == g.height
  }

  function At(g: Grid, p: Point): char
    requires Shaped(g) && InGrid(g.width, g.height, p)
  {
    g.cells[p.0][p.1]
  }

  /** Two grids of one shape that agree on every cell are equal. */
  lemma SameGrid(a: Grid, b: Grid)
    requires Shaped(a) && Shaped(b) && a.width == b.width && a.height == b.height
    requires forall p :: InGrid(a.width, a.height, p) ==> At(a, p) == At(b, p)
    ensures a == b
  {
    forall x | 0 <= x < a.width
      ensures a.cells[x] == b.cells[x]
    {
      forall y | 0 <= y < a.height
        ensures a.cells[x][y] == b.cells[x][y]
      {
        assert At(a, (x, y)) == At(b, (x, y));
      }
    }
  }

  /** The cells holding c. */
  ghost function Holding(g: Grid, c: char): set<Point>
    requires Shaped(g)
  {
    set x, y | 0 <= x < g.width && 0 <= y < g.height && At(g, (x, y)) == c :: (x, y)
  }

  lemma HoldingIs(g: Grid, c: char)
    requires Shaped(g)
    ensures forall p :: p in Holding(g, c) <==> InGrid(g.width, g.height, p) && At(g, p) == c
  {
    forall p | InGrid(g.width, g.height, p) && At(g, p) == c ensures p in Holding(g, c) {
      assert p == (p.0, p.1);
    }
  }

  /** A cucumber of herd d at p whose target cell is empty. */
  ghost predicate Mover(g: Grid, d: Herd, p: Point)
    requires Shaped(g)
  {
    InGrid(g.width, g.height, p) && At(g, p) == Marker(d) &&
    At(g, Adjacent(g.width, g.height, d, p)) == '.'
  }

  /** Every cucumber of herd d that can move. */
  ghost function Movers(g: Grid, d: Herd): set<Point>
    requires Shaped(g)
  {
    set x, y | 0 <= x < g.width && 0 <= y < g.height && Mover(g, d, (x, y)) :: (x, y)
  }

  lemma MoversAre(g: Grid, d: Herd)
    requires Shaped(g)
    ensures forall p :: p in Movers(g, d) <==> Mover(g, d, p)
  {
    forall p | Mover(g, d, p) ensures p in Movers(g, d) {
      assert p == (p.0, p.1);
    }
  }

  /** Cell p once the movers in moved have moved. */
  ghost function MovedAt(g: Grid, d: Herd, moved: set<Point>, p: Point): char
    requires Shaped(g) && InGrid(g.width, g.height, p)
  {
    if p in moved then '.'
    else if Behind(g.width, g.height, d, p) in moved then Marker(d)
    else At(g, p)
  }

  /** Half a step: every mover of herd d moves at once. */
  ghost function Shift(g: Grid, d: Herd): (r: Grid)
    requires Shaped(g)
    ensures Shaped(r) && r.width == g.width && r.height == g.height
  {
    Grid(g.width, g.height, MovedColumns(g, d, Movers(g, d), g.width))
  }

  /** Columns 0..n-1 once the cucumbers in moved have moved. */
  ghost function MovedColumns(g: Grid, d: Herd, moved: set<Point>, n: nat): (cs: seq<seq<char>>)
    requires Shaped(g) && n <= g.width
    ensures |cs| == n && forall x :: 0 <= x < n ==> |cs[x]| == g.height
  {
    if n == 0 then []
    else
      MovedColumns(g, d, moved, n - 1) +
      [seq(g.height, y requires 0 <= y < g.height => MovedAt(g, d, moved, (n - 1, y)))]
  }

  lemma {:induction false} MovedColumnsIndex(g: Grid, d: Herd, moved: set<Point>, n: nat)
    requires Shaped(g) && n <= g.width
    ensures forall x, y :: 0 <= x < n && 0 <= y < g.height ==>
      MovedColumns(g, d, moved, n)[x][y] == MovedAt(g, d, moved, (x, y))
  {
    if n > 0 {
      MovedColumnsIndex(g, d, moved, n - 1);
    }
  }

  /** A cell after half a step: a mover leaves it empty, the cell ahead of
      a mover receives it, and every other cell keeps its contents. */
  lemma ShiftSpec(g: Grid, d: Herd, p: Point)
    requires Shaped(g) && InGrid(g.width, g.height, p)
    ensures At(Shift(g, d), p) == MovedAt(g, d, Movers(g, d), p)
    ensures At(Shift(g, d), p) ==
      if Mover(g, d, p) then '.'
      else if Mover(g, d, Behind(g.width, g.height, d, p)) then Marker(d)
      else At(g, p)
  {
    MovedColumnsIndex(g, d, Movers(g, d), g.width);
    var b := Behind(g.width, g.height, d, p);
    assert p in Movers(g, d) <==> Mover(g, d, p);
    assert b in Movers(g, d) <==> Mover(g, d, b);
  }

  /** One mover more: its cell still holds it and the cell ahead is still
      empty, and moving it changes exactly those two cells. */
  lemma MoveStep(g: Grid, d: Herd, moved: set<Point>, p: Point)
    requires Shaped(g) && moved <= Movers(g, d) && p in Movers(g, d) && p !in moved
    ensures InGrid(g.width, g.height, p) && InGrid(g.width, g.height, Adjacent(g.width, g.height, d, p))
    ensures MovedAt(g, d, moved, p) == Marker(d)
    ensures MovedAt(g, d, moved, Adjacent(g.width, g.height, d, p)) == '.'
    ensures forall c :: InGrid(g.width, g.height, c) ==>
      MovedAt(g, d, moved + {p}, c) ==
        if c == p then '.'
        else if c == Adjacent(g.width, g.height, d, p) then Marker(d)
        else MovedAt(g, d, moved, c)
  {
    var w, h := g.width, g.height;
    var q := Adjacent(w, h, d, p);
    AdjacentBehind(w, h, d, p);
    assert Mover(g, d, p);
    assert Behind(w, h, d, p) !in moved by {
      AdjacentBehind(w, h, d, Behind(w, h, d, p));
      assert !Mover(g, d, Behind(w, h, d, p));
    }
    assert q !in moved by {
      assert !Mover(g, d, q);
    }
    forall c | InGrid(w, h, c)
      ensures MovedAt(g, d, moved + {p}, c) ==
        if c == p then '.' else if c == q then Marker(d) else MovedAt(g, d, moved, c)
    {
      AdjacentBehind(w, h, d, c);
    }
  }

  /** The cells the movers move to. */
  ghost function Targets(g: Grid, d: Herd, moved: set<Point>): set<Point>
    requires Shaped(g)
  {
    set p | p in moved :: Adjacent(g.width, g.height, d, p)
  }

  /** Distinct movers have distinct targets. */
  lemma {:induction false} TargetsCount(g: Grid, d: Herd, moved: set<Point>)
    requires Shaped(g) && forall p :: p in moved ==> InGrid(g.width, g.height, p)
    ensures |Targets(g, d, moved)| == |moved|
    decreases |moved|
  {
    if moved != {} {
      var p := SomeElement(moved);
      var rest := moved - {p};
      TargetsCount(g, d, rest);
      var q := Adjacent(g.width, g.height, d, p);
      assert Targets(g, d, moved) == Targets(g, d, rest) + {q};
      assert q !in Targets(g, d, rest) by {
        if q in Targets(g, d, rest) {
          var o :| o in rest && Adjacent(g.width, g.height, d, o) == q;
          AdjacentBehind(g.width, g.height, d, o);
          AdjacentBehind(g.width, g.height, d, p);
          assert false;
        }
      }
    }
  }

  /** The moving herd loses its movers' cells and gains their targets. */
  lemma MovingHerd(g: Grid, d: Herd)
    requires Shaped(g)
    ensures Holding(Shift(g, d), Marker(d)) ==
      Holding(g, Marker(d)) - Movers(g, d) + Targets(g, d, Movers(g, d))
  {
    var w, h, m := g.width, g.height, Marker(d);
    var movers := Movers(g, d);
    forall p | p in Holding(Shift(g, d), m)
      ensures p in Holding(g, m) - movers + Targets(g, d, movers)
    {
      ShiftSpec(g, d, p);
      var b := Behind(w, h, d, p);
      AdjacentBehind(w, h, d, p);
      if !Mover(g, d, p) && Mover(g, d, b) {
        assert p == Adjacent(w, h, d, b);
      }
    }
    forall p | p in Holding(g, m) - movers + Targets(g, d, movers)
      ensures p in Holding(Shift(g, d), m)
    {
      if p in Targets(g, d, movers) {
        var b :| b in movers && Adjacent(w, h, d, b) == p;
        AdjacentBehind(w, h, d, b);
        ShiftSpec(g, d, p);
      } else {
        ShiftSpec(g, d, p);
      }
    }
  }

  /** The movers' targets are empty cells of the grid. */
  lemma TargetsEmpty(g: Grid, d: Herd)
    requires Shaped(g)
    ensures forall p :: p in Targets(g, d, Movers(g, d)) ==> InGrid(g.width, g.height, p) && At(g, p) == '.'
  {
    forall p | p in Targets(g, d, Movers(g, d))
      ensures InGrid(g.width, g.height, p) && At(g, p) == '.'
    {
      var b :| b in Movers(g, d) && Adjacent(g.width, g.height, d, b) == p;
    }
  }

  /** The herd that does not move keeps its cells. */
  lemma OtherHerd(g: Grid, d: Herd, o: char)
    requires Shaped(g) && o != Marker(d) && o != '.'
    ensures Holding(Shift(g, d), o) == Holding(g, o)
  {
    forall p | InGrid(g.width, g.height, p)
      ensures At(Shift(g, d), p) == o <==> At(g, p) == o
    {
      ShiftSpec(g, d, p);
    }
  }

  /** Half a step keeps the size of both herds: the moving herd trades its
      movers' cells for their targets, which were empty and are as many,
      and the other herd stays where it is. */
  lemma ShiftKeepsHerds(g: Grid, d: Herd)
    requires Shaped(g)
    ensures |Holding(Shift(g, d), '>')| == |Holding(g, '>')|
    ensures |Holding(Shift(g, d), 'v')| == |Holding(g, 'v')|
  {
    var m := Marker(d);
    var movers := Movers(g, d);
    var rest := Holding(g, m) - movers;
    var targets := Targets(g, d, movers);
    MovingHerd(g, d);
    TargetsEmpty(g, d);
    TargetsCount(g, d, movers);
    assert rest * targets == {};
    assert movers <= Holding(g, m);
    assert |rest| == |Holding(g, m)| - |movers|;
    assert |rest + targets| == |rest| + |targets|;
    OtherHerd(g, d, if d == East then 'v' else '>');
  }

  // ---------------------------------------------------------------------
  // Steps

  /** NextStep on values: the east herd, then the south herd. */
  ghost function Step(g: Grid): (r: Grid)
    requires Shaped(g)
    ensures Shaped(r) && r.width == g.width && r.height == g.height
  {
    Shift(Shift(g, East), South)
  }

  /** How many cucumbers a step moves. */
  ghost function StepMoves(g: Grid): nat
    requires Shaped(g)
  {
    |Movers(g, East)| + |Movers(Shift(g, East), South)|
  }

  /** A step keeps the number of cucumbers in each herd. */
  lemma StepKeepsHerds(g: Grid)
    requires Shaped(g)
    ensures |Holding(Step(g), '>')| == |Holding(g, '>')|
    ensures |Holding(Step(g), 'v')| == |Holding(g, 'v')|
  {
    ShiftKeepsHerds(g, East);
    ShiftKeepsHerds(Shift(g, East), South);
  }

  /** The grid after n steps. */
  ghost function Steps(g: Grid, n: nat): (r: Grid)
    requires Shaped(g)
    ensures Shaped(r) && r.width == g.width && r.height == g.height
  {
    if n == 0 then g else Step(Steps(g, n - 1))
  }

  /** The 1-based index of the first of steps 1..n that moves nothing,
      where step i + 1 moves moves(i) cucumbers. */
  ghost function FirstStill(moves: nat -> nat, n: nat): Option<nat>
  {
    if n == 0 then None
    else
      var r := FirstStill(moves, n - 1);
      if r.Some? then r else if moves(n - 1) == 0 then Some(n) else None
  }

  /** FirstStill finds the first step that moves nothing, and fails only
      when each of the n steps moves something. */
  lemma {:induction false} FirstStillSpec(moves: nat -> nat, n: nat)
    ensures FirstStill(moves, n).Some? ==>
      var k := FirstStill(moves, n).value;
      1 <= k <= n && moves(k - 1) == 0 && forall i :: 0 <= i < k - 1 ==> moves(i) > 0
    ensures FirstStill(moves, n).None? ==> forall i :: 0 <= i < n ==> moves(i) > 0
  {
    if n > 0 {
      FirstStillSpec(moves, n - 1);
    }
  }

  /** Once found, the first step that moves nothing stays the same when
      more steps are allowed. */
  lemma {:induction false} FirstStillStays(moves: nat -> nat, n: nat, m: nat)
    requires n <= m && FirstStill(moves, n).Some?
    ensures FirstStill(moves, m) == FirstStill(moves, n)
    decreases m
  {
    if m > n {
      FirstStillStays(moves, n, m - 1);
    }
  }

  /** How many cucumbers step i + 1 from g moves. */
  ghost function MovesFrom(g: Grid): nat -> nat
    requires Shaped(g)
  {
    i => StepMoves(Steps(g, i))
  }

  /** Step k + 1 of StepsToEquilibirum, from cur, the grid after k steps
      that all moved something. */
  lemma StillStep(g: Grid, k: nat, fuel: nat, cur: Grid)
    requires Shaped(g) && k < fuel && cur == Steps(g, k) && FirstStill(MovesFrom(g), k) == None
    ensures Shaped(cur) && Steps(g, k + 1) == Step(cur)
    ensures StepMoves(cur) == 0 ==> FirstStill(MovesFrom(g), fuel) == Some(k + 1)
    ensures StepMoves(cur) != 0 ==> FirstStill(MovesFrom(g), k + 1) == None
  {
    assert MovesFrom(g)(k) == StepMoves(cur);
    if StepMoves(cur) == 0 {
      FirstStillStays(MovesFrom(g), k + 1, fuel);
    }
  }

  // ---------------------------------------------------------------------
  // The map object's state as values

  /** e is exactly the set of cells of g holding c. */
  ghost predicate Herding(g: Grid, e: set<Point>, c: char)
    requires Shaped(g)
  {
    forall p :: p in e <==> InGrid(g.width, g.height, p) && At(g, p) == c
  }

  /** e and s are exactly the cells of g holding '>' and 'v'. */
  ghost predicate Tracks(g: Grid, e: set<Point>, s: set<Point>)
  {
    Shaped(g) && Herding(g, e, '>') && Herding(g, s, 'v')
  }

  /** The herd sets of a tracked grid are its cells holding the markers. */
  lemma TracksHolding(g: Grid, e: set<Point>, s: set<Point>)
    requires Tracks(g, e, s)
    ensures e == Holding(g, '>') && s == Holding(g, 'v')
  {
    HoldingIs(g, '>');
    HoldingIs(g, 'v');
  }

  /** A cucumber of a tracked herd can move exactly when its target is empty. */
  lemma HerdMover(g: Grid, e: set<Point>, s: set<Point>, d: Herd, p: Point)
    requires Tracks(g, e, s) && p in (if d == East then e else s)
    ensures InGrid(g.width, g.height, p)
    ensures Mover(g, d, p) <==> At(g, Adjacent(g.width, g.height, d, p)) == '.'
  {
  }

  /** The movers of a tracked herd belong to it. */
  lemma MoversInHerd(g: Grid, e: set<Point>, s: set<Point>, d: Herd)
    requires Tracks(g, e, s)
    ensures Movers(g, d) <= (if d == East then e else s)
  {
  }

  /** b is a with the contents of from moved to to and from left empty. */
  ghost predicate MovedCell(a: Grid, b: Grid, from: Point, to: Point)
  {
    Shaped(a) && Shaped(b) && a.width == b.width && a.height == b.height &&
    InGrid(a.width, a.height, from) && InGrid(a.width, a.height, to) &&
    forall p :: InGrid(a.width, a.height, p) ==>
      At(b, p) == if p == from then '.' else if p == to then At(a, from) else At(a, p)
  }

  /** After a successful move, the herd of the moved cucumber trades from for
      to, which keeps its size, and any other herd keeps its cells. */
  lemma MoveHerd(a: Grid, b: Grid, e: set<Point>, c: char, from: Point, to: Point)
    requires MovedCell(a, b, from, to) && Herding(a, e, c)
    requires c != '.' && At(a, from) != '.' && At(a, to) == '.'
    ensures Herding(b, if At(a, from) == c then e - {from} + {to} else e, c)
    ensures |if At(a, from) == c then e - {from} + {to} else e| == |e|
  {
    if At(a, from) == c {
      assert to !in e - {from};
      assert |e - {from}| == |e| - 1;
    }
  }

  /** A successful Move keeps the herd sets in step with the grid. */
  lemma MoveTracks(a: Grid, b: Grid, e: set<Point>, s: set<Point>, from: Point, to: Point)
    requires Tracks(a, e, s) && MovedCell(a, b, from, to)
    requires At(a, from) != '.' && At(a, to) == '.'
    ensures Tracks(b, if At(a, from) == '>' then e - {from} + {to} else e,
                      if At(a, from) == 'v' then s - {from} + {to} else s)
    ensures At(a, from) == '>' ==> |e - {from} + {to}| == |e|
    ensures At(a, from) == 'v' ==> |s - {from} + {to}| == |s|
  {
    MoveHerd(a, b, e, '>', from, to);
    MoveHerd(a, b, s, 'v', from, to);
  }

  /** No cell appears twice in s. */
  ghost predicate Distinct(s: seq<Point>)
  {
    forall i, j :: 0 <= i < j < |s| ==> s[i] != s[j]
  }

  /** A cell not in a list without repeats can be added to its end. */
  lemma DistinctAppend(s: seq<Point>, p: Point)
    requires Distinct(s) && p !in s
    ensures Distinct(s + [p])
  {
  }

  /** The cells of the first i entries of a list of cells. */
  ghost function Prefix(s: seq<Point>, i: nat): set<Point>
    requires i <= |s|
  {
    if i == 0 then {} else Prefix(s, i - 1) + {s[i - 1]}
  }

  /** The cells of the first i entries are exactly those entries. */
  lemma {:induction false} PrefixHas(s: seq<Point>, i: nat)
    requires i <= |s|
    ensures forall p :: p in Prefix(s, i) <==> exists k :: 0 <= k < i && s[k] == p
  {
    if i > 0 {
      PrefixHas(s, i - 1);
    }
  }

  /** In a list without repeats, entry i is not among the entries before it,
      and all the entries make up the list's cells. */
  lemma PrefixFresh(s: seq<Point>, i: nat)
    requires i < |s| && Distinct(s)
    ensures s[i] !in Prefix(s, i)
  {
    PrefixHas(s, i);
  }

  lemma PrefixAll(s: seq<Point>)
    ensures forall p :: p in Prefix(s, |s|) <==> p in s
  {
    PrefixHas(s, |s|);
  }

  /** A list without repeats has as many cells as entries. */
  lemma {:induction false} PrefixCount(s: seq<Point>, i: nat)
    requires i <= |s| && Distinct(s)
    ensures |Prefix(s, i)| == i
  {
    if i > 0 {
      PrefixCount(s, i - 1);
      PrefixFresh(s, i - 1);
    }
  }

  /** cur is g with the movers in done already moved. */
  ghost predicate PartShift(cur: Grid, g: Grid, d: Herd, done: set<Point>)
  {
    match g
    case Grid(width, height, _) =>
      Shaped(g) && Shaped(cur) && cur.width == width && cur.height == height &&
      done <= Movers(g, d) &&
      forall p :: InGrid(width, height, p) ==> At(cur, p) == MovedAt(g, d, done, p)
  }

  lemma PartShiftStart(g: Grid, d: Herd)
    requires Shaped(g)
    ensures PartShift(g, g, d, {})
  {
  }

  /** A mover not yet moved still stands in its cell, facing an empty one. */
  lemma PartShiftReady(cur: Grid, g: Grid, d: Herd, done: set<Point>, p: Point)
    requires PartShift(cur, g, d, done) && p in Movers(g, d) && p !in done
    ensures InGrid(g.width, g.height, p) && InGrid(g.width, g.height, Adjacent(g.width, g.height, d, p))
    ensures At(cur, p) == Marker(d) && At(cur, Adjacent(g.width, g.height, d, p)) == '.'
  {
    MoveStep(g, d, done, p);
  }

  /** Moving one more mover extends the part of the half step done. */
  lemma PartShiftStep(cur: Grid, next: Grid, g: Grid, d: Herd, done: set<Point>, p: Point)
    requires PartShift(cur, g, d, done) && p in Movers(g, d) && p !in done
    requires MovedCell(cur, next, p, Adjacent(g.width, g.height, d, p))
    ensures PartShift(next, g, d, done + {p})
  {
    MoveStep(g, d, done, p);
  }

  /** Once every mover has moved, the half step is complete. */
  lemma PartShiftDone(cur: Grid, g: Grid, d: Herd)
    requires Shaped(g) && PartShift(cur, g, d, Movers(g, d))
    ensures cur == Shift(g, d)
  {
    forall p | InGrid(g.width, g.height, p) ensures At(cur, p) == At(Shift(g, d), p) {
      ShiftSpec(g, d, p);
    }
    SameGrid(cur, Shift(g, d));
  }
}
