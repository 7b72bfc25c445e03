/** Trick shot: a probe launched from the origin moves by its velocity each
    step, drag pulls the horizontal velocity toward 0 and gravity lowers
    the vertical one; a launch is good when some position falls inside the
    target area. */
module Day17 {
  import opened Common

  datatype Point = Point(x: int, y: int)

  /** The target area, inclusive at both corners. */
  datatype Area = Area(start: Point, end: Point)

  const Origin := Point(0, 0)

  /** IsWithin: both coordinates in the inclusive bounds. */
  predicate IsWithin(p: Point, area: Area)
  {
    area.start.x <= p.x <= area.end.x && area.start.y <= p.y <= area.end.y
  }

  /** One step of GetPath: the position moves by the velocity in force. */
  function Move(pos: Point, vel: Point): Point
  {
    Point(pos.x + vel.x, pos.y + vel.y)
  }

  /** One step of GetPath: drag and gravity. */
  function Drag(vel: Point): Point
  {
    Point(if vel.x != 0 then vel.x - 1 else 0, vel.y - 1)
  }

  /** The position and the velocity after k steps of a launch. */
  function Launch(vel0: Point, k: nat): (Point, Point)
  {
    if k == 0 then (Origin, vel0)
    else
      var s := Launch(vel0, k - 1);
      (Move(s.0, s.1), Drag(s.1))
  }

  function PositionAfter(vel0: Point, k: nat): Point { Launch(vel0, k).0 }

  function VelocityAfter(vel0: Point, k: nat): Point { Launch(vel0, k).1 }

  /** After k steps the vertical velocity has fallen by k and a
      non-negative horizontal one has come down to 0 at the most. */
  lemma {:induction false} VelocityClosedForm(vel0: Point, k: nat)
    ensures VelocityAfter(vel0, k).y == vel0.y - k
    ensures vel0.x >= 0 ==> VelocityAfter(vel0, k).x == if vel0.x - k > 0 then vel0.x - k else 0
  {
    if k > 0 {
      VelocityClosedForm(vel0, k - 1);
    }
  }

  /** How far the loop of GetPath still has to go: while the probe rises,
      its vertical velocity; once it falls, its height above the target. */
  function Rise(vel: Point): nat { if vel.y >= 0 then vel.y + 1 else 0 }

  function Height(pos: Point, area: Area): nat
  {
    if pos.y - area.start.y >= 0 then pos.y - area.start.y else 0
  }

  /** The rest of the loop of GetPath from a position and velocity: the
      positions up to and including the first inside the area, or None
      when the probe is falling below the area first. */
  function Flight(pos: Point, vel: Point, area: Area): (r: Option<seq<Point>>)
    ensures r.Some? ==> r.value != []
    decreases Rise(vel), Height(pos, area)
  {
    var p, v := Move(pos, vel), Drag(vel);
    if IsWithin(p, area) then Some([p])
    else if v.y < 0 && p.y < area.start.y then None
    else
      match Flight(p, v, area)
      case None => None
      case Some(rest) => Some([p] + rest)
  }

  /** GetPath: the positions of a launch from the origin up to the first
      inside the area, or None (the C# null). */
  function Path(vel0: Point, area: Area): Option<seq<Point>>
  {
    Flight(Origin, vel0, area)
  }

  /** A path found is the sequence of the launch's positions, its last
      position is inside the area and no earlier one is. */
  lemma {:induction false} FlightHits(vel0: Point, area: Area, j: nat)
    requires Flight(PositionAfter(vel0, j), VelocityAfter(vel0, j), area).Some?
    ensures var ps := Flight(PositionAfter(vel0, j), VelocityAfter(vel0, j), area).value;
      && (forall i :: 0 <= i < |ps| ==> ps[i] == PositionAfter(vel0, j + i + 1))
      && IsWithin(ps[|ps| - 1], area)
      && (forall i :: 0 <= i < |ps| - 1 ==> !IsWithin(ps[i], area))
    decreases Rise(VelocityAfter(vel0, j)), Height(PositionAfter(vel0, j), area)
  {
    var pos, vel := PositionAfter(vel0, j), VelocityAfter(vel0, j);
    var p := Move(pos, vel);
    assert p == PositionAfter(vel0, j + 1) && Drag(vel) == VelocityAfter(vel0, j + 1);
    if !IsWithin(p, area) {
      FlightHits(vel0, area, j + 1);
      var rest := Flight(p, Drag(vel), area).value;
      var ps := [p] + rest;
      forall i | 0 < i < |ps| ensures ps[i] == PositionAfter(vel0, j + i + 1) {
        assert ps[i] == rest[i - 1];
      }
    }
  }

  lemma PathHits(vel0: Point, area: Area)
    requires Path(vel0, area).Some?
    ensures var ps := Path(vel0, area).value;
      && (forall i :: 0 <= i < |ps| ==> ps[i] == PositionAfter(vel0, i + 1))
      && IsWithin(ps[|ps| - 1], area)
      && (forall i :: 0 <= i < |ps| - 1 ==> !IsWithin(ps[i], area))
  {
    FlightHits(vel0, area, 0);
  }

  /** Once the probe falls with a negative vertical velocity below the
      area, it stays below it. */
  lemma {:induction false} StaysBelow(vel0: Point, area: Area, j: nat, k: nat)
    requires VelocityAfter(vel0, j).y < 0 && PositionAfter(vel0, j).y < area.start.y
    requires j <= k
    ensures VelocityAfter(vel0, k).y < 0 && PositionAfter(vel0, k).y < area.start.y
    decreases k - j
  {
    if j < k {
      StaysBelow(vel0, area, j, k - 1);
    }
  }

  /** A launch without a path never reaches the area, at any step. */
  lemma {:induction false} FlightMisses(vel0: Point, area: Area, j: nat, k: nat)
    requires Flight(PositionAfter(vel0, j), VelocityAfter(vel0, j), area).None?
    requires j < k
    ensures !IsWithin(PositionAfter(vel0, k), area)
    decreases Rise(VelocityAfter(vel0, j)), Height(PositionAfter(vel0, j), area)
  {
    var pos, vel := PositionAfter(vel0, j), VelocityAfter(vel0, j);
    var p, v := Move(pos, vel), Drag(vel);
    assert p == PositionAfter(vel0, j + 1) && v == VelocityAfter(vel0, j + 1);
    if v.y < 0 && p.y < area.start.y {
      StaysBelow(vel0, area, j + 1, k);
    } else if k > j + 1 {
      FlightMisses(vel0, area, j + 1, k);
    }
  }

  /** A launch has no path iff none of its positions is inside the area. */
  lemma PathMisses(vel0: Point, area: Area)
    ensures Path(vel0, area).None? <==> forall k :: k >= 1 ==> !IsWithin(PositionAfter(vel0, k), area)
  {
    if Path(vel0, area).None? {
      forall k | k >= 1 ensures !IsWithin(PositionAfter(vel0, k), area) {
        FlightMisses(vel0, area, 0, k);
      }
    } else {
      PathHits(vel0, area);
      var ps := Path(vel0, area).value;
      assert IsWithin(PositionAfter(vel0, |ps|), area);
    }
  }

  /** The points found so far in front of what the rest of the loop finds. */
  function Prepend(done: seq<Point>, rest: Option<seq<Point>>): Option<seq<Point>>
  {
    match rest
    case None => None
    case Some(ps) => Some(done + ps)
  }

  /** GetPath, as the loop the C# code runs. */
  method GetPath(velocity: Point, area: Area) returns (r: Option<seq<Point>>)
    ensures r == Path(velocity, area)
  {
    var points := [];
    var currentPosition, currentVelocity := Origin, velocity;
    assert Path(velocity, area).Some? ==> [] + Path(velocity, area).value == Path(velocity, area).value;
    while true
      invariant Path(velocity, area) == Prepend(points, Flight(currentPosition, currentVelocity, area))
      decreases Rise(currentVelocity), Height(currentPosition, area)
    {
      var rest := Flight(Move(currentPosition, currentVelocity), Drag(currentVelocity), area);
      assert rest.Some? ==>
        (points + ([Move(currentPosition, currentVelocity)] + rest.value)
         == points + [Move(currentPosition, currentVelocity)] + rest.value);
      currentPosition := Move(currentPosition, currentVelocity);
      currentVelocity := Drag(currentVelocity);
      points := points + [currentPosition];
      if IsWithin(currentPosition, area) {
        return Some(points);
      }
      if currentVelocity.y < 0 && currentPosition.y < area.start.y {
        break;
      }
    }
    return None;
  }

  /** The velocities FindValidVelocities tries: x from 1 to the far edge,
      y in [-|start.y| - 1, |start.y| + 1). */
  predicate Scanned(v: Point, area: Area)
  {
    1 <= v.x <= area.end.x && -Reach(area) - 1 <= v.y < Reach(area) + 1
  }

  function Reach(area: Area): int { Abs(area.start.y) }

  /** The scan order: by x, then by y. */
  predicate Before(a: Point, b: Point)
  {
    a.x < b.x || (a.x == b.x && a.y < b.y)
  }

  /** What FindValidVelocities knows once it has scanned every velocity
      before next: the list holds exactly those with a path, in order. */
  ghost predicate Collected(area: Area, vs: seq<Point>, next: Point)
  {
    && (forall v :: v in vs <==> Scanned(v, area) && Before(v, next) && Path(v, area).Some?)
    && (forall i, j :: 0 <= i < j < |vs| ==> Before(vs[i], vs[j]))
    && (forall i :: 0 <= i < |vs| ==> Before(vs[i], next))
  }

  /** Scanning one more velocity keeps Collected. */
  lemma ScanOne(area: Area, vs: seq<Point>, v: Point)
    requires Collected(area, vs, v) && Scanned(v, area)
    ensures Path(v, area).Some? ==> Collected(area, vs + [v], Point(v.x, v.y + 1))
    ensures Path(v, area).None? ==> Collected(area, vs, Point(v.x, v.y + 1))
  {
    var next := Point(v.x, v.y + 1);
    assert forall w :: Before(w, next) ==> Before(w, v) || w == v;
  }

  /** Past the last scanned y of a column, the next column begins. */
  lemma ScanColumn(area: Area, vs: seq<Point>, x: int)
    requires Collected(area, vs, Point(x, Reach(area) + 1))
    ensures Collected(area, vs, Point(x + 1, -Reach(area) - 1))
  {
  }

  /** FindValidVelocities: the scanned velocities with a path, each once,
      in scan order. */
  method FindValidVelocities(area: Area) returns (velocities: seq<Point>)
    ensures forall v :: v in velocities <==> Scanned(v, area) && Path(v, area).Some?
    ensures forall i, j :: 0 <= i < j < |velocities| ==> Before(velocities[i], velocities[j])
  {
    velocities := [];
    var low, high := -Reach(area) - 1, Reach(area) + 1;
    var x := 1;
    while x <= area.end.x
      invariant Collected(area, velocities, Point(x, low))
    {
      var y := low;
      while y < high
        invariant low <= y <= high
        invariant Collected(area, velocities, Point(x, y))
      {
        var path := GetPath(Point(x, y), area);
        ScanOne(area, velocities, Point(x, y));
        if path.Some? {
          velocities := velocities + [Point(x, y)];
        }
        y := y + 1;
      }
      ScanColumn(area, velocities, x);
      x := x + 1;
    }
    assert forall v :: Scanned(v, area) ==> Before(v, Point(x, low));
  }

  /** The highest point of a path. */
  function Peak(ps: seq<Point>): (m: int)
    requires ps != []
    ensures exists i :: 0 <= i < |ps| && ps[i].y == m
    ensures forall i :: 0 <= i < |ps| ==> ps[i].y <= m
  {
    if |ps| == 1 then ps[0].y
    else
      var rest := Peak(ps[..|ps| - 1]);
      assert forall i :: 0 <= i < |ps| - 1 ==> ps[..|ps| - 1][i] == ps[i];
      if ps[|ps| - 1].y > rest then ps[|ps| - 1].y else rest
  }

  /** The velocities FindMaximumY tries: x in [1, end.x), y in
      [0, 3 * start.x). */
  predicate Tried(v: Point, area: Area)
  {
    1 <= v.x < area.end.x && 0 <= v.y < 3 * area.start.x
  }

  /** The peak of a launch's path, or int.MinValue when it has none. */
  function PeakOf(v: Point, area: Area): int
  {
    var path := Path(v, area);
    if path.Some? then Peak(path.value) else IntMin
  }

  /** What FindMaximumY knows once it has tried every velocity before
      next: the best so far (found) is tried, beats every velocity before
      it and is beaten by none before next. */
  ghost predicate Leading(area: Area, found: bool, best: Point, currentMax: int, next: Point)
  {
    && (found ==> Tried(best, area) && Before(best, next) && currentMax == PeakOf(best, area) > IntMin)
    && (found ==> forall v :: Tried(v, area) && Before(v, best) ==> PeakOf(v, area) < currentMax)
    && (!found ==> currentMax == IntMin)
    && (forall v :: Tried(v, area) && Before(v, next) ==> PeakOf(v, area) <= currentMax)
  }

  /** Trying one more velocity keeps Leading. */
  lemma TryOne(area: Area, found: bool, best: Point, currentMax: int, v: Point)
    requires Leading(area, found, best, currentMax, v) && Tried(v, area)
    ensures PeakOf(v, area) > currentMax ==> Leading(area, true, v, PeakOf(v, area), Point(v.x, v.y + 1))
    ensures PeakOf(v, area) <= currentMax ==> Leading(area, found, best, currentMax, Point(v.x, v.y + 1))
  {
    var next := Point(v.x, v.y + 1);
    assert forall w :: Before(w, next) ==> Before(w, v) || w == v;
  }

  /** Past the last tried y of a column, the next column begins. */
  lemma NextColumn(area: Area, found: bool, best: Point, currentMax: int, x: int, y: int)
    requires Leading(area, found, best, currentMax, Point(x, y)) && y >= 3 * area.start.x
    ensures Leading(area, found, best, currentMax, Point(x + 1, 0))
  {
  }

  /** FindMaximumY: the path of the first tried velocity, in scan order,
      whose peak exceeds every earlier one and int.MinValue, and that no
      later tried velocity beats. */
  method FindMaximumY(area: Area) returns (maxPath: Option<seq<Point>>, ghost best: Point)
    ensures maxPath.Some? ==> Tried(best, area) && maxPath == Path(best, area)
    ensures maxPath.Some? ==> PeakOf(best, area) > IntMin
    ensures forall v :: Tried(v, area) ==> PeakOf(v, area) <= (if maxPath.Some? then PeakOf(best, area) else IntMin)
    ensures maxPath.Some? ==> forall v :: Tried(v, area) && Before(v, best) ==> PeakOf(v, area) < PeakOf(best, area)
  {
    maxPath := None;
    best := Origin;
    var currentMax := IntMin;
    var x := 1;
    while x < area.end.x
      invariant Leading(area, maxPath.Some?, best, currentMax, Point(x, 0))
      invariant maxPath.Some? ==> maxPath == Path(best, area)
    {
      var y := 0;
      while y < 3 * area.start.x
        invariant y >= 0
        invariant Leading(area, maxPath.Some?, best, currentMax, Point(x, y))
        invariant maxPath.Some? ==> maxPath == Path(best, area)
      {
        var path := GetPath(Point(x, y), area);
        TryOne(area, maxPath.Some?, best, currentMax, Point(x, y));
        if path.Some? {
          var maxY := Peak(path.value);
          if maxY > currentMax {
            maxPath, best, currentMax := path, Point(x, y), maxY;
          }
        }
        y := y + 1;
      }
      NextColumn(area, maxPath.Some?, best, currentMax, x, y);
      x := x + 1;
    }
    assert forall v :: Tried(v, area) ==> Before(v, Point(x, 0));
  }
}
