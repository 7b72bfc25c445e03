/** Reactor cuboids as values: inclusive integer ranges, boxes made of
    three of them, cutting a box along a plane, carving one box out of
    another, and the halving that builds the box index. */
module Day22 {
  import opened Common

  function Min(a: int, b: int): int { if a <= b then a else b }
  function Max(a: int, b: int): int { if a >= b then a else b }

  /** InclusiveRange: the integers Min..Max, empty when Min > Max. */
  datatype Range = Range(min: int, max: int)
  {
    function Size(): int { max - min + 1 }

    predicate IsValid() { min <= max }

    predicate Contains(v: int) { min <= v <= max }

    /** The overlap of two ranges: the largest Min to the smallest Max. */
    function Intersect(other: Range): (r: Range)
      ensures forall v :: r.Contains(v) <==> Contains(v) && other.Contains(v)
      ensures r.IsValid() <==> IsValid() && other.IsValid() && min <= other.max && other.min <= max
    {
      Range(Max(min, other.min), Min(max, other.max))
    }
  }

  /** A range holds a value exactly when it is valid, and then it holds
      Size values from Min on. */
  lemma RangeSize(r: Range)
    ensures r.IsValid() <==> r.Contains(r.min)
    ensures r.IsValid() <==> r.Size() >= 1
  {
  }

  datatype Point3 = Point3(x: int, y: int, z: int)

  datatype Axis = X | Y | Z

  function Coord(p: Point3, a: Axis): int
  {
    match a
    case X => p.x
    case Y => p.y
    case Z => p.z
  }

  /** RangeCube: one range per axis. */
  datatype Cube = Cube(x: Range, y: Range, z: Range)
  {
    function Along(a: Axis): Range
    {
      match a
      case X => x
      case Y => y
      case Z => z
    }

    /** The same box with the range on axis a replaced. */
    function With(a: Axis, r: Range): (c: Cube)
      ensures c.Along(a) == r
      ensures forall b :: b != a ==> c.Along(b) == Along(b)
    {
      match a
      case X => Cube(r, y, z)
      case Y => Cube(x, r, z)
      case Z => Cube(x, y, r)
    }

    /** The corner with the smallest coordinates. */
    function GetContainedPoint(): (p: Point3)
      ensures IsValid() <==> Contains(p)
    {
      Point3(x.min, y.min, z.min)
    }

    function Volume(): int
    {
      x.Size() * y.Size() * z.Size()
    }

    predicate IsValid() { x.IsValid() && y.IsValid() && z.IsValid() }

    predicate Contains(p: Point3)
    {
      x.Contains(p.x) && y.Contains(p.y) && z.Contains(p.z)
    }

    function Intersect(other: Cube): (r: Cube)
      ensures forall p :: r.Contains(p) <==> Contains(p) && other.Contains(p)
    {
      Cube(x.Intersect(other.x), y.Intersect(other.y), z.Intersect(other.z))
    }
  }

  /** A box holds a point exactly when each axis range holds its coordinate. */
  lemma ContainsByAxis(c: Cube, p: Point3)
    ensures c.Contains(p) <==> forall a :: c.Along(a).Contains(Coord(p, a))
  {
    if !c.Contains(p) {
      if !c.x.Contains(p.x) {
        assert !c.Along(X).Contains(Coord(p, X));
      } else if !c.y.Contains(p.y) {
        assert !c.Along(Y).Contains(Coord(p, Y));
      } else {
        assert !c.Along(Z).Contains(Coord(p, Z));
      }
    }
  }

  /** Bounds.Intersect(c).IsValid, the test the index uses: the two boxes
      share a point. */
  predicate Meets(a: Cube, b: Cube)
  {
    a.Intersect(b).IsValid()
  }

  lemma MeetsIff(a: Cube, b: Cube)
    ensures Meets(a, b) <==> exists p :: a.Contains(p) && b.Contains(p)
  {
    if Meets(a, b) {
      var p := a.Intersect(b).GetContainedPoint();
      assert a.Contains(p) && b.Contains(p);
    } else {
      forall p | a.Contains(p) ensures !b.Contains(p)
      {
      }
    }
  }

  /** Every point of `small` is in `big`. */
  ghost predicate Covers(big: Cube, small: Cube)
  {
    forall p :: small.Contains(p) ==> big.Contains(p)
  }

  /** Each range of `small` lies within the matching range of `big`
      (an unchecked bound on an empty range included). */
  predicate Inside(small: Cube, big: Cube)
  {
    forall a :: big.Along(a).min <= small.Along(a).min && small.Along(a).max <= big.Along(a).max
  }

  lemma InsideCovers(small: Cube, big: Cube)
    requires Inside(small, big)
    ensures Covers(big, small)
  {
    assert big.Along(X).min <= small.Along(X).min && small.Along(X).max <= big.Along(X).max;
    assert big.Along(Y).min <= small.Along(Y).min && small.Along(Y).max <= big.Along(Y).max;
    assert big.Along(Z).min <= small.Along(Z).min && small.Along(Z).max <= big.Along(Z).max;
  }

  lemma InsideTransitive(a: Cube, b: Cube, c: Cube)
    requires Inside(a, b) && Inside(b, c)
    ensures Inside(a, c)
  {
    forall ax ensures c.Along(ax).min <= a.Along(ax).min && a.Along(ax).max <= c.Along(ax).max
    {
      assert b.Along(ax).min <= a.Along(ax).min && a.Along(ax).max <= b.Along(ax).max;
      assert c.Along(ax).min <= b.Along(ax).min && b.Along(ax).max <= c.Along(ax).max;
    }
  }

  // ---------------------------------------------------------------------
  // Input bounds

  /** ExpandRange on ranges: the smallest Min and the largest Max. */
  function ExpandRange(last: Range, next: Range): (r: Range)
    ensures r.min <= last.min && r.min <= next.min && r.max >= last.max && r.max >= next.max
    ensures r.min == last.min || r.min == next.min
    ensures r.max == last.max || r.max == next.max
  {
    Range(Min(last.min, next.min), Max(last.max, next.max))
  }

  /** ExpandRange on boxes, axis by axis. */
  function ExpandCube(last: Cube, next: Cube): (r: Cube)
    ensures Inside(last, r) && Inside(next, r)
  {
    var r := Cube(ExpandRange(last.x, next.x), ExpandRange(last.y, next.y), ExpandRange(last.z, next.z));
    assert forall a :: r.Along(a) == ExpandRange(last.Along(a), next.Along(a));
    r
  }

  /** The initial bounds: Min = int.MaxValue and Max = int.MinValue. */
  const NoBounds: Cube := Cube(Range(IntMax, IntMin), Range(IntMax, IntMin), Range(IntMax, IntMin))

  /** A range left at its default value, 0..0. */
  const Unset: Range := Range(0, 0)

  /** The parser widens the bounds after reading each axis of a flip,
      while the axes not read yet still hold their default 0..0. */
  function ReadBounds(bounds: Cube, c: Cube): (r: Cube)
    ensures Inside(c, r) && Inside(bounds, r)
  {
    var b1 := ExpandCube(bounds, Cube(c.x, Unset, Unset));
    var b2 := ExpandCube(b1, Cube(c.x, c.y, Unset));
    var b3 := ExpandCube(b2, c);
    InsideTransitive(bounds, b1, b2);
    InsideTransitive(bounds, b2, b3);
    b3
  }

  datatype Flip = Flip(on: bool, cube: Cube)

  /** Input.Bounds after reading every flip. */
  function BoundsOf(flips: seq<Flip>): (r: Cube)
    ensures forall i :: 0 <= i < |flips| ==> Inside(flips[i].cube, r)
  {
    if flips == [] then NoBounds
    else
      var before := BoundsOf(flips[..|flips| - 1]);
      var r := ReadBounds(before, flips[|flips| - 1].cube);
      forall i | 0 <= i < |flips| - 1 ensures Inside(flips[i].cube, r)
      {
        assert flips[i] == flips[..|flips| - 1][i];
        InsideTransitive(flips[i].cube, before, r);
      }
      r
  }

  // ---------------------------------------------------------------------
  // Cutting boxes

  /** How many boxes of cs hold p. */
  function Count(cs: seq<Cube>, p: Point3): nat
  {
    if cs == [] then 0 else Count(cs[..|cs| - 1], p) + (if cs[|cs| - 1].Contains(p) then 1 else 0)
  }

  lemma {:induction false} CountConcat(a: seq<Cube>, b: seq<Cube>, p: Point3)
    ensures Count(a + b, p) == Count(a, p) + Count(b, p)
  {
    if b == [] {
      assert a + b == a;
    } else {
      assert (a + b)[..|a + b| - 1] == a + b[..|b| - 1];
      CountConcat(a, b[..|b| - 1], p);
    }
  }

  /** No two boxes of cs share a point. */
  ghost predicate Disjoint(cs: seq<Cube>)
  {
    forall i, j, p :: 0 <= i < j < |cs| && cs[i].Contains(p) ==> !cs[j].Contains(p)
  }

  /** A box whose every point is counted at most once is disjoint. */
  lemma {:induction false} CountAtMostOne(cs: seq<Cube>)
    requires forall p :: Count(cs, p) <= 1
    ensures Disjoint(cs)
  {
    if cs != [] {
      var front := cs[..|cs| - 1];
      forall p ensures Count(front, p) <= 1
      {
        assert Count(cs, p) <= 1;
      }
      CountAtMostOne(front);
      forall i, j, p | 0 <= i < j < |cs| && cs[i].Contains(p) ensures !cs[j].Contains(p)
      {
        if j < |cs| - 1 {
          assert cs[i] == front[i] && cs[j] == front[j];
        } else {
          assert cs[i] == front[i];
          assert Count(cs, p) <= 1;
          CountHolds(front, i, p);
        }
      }
    }
  }

  lemma {:induction false} CountHolds(cs: seq<Cube>, i: int, p: Point3)
    requires 0 <= i < |cs| && cs[i].Contains(p)
    ensures Count(cs, p) >= 1
  {
    if i < |cs| - 1 {
      CountHolds(cs[..|cs| - 1], i, p);
    }
  }

  /** The sum of the boxes' volumes. */
  function SumVolumes(cs: seq<Cube>): int
  {
    if cs == [] then 0 else SumVolumes(cs[..|cs| - 1]) + cs[|cs| - 1].Volume()
  }

  lemma {:induction false} SumVolumesConcat(a: seq<Cube>, b: seq<Cube>)
    ensures SumVolumes(a + b) == SumVolumes(a) + SumVolumes(b)
  {
    if b == [] {
      assert a + b == a;
    } else {
      assert (a + b)[..|a + b| - 1] == a + b[..|b| - 1];
      SumVolumesConcat(a, b[..|b| - 1]);
    }
  }

  /** On axis a the box lies wholly below v or wholly at or above it. */
  predicate OneSide(c: Cube, a: Axis, v: int)
  {
    c.Along(a).max < v || c.Along(a).min >= v
  }

  /** PlanarSplitX/Y/Z: the part of the box below v on axis a, then the
      part at or above v, each kept only when its range on a is valid. */
  function PlanarSplit(cube: Cube, a: Axis, v: int): (r: seq<Cube>)
    ensures |r| <= 2
    ensures forall i :: 0 <= i < |r| ==> r[i].Along(a).IsValid() && OneSide(r[i], a, v) && Inside(r[i], cube)
    ensures forall i, b :: 0 <= i < |r| && b != a ==> r[i].Along(b) == cube.Along(b)
    ensures |r| == 2 ==> r[0].Along(a).max < v <= r[1].Along(a).min
    ensures forall p :: Count(r, p) == if cube.Contains(p) then 1 else 0
  {
    var range := cube.Along(a);
    var low := Range(range.min, Min(v - 1, range.max));
    var high := Range(Max(v, range.min), range.max);
    var r := (if low.IsValid() then [cube.With(a, low)] else []) + (if high.IsValid() then [cube.With(a, high)] else []);
    forall p ensures Count(r, p) == if cube.Contains(p) then 1 else 0
    {
      CountConcat(if low.IsValid() then [cube.With(a, low)] else [], if high.IsValid() then [cube.With(a, high)] else [], p);
      WithContains(cube, a, low, p);
      WithContains(cube, a, high, p);
      assert [cube.With(a, low)][..0] == [] && [cube.With(a, high)][..0] == [];
    }
    r
  }

  /** p's coordinates off axis a lie in the box's ranges. */
  predicate OffAxis(c: Cube, a: Axis, p: Point3)
  {
    match a
    case X => c.y.Contains(p.y) && c.z.Contains(p.z)
    case Y => c.x.Contains(p.x) && c.z.Contains(p.z)
    case Z => c.x.Contains(p.x) && c.y.Contains(p.y)
  }

  lemma WithContains(c: Cube, a: Axis, r: Range, p: Point3)
    ensures c.With(a, r).Contains(p) <==> r.Contains(Coord(p, a)) && OffAxis(c, a, p)
    ensures c.Contains(p) <==> c.Along(a).Contains(Coord(p, a)) && OffAxis(c, a, p)
  {
  }

  /** The two pieces of a valid box add up to its volume. */
  lemma PlanarSplitVolume(cube: Cube, a: Axis, v: int)
    requires cube.IsValid()
    ensures SumVolumes(PlanarSplit(cube, a, v)) == cube.Volume()
  {
    var r := PlanarSplit(cube, a, v);
    var range := cube.Along(a);
    var low := Range(range.min, Min(v - 1, range.max));
    var high := Range(Max(v, range.min), range.max);
    if low.IsValid() && high.IsValid() {
      assert r == [cube.With(a, low)] + [cube.With(a, high)];
      SumVolumesConcat([r[0]], [r[1]]);
      assert [r[0]][..0] == [] && [r[1]][..0] == [];
      VolumeAdds(cube, a, low, high);
    } else if low.IsValid() {
      assert r == [cube] && [cube][..0] == [];
    } else {
      assert r == [cube] && [cube][..0] == [];
    }
  }

  /** Cutting one range of a box into two cuts its volume into two. */
  lemma VolumeAdds(cube: Cube, a: Axis, low: Range, high: Range)
    requires low.Size() + high.Size() == cube.Along(a).Size()
    ensures cube.With(a, low).Volume() + cube.With(a, high).Volume() == cube.Volume()
  {
    var sx, sy, sz, l, h := cube.x.Size(), cube.y.Size(), cube.z.Size(), low.Size(), high.Size();
    match a
    case X =>
      MulAdd(l, h, sy);
      MulAdd(l * sy, h * sy, sz);
    case Y =>
      MulAddLeft(sx, l, h);
      MulAdd(sx * l, sx * h, sz);
    case Z =>
      MulAddLeft(sx * sy, l, h);
  }

  lemma MulAdd(a: int, b: int, c: int)
    ensures a * c + b * c == (a + b) * c
  {
  }

  lemma MulAddLeft(c: int, a: int, b: int)
    ensures c * a + c * b == c * (a + b)
  {
  }

  /** Every box cut by the same plane, the pieces of each box in turn. */
  function SplitAll(cs: seq<Cube>, a: Axis, v: int): (r: seq<Cube>)
    ensures forall p :: Count(r, p) == Count(cs, p)
    ensures forall i :: 0 <= i < |r| ==> r[i].Along(a).IsValid() && OneSide(r[i], a, v)
  {
    if cs == [] then []
    else
      var front := SplitAll(cs[..|cs| - 1], a, v);
      var last := PlanarSplit(cs[|cs| - 1], a, v);
      var r := front + last;
      forall p ensures Count(r, p) == Count(cs, p)
      {
        CountConcat(front, last, p);
      }
      r
  }

  /** Each piece of SplitAll comes from one of the boxes: it lies inside
      it and keeps its ranges off the cut axis. */
  lemma {:induction false} SplitAllPieces(cs: seq<Cube>, a: Axis, v: int, i: int)
    requires 0 <= i < |SplitAll(cs, a, v)|
    ensures exists j :: 0 <= j < |cs| && Piece(SplitAll(cs, a, v)[i], cs[j], a)
  {
    var front := SplitAll(cs[..|cs| - 1], a, v);
    var last := PlanarSplit(cs[|cs| - 1], a, v);
    assert SplitAll(cs, a, v) == front + last;
    if i < |front| {
      SplitAllPieces(cs[..|cs| - 1], a, v, i);
      var j :| 0 <= j < |cs| - 1 && Piece(front[i], cs[..|cs| - 1][j], a);
      assert cs[..|cs| - 1][j] == cs[j];
    } else {
      assert Piece(last[i - |front|], cs[|cs| - 1], a);
    }
  }

  /** A piece of c cut across axis a. */
  predicate Piece(piece: Cube, c: Cube, a: Axis)
  {
    Inside(piece, c) && forall b :: b != a ==> piece.Along(b) == c.Along(b)
  }

  /** The pieces whose corner point the cutter does not hold, in order. */
  function Outside(cs: seq<Cube>, cutter: Cube): (r: seq<Cube>)
    ensures forall i :: 0 <= i < |r| ==> r[i] in cs && !cutter.Contains(r[i].GetContainedPoint())
    ensures forall c :: c in cs && !cutter.Contains(c.GetContainedPoint()) ==> c in r
  {
    if cs == [] then []
    else
      var last := cs[|cs| - 1];
      var front := Outside(cs[..|cs| - 1], cutter);
      assert forall c :: c in cs ==> c in cs[..|cs| - 1] || c == last;
      if cutter.Contains(last.GetContainedPoint()) then front else front + [last]
  }

  /** A valid box cut at both faces of the cutter on every axis lies
      wholly inside the cutter or wholly outside it. */
  predicate Aligned(c: Cube, cutter: Cube)
  {
    c.IsValid() &&
    forall a :: OneSide(c, a, cutter.Along(a).min) && OneSide(c, a, cutter.Along(a).max + 1)
  }

  /** For an aligned box the corner decides: in the cutter, the box is
      covered by it; outside, the box misses it. */
  lemma AlignedCorner(c: Cube, cutter: Cube, p: Point3)
    requires Aligned(c, cutter) && c.Contains(p)
    ensures cutter.Contains(p) <==> cutter.Contains(c.GetContainedPoint())
  {
    var q := c.GetContainedPoint();
    ContainsByAxis(cutter, p);
    ContainsByAxis(cutter, q);
    ContainsByAxis(c, p);
    forall a ensures cutter.Along(a).Contains(Coord(p, a)) <==> cutter.Along(a).Contains(Coord(q, a))
    {
      assert OneSide(c, a, cutter.Along(a).min) && OneSide(c, a, cutter.Along(a).max + 1);
      assert c.Along(a).min == Coord(q, a) by {
        match a
        case X =>
        case Y =>
        case Z =>
      }
    }
  }

  lemma {:induction false} OutsideCount(cs: seq<Cube>, cutter: Cube, p: Point3)
    requires forall i :: 0 <= i < |cs| ==> Aligned(cs[i], cutter)
    ensures Count(Outside(cs, cutter), p) == if cutter.Contains(p) then 0 else Count(cs, p)
  {
    if cs != [] {
      var last := cs[|cs| - 1];
      OutsideCount(cs[..|cs| - 1], cutter, p);
      if cutter.Contains(last.GetContainedPoint()) {
        if last.Contains(p) {
          AlignedCorner(last, cutter, p);
        }
      } else {
        var front := Outside(cs[..|cs| - 1], cutter);
        assert (front + [last])[..|front + [last]| - 1] == front;
        if last.Contains(p) {
          AlignedCorner(last, cutter, p);
        }
      }
    }
  }

  /** SplitTarget: the target cut at the cutter's six faces, keeping the
      pieces outside the cutter. */
  function SplitTarget(cutter: Cube, target: Cube): (r: seq<Cube>)
    ensures forall p :: Count(r, p) == if target.Contains(p) && !cutter.Contains(p) then 1 else 0
    ensures forall i :: 0 <= i < |r| ==> r[i].IsValid() && Inside(r[i], target)
    ensures forall i, p :: 0 <= i < |r| && r[i].Contains(p) ==> !cutter.Contains(p)
  {
    var pieces := Cuts([target], cutter, 0);
    assert forall p :: Count([target], p) == if target.Contains(p) then 1 else 0 by {
      assert [target][..0] == [];
    }
    assert Stage(target, target, cutter, 0);
    CutsAligned([target], target, cutter, 0);
    KeptPieces(cutter, target, pieces);
    Outside(pieces, cutter)
  }

  /** The pieces outside the cutter of an aligned cover of the target
      cover the target less the cutter. */
  lemma KeptPieces(cutter: Cube, target: Cube, cs: seq<Cube>)
    requires forall i :: 0 <= i < |cs| ==> Aligned(cs[i], cutter) && Inside(cs[i], target)
    requires forall p :: Count(cs, p) == if target.Contains(p) then 1 else 0
    ensures forall p :: Count(Outside(cs, cutter), p) == if target.Contains(p) && !cutter.Contains(p) then 1 else 0
    ensures forall i :: 0 <= i < |Outside(cs, cutter)| ==>
      Outside(cs, cutter)[i].IsValid() && Inside(Outside(cs, cutter)[i], target)
    ensures forall i, p :: 0 <= i < |Outside(cs, cutter)| && Outside(cs, cutter)[i].Contains(p) ==> !cutter.Contains(p)
  {
    var r := Outside(cs, cutter);
    forall p ensures Count(r, p) == if target.Contains(p) && !cutter.Contains(p) then 1 else 0
    {
      OutsideCount(cs, cutter, p);
    }
    forall i, p | 0 <= i < |r| && r[i].Contains(p) ensures !cutter.Contains(p)
    {
      CountHolds(r, i, p);
    }
  }

  /** The six cuts SplitTarget makes, in order: the cutter's low face,
      then just past its high face, on X, then Y, then Z. */
  function CutAxis(k: nat): Axis
  {
    if k < 2 then X else if k < 4 then Y else Z
  }

  function CutAt(cutter: Cube, k: nat): int
  {
    var r := cutter.Along(CutAxis(k));
    if k % 2 == 0 then r.min else r.max + 1
  }

  /** A piece after n cuts: inside the target, valid on every axis cut so
      far and on one side of every plane cut so far. */
  predicate Stage(c: Cube, target: Cube, cutter: Cube, n: nat)
  {
    Inside(c, target) &&
    forall k :: 0 <= k < n ==> c.Along(CutAxis(k)).IsValid() && OneSide(c, CutAxis(k), CutAt(cutter, k))
  }

  /** One more cut keeps every piece at the next stage. */
  lemma StageStep(cs: seq<Cube>, target: Cube, cutter: Cube, n: nat)
    requires n < 6
    requires forall i :: 0 <= i < |cs| ==> Stage(cs[i], target, cutter, n)
    ensures forall i :: 0 <= i < |SplitAll(cs, CutAxis(n), CutAt(cutter, n))| ==>
      Stage(SplitAll(cs, CutAxis(n), CutAt(cutter, n))[i], target, cutter, n + 1)
  {
    var a, v := CutAxis(n), CutAt(cutter, n);
    var r := SplitAll(cs, a, v);
    forall i | 0 <= i < |r| ensures Stage(r[i], target, cutter, n + 1)
    {
      SplitAllPieces(cs, a, v, i);
      var j :| 0 <= j < |cs| && Piece(r[i], cs[j], a);
      InsideTransitive(r[i], cs[j], target);
      forall k | 0 <= k < n + 1
        ensures r[i].Along(CutAxis(k)).IsValid() && OneSide(r[i], CutAxis(k), CutAt(cutter, k))
      {
        if k < n {
          SideShrinks(r[i], cs[j], CutAxis(k), CutAt(cutter, k));
          assert cs[j].Along(CutAxis(k)).IsValid();
        }
      }
    }
  }

  /** After all six cuts a piece is aligned with the cutter. */
  lemma StageAligned(c: Cube, target: Cube, cutter: Cube)
    requires Stage(c, target, cutter, 6)
    ensures Aligned(c, cutter)
  {
    assert CutAxis(0) == X && CutAxis(1) == X && CutAxis(2) == Y;
    assert CutAxis(3) == Y && CutAxis(4) == Z && CutAxis(5) == Z;
    assert c.Along(CutAxis(0)).IsValid() && c.Along(CutAxis(2)).IsValid() && c.Along(CutAxis(4)).IsValid();
    forall a ensures OneSide(c, a, cutter.Along(a).min) && OneSide(c, a, cutter.Along(a).max + 1)
    {
      var k := if a == X then 0 else if a == Y then 2 else 4;
      assert CutAxis(k) == a && CutAxis(k + 1) == a;
      assert OneSide(c, CutAxis(k), CutAt(cutter, k)) && OneSide(c, CutAxis(k + 1), CutAt(cutter, k + 1));
    }
  }

  /** The cuts from the n-th on, each applied to every piece. */
  function Cuts(cs: seq<Cube>, cutter: Cube, n: nat): (r: seq<Cube>)
    requires n <= 6
    ensures forall p :: Count(r, p) == Count(cs, p)
    decreases 6 - n
  {
    if n == 6 then cs else Cuts(SplitAll(cs, CutAxis(n), CutAt(cutter, n)), cutter, n + 1)
  }

  lemma {:induction false} CutsAligned(cs: seq<Cube>, target: Cube, cutter: Cube, n: nat)
    requires n <= 6
    requires forall i :: 0 <= i < |cs| ==> Stage(cs[i], target, cutter, n)
    ensures forall i :: 0 <= i < |Cuts(cs, cutter, n)| ==>
      Aligned(Cuts(cs, cutter, n)[i], cutter) && Inside(Cuts(cs, cutter, n)[i], target)
    decreases 6 - n
  {
    if n == 6 {
      forall i | 0 <= i < |cs| ensures Aligned(cs[i], cutter)
      {
        StageAligned(cs[i], target, cutter);
      }
    } else {
      StageStep(cs, target, cutter, n);
      var next := SplitAll(cs, CutAxis(n), CutAt(cutter, n));
      assert forall i :: 0 <= i < |next| ==> Stage(next[i], target, cutter, n + 1);
      CutsAligned(SplitAll(cs, CutAxis(n), CutAt(cutter, n)), target, cutter, n + 1);
    }
  }

  /** A box inside another keeps the other's side of a plane. */
  lemma SideShrinks(small: Cube, big: Cube, a: Axis, v: int)
    requires Inside(small, big) && OneSide(big, a, v)
    ensures OneSide(small, a, v)
  {
    assert big.Along(a).min <= small.Along(a).min && small.Along(a).max <= big.Along(a).max;
  }

  // ---------------------------------------------------------------------
  // Halving ranges for the index

  /** GetFirstHalf as written, with C#'s truncating division. */
  function GetFirstHalf(r: Range): Range
  {
    Range(r.min, TruncDiv(r.max - r.min, 2) + r.min)
  }

  /** GetSecondHalf as written. */
  function GetSecondHalf(r: Range): Range
  {
    Range(TruncDiv(r.max - r.min, 2) + 1 + r.min, r.max)
  }

  /** For every range the halves start at Min, end at Max and meet; for a
      valid range they split its values between them. */
  lemma GetHalvesSplit(r: Range, v: int)
    ensures GetFirstHalf(r).min == r.min && GetSecondHalf(r).max == r.max
    ensures GetFirstHalf(r).max + 1 == GetSecondHalf(r).min
    ensures r.IsValid() ==> (r.Contains(v) <==> GetFirstHalf(r).Contains(v) || GetSecondHalf(r).Contains(v))
    ensures !(GetFirstHalf(r).Contains(v) && GetSecondHalf(r).Contains(v))
  {
    if r.IsValid() {
      TruncAgreesOnNonNegative(r.max - r.min, 2);
    }
  }

  /** The empty range 1..0 has a first half 1..1, which holds a value the
      range does not. */
  lemma HalfOfEmptyRangeIsNot()
    ensures !Range(1, 0).Contains(1) && GetFirstHalf(Range(1, 0)).Contains(1)
  {
    assert TruncDiv(-1, 2) == 0;
  }

  /** The halves with floor division, so an empty range has empty halves. */
  function FirstHalf(r: Range): Range
  {
    Range(r.min, (r.max - r.min) / 2 + r.min)
  }

  function SecondHalf(r: Range): Range
  {
    Range((r.max - r.min) / 2 + 1 + r.min, r.max)
  }

  /** For every range, valid or not, the halves split its values between
      them, start at Min, end at Max and meet. */
  lemma HalvesSplit(r: Range, v: int)
    ensures FirstHalf(r).min == r.min && SecondHalf(r).max == r.max
    ensures FirstHalf(r).max + 1 == SecondHalf(r).min
    ensures r.Contains(v) <==> FirstHalf(r).Contains(v) || SecondHalf(r).Contains(v)
    ensures !(FirstHalf(r).Contains(v) && SecondHalf(r).Contains(v))
  {
  }

  /** The corrected halves are the written ones wherever the range is valid. */
  lemma HalvesAgreeOnValid(r: Range)
    requires r.IsValid()
    ensures FirstHalf(r) == GetFirstHalf(r) && SecondHalf(r) == GetSecondHalf(r)
  {
    TruncAgreesOnNonNegative(r.max - r.min, 2);
  }

  /** Octant o (0..7, bits x, y, z from high to low) of a box: the first
      or second half of each range. */
  function Octant(bounds: Cube, o: nat): (c: Cube)
    requires o < 8
  {
    Cube(if o / 4 == 0 then FirstHalf(bounds.x) else SecondHalf(bounds.x),
         if (o / 2) % 2 == 0 then FirstHalf(bounds.y) else SecondHalf(bounds.y),
         if o % 2 == 0 then FirstHalf(bounds.z) else SecondHalf(bounds.z))
  }

  /** The octants of a box lie within it, and each of its points lies in
      exactly one of them. */
  lemma OctantsPartition(bounds: Cube, o: nat, p: Point3)
    requires o < 8
    ensures Covers(bounds, Octant(bounds, o))
    ensures bounds.Contains(p) ==> exists k :: 0 <= k < 8 && Octant(bounds, k).Contains(p)
    ensures Octant(bounds, o).Contains(p) ==> forall k :: 0 <= k < 8 && k != o ==> !Octant(bounds, k).Contains(p)
  {
    forall q ensures Octant(bounds, o).Contains(q) ==> bounds.Contains(q)
    {
      HalvesSplit(bounds.x, q.x);
      HalvesSplit(bounds.y, q.y);
      HalvesSplit(bounds.z, q.z);
    }
    HalvesSplit(bounds.x, p.x);
    HalvesSplit(bounds.y, p.y);
    HalvesSplit(bounds.z, p.z);
    if bounds.Contains(p) {
      var k := (if FirstHalf(bounds.x).Contains(p.x) then 0 else 4)
             + (if FirstHalf(bounds.y).Contains(p.y) then 0 else 2)
             + (if FirstHalf(bounds.z).Contains(p.z) then 0 else 1);
      assert Octant(bounds, k).Contains(p);
    }
  }
}
