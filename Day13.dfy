/** Transparent origami: folding a set of marked points along vertical and
    horizontal lines. */
module Day13 {

  datatype Point = Point(x: int, y: int)

  datatype FoldType = X | Y

  datatype Fold = Fold(foldType: FoldType, axis: int)

  /** A coordinate before the line stays; one on or past it is mirrored to
      line - (v - line). */
  function Reflect(line: int, v: int): (r: int)
    ensures r <= line
    ensures v <= line ==> r == v
    ensures r == v || r == 2 * line - v
  {
    if v < line then v else line - (v - line)
  }

  function FoldX(xLine: int, points: set<Point>): (r: set<Point>)
    ensures forall q :: q in r ==> q.x <= xLine
    ensures forall p :: p in points && p.x < xLine ==> p in r
    ensures forall p :: p in points ==> Point(2 * xLine - p.x, p.y) in r || p in r
  {
    set p | p in points :: Point(Reflect(xLine, p.x), p.y)
  }

  function FoldY(yLine: int, points: set<Point>): (r: set<Point>)
    ensures forall q :: q in r ==> q.y <= yLine
    ensures forall p :: p in points && p.y < yLine ==> p in r
    ensures forall p :: p in points ==> Point(p.x, 2 * yLine - p.y) in r || p in r
  {
    set p | p in points :: Point(p.x, Reflect(yLine, p.y))
  }

  function FoldPoint(fold: Fold, p: Point): Point
  {
    match fold.foldType
    case X => Point(Reflect(fold.axis, p.x), p.y)
    case Y => Point(p.x, Reflect(fold.axis, p.y))
  }

  /** DoFold dispatches on the fold's type. The C# enumeration has only the
      two values, so its "unrecognized type" throw cannot be reached. */
  function DoFold(points: set<Point>, fold: Fold): (r: set<Point>)
    ensures r == set p | p in points :: FoldPoint(fold, p)
  {
    match fold.foldType
    case X => FoldX(fold.axis, points)
    case Y => FoldY(fold.axis, points)
  }

  /** DoAllFolds: the folds in list order, each on the previous result. */
  function DoAllFolds(points: set<Point>, folds: seq<Fold>): set<Point>
  {
    if folds == [] then points
    else DoFold(DoAllFolds(points, folds[..|folds| - 1]), folds[|folds| - 1])
  }

  /** A fold never adds points: the image of a set is no larger than it. */
  lemma {:induction false} FoldShrinks(points: set<Point>, fold: Fold)
    ensures |DoFold(points, fold)| <= |points|
    decreases |points|
  {
    if points != {} {
      var p :| p in points;
      var rest := points - {p};
      FoldShrinks(rest, fold);
      assert DoFold(points, fold) == DoFold(rest, fold) + {FoldPoint(fold, p)};
    }
  }

  /** Folding twice on the same line is folding once: after the first fold
      no point lies past the line. */
  lemma FoldIdempotent(points: set<Point>, fold: Fold)
    ensures DoFold(DoFold(points, fold), fold) == DoFold(points, fold)
  {
    var once := DoFold(points, fold);
    forall q | q in once ensures FoldPoint(fold, q) == q {
      var p :| p in points && q == FoldPoint(fold, p);
    }
    assert DoFold(once, fold) == set q | q in once :: q;
  }

  lemma {:induction false} DoAllFoldsShrinks(points: set<Point>, folds: seq<Fold>)
    ensures |DoAllFolds(points, folds)| <= |points|
  {
    if folds != [] {
      DoAllFoldsShrinks(points, folds[..|folds| - 1]);
      FoldShrinks(DoAllFolds(points, folds[..|folds| - 1]), folds[|folds| - 1]);
    }
  }

  /** Folding by a list and then another is folding by their concatenation. */
  lemma {:induction false} DoAllFoldsConcat(points: set<Point>, first: seq<Fold>, second: seq<Fold>)
    ensures DoAllFolds(points, first + second) == DoAllFolds(DoAllFolds(points, first), second)
  {
    if second == [] {
      assert first + second == first;
    } else {
      assert (first + second)[..|first + second| - 1] == first + second[..|second| - 1];
      DoAllFoldsConcat(points, first, second[..|second| - 1]);
    }
  }
}
