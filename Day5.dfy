/** Hydrothermal venture: lines between integer points are rasterised and
    every point they cover is counted in a map. */
module Day5 {
  import opened Common
  import opened Counting

  datatype Point = Point(x: int, y: int)

  datatype Line = Line(start: Point, end: Point)
  {
    predicate IsHorizontal() { start.y == end.y }
    predicate IsVertical() { start.x == end.x }
    predicate IsDiagonal() { Abs(start.x - end.x) == Abs(start.y - end.y) }
  }

  function Min(a: int, b: int): int { if a < b then a else b }
  function Max(a: int, b: int): int { if a > b then a else b }

  /** The integers from start to end inclusive, stepping towards end. */
  function IntSpan(start: int, end: int): (r: seq<int>)
    ensures |r| == Abs(end - start) + 1
    ensures r[0] == start && r[|r| - 1] == end
    ensures forall i :: 0 <= i < |r| - 1 ==> r[i + 1] == r[i] + (if end > start then 1 else -1)
  {
    seq(Abs(end - start) + 1, i => if end > start then start + i else start - i)
  }

  /** GetIntSpan: counts up when end > start, otherwise down. */
  method GetIntSpan(start: int, end: int) returns (values: seq<int>)
    ensures values == IntSpan(start, end)
  {
    var isPositive := end > start;
    values := [];
    if isPositive {
      var i := start;
      while i <= end
        invariant start <= i <= end + 1
        invariant |values| == i - start
        invariant forall k :: 0 <= k < |values| ==> values[k] == start + k
      {
        values := values + [i];
        i := i + 1;
      }
    } else {
      var i := start;
      while i >= end
        invariant end - 1 <= i <= start
        invariant |values| == start - i
        invariant forall k :: 0 <= k < |values| ==> values[k] == start - k
      {
        values := values + [i];
        i := i - 1;
      }
    }
  }

  /** The points of two coordinate lists taken pairwise, as far as the
      shorter one goes. */
  function Zip(xs: seq<int>, ys: seq<int>): (r: seq<Point>)
    ensures |r| == Min(|xs|, |ys|)
    ensures forall i :: 0 <= i < |r| ==> r[i] == Point(xs[i], ys[i])
  {
    seq(Min(|xs|, |ys|), i requires 0 <= i < Min(|xs|, |ys|) => Point(xs[i], ys[i]))
  }

  /** GetSpan: a horizontal line first, then a vertical one, then a diagonal
      one; any other line throws. */
  function GetSpan(line: Line): (r: Result<seq<Point>>)
    ensures r.Err? <==> !(line.IsHorizontal() || line.IsVertical() || line.IsDiagonal())
  {
    var s := line.start;
    var e := line.end;
    if line.IsHorizontal() then
      var min := Min(s.x, e.x);
      var max := Max(s.x, e.x);
      Ok(seq(max - min + 1, i => Point(min + i, s.y)))
    else if line.IsVertical() then
      var min := Min(s.y, e.y);
      var max := Max(s.y, e.y);
      Ok(seq(max - min + 1, i => Point(s.x, min + i)))
    else if line.IsDiagonal() then
      Ok(Zip(IntSpan(s.x, e.x), IntSpan(s.y, e.y)))
    else Err("Can only be used on horizontal, vertical, or diagonal lines!")
  }

  /** A horizontal line covers each x between its ends once, at its y; a
      vertical line the same along y. */
  lemma StraightSpan(line: Line)
    requires line.IsHorizontal() || line.IsVertical()
    ensures var span := GetSpan(line).value;
      && (line.IsHorizontal() ==>
            && |span| == Abs(line.end.x - line.start.x) + 1
            && forall p :: p in span <==> p.y == line.start.y && Min(line.start.x, line.end.x) <= p.x <= Max(line.start.x, line.end.x))
      && (!line.IsHorizontal() ==>
            && |span| == Abs(line.end.y - line.start.y) + 1
            && forall p :: p in span <==> p.x == line.start.x && Min(line.start.y, line.end.y) <= p.y <= Max(line.start.y, line.end.y))
  {
    var span := GetSpan(line).value;
    var s := line.start;
    var e := line.end;
    if line.IsHorizontal() {
      var min := Min(s.x, e.x);
      forall p: Point | p.y == s.y && min <= p.x <= Max(s.x, e.x) ensures p in span {
        assert span[p.x - min] == p;
      }
    } else {
      var min := Min(s.y, e.y);
      forall p: Point | p.x == s.x && min <= p.y <= Max(s.y, e.y) ensures p in span {
        assert span[p.y - min] == p;
      }
    }
  }

  /** A diagonal line that is neither horizontal nor vertical runs from its
      start to its end, one step along each axis per point. */
  lemma DiagonalSpan(line: Line)
    requires line.IsDiagonal() && !line.IsHorizontal() && !line.IsVertical()
    ensures var span := GetSpan(line).value;
      && |span| == Abs(line.end.x - line.start.x) + 1
      && span[0] == line.start && span[|span| - 1] == line.end
      && forall i :: 0 <= i < |span| ==>
           Abs(span[i].x - line.start.x) == i && Abs(span[i].y - line.start.y) == i
  {
    var xs := IntSpan(line.start.x, line.end.x);
    var ys := IntSpan(line.start.y, line.end.y);
    var span := GetSpan(line).value;
    assert span == Zip(xs, ys);
    forall i | 0 <= i < |span| ensures Abs(span[i].x - line.start.x) == i && Abs(span[i].y - line.start.y) == i {
      assert xs[i] == if line.end.x > line.start.x then line.start.x + i else line.start.x - i;
      assert ys[i] == if line.end.y > line.start.y then line.start.y + i else line.start.y - i;
    }
  }

  /** The Dictionary<Point, int> of coverage counts. */
  class LineMap {
    var encountered: map<Point, int>

    constructor ()
      ensures encountered == map[]
    {
      encountered := map[];
    }

    /** MarkPoint: insert p with 0 when absent, then add one. */
    method MarkPoint(p: Point)
      modifies this
      ensures encountered == AddCount(old(encountered), p, 1)
    {
      if p !in encountered {
        encountered := encountered[p := 0];
      }
      encountered := encountered[p := encountered[p] + 1];
    }
  }

  /** The lines a marking pass keeps: horizontal and vertical ones, and the
      diagonal ones too when asked. */
  predicate Selected(line: Line, withDiagonal: bool)
  {
    line.IsVertical() || line.IsHorizontal() || (withDiagonal && line.IsDiagonal())
  }

  /** The points of the kept lines, line after line. */
  function Spans(lines: seq<Line>, withDiagonal: bool): seq<Point>
  {
    if lines == [] then []
    else
      var line := lines[|lines| - 1];
      Spans(lines[..|lines| - 1], withDiagonal)
        + (if Selected(line, withDiagonal) then GetSpan(line).value else [])
  }

  lemma HistogramSnoc(s: seq<Point>, p: Point)
    ensures Histogram(s + [p]) == AddCount(Histogram(s), p, 1)
  {
    assert (s + [p])[..|s|] == s;
  }

  /** The inner loop: MarkPoint for every point of one span. */
  method MarkSpan(lineMap: LineMap, span: seq<Point>, ghost marked: seq<Point>)
    requires lineMap.encountered == Histogram(marked)
    modifies lineMap
    ensures lineMap.encountered == Histogram(marked + span)
  {
    var k := 0;
    assert marked + span[..0] == marked;
    while k < |span|
      invariant 0 <= k <= |span|
      invariant lineMap.encountered == Histogram(marked + span[..k])
    {
      assert marked + span[..k + 1] == (marked + span[..k]) + [span[k]];
      HistogramSnoc(marked + span[..k], span[k]);
      lineMap.MarkPoint(span[k]);
      k := k + 1;
    }
    assert span[..k] == span;
  }

  /** The marking pass shared by MarkLines and MarkLinesWithDiagonal. */
  method MarkSelected(lines: seq<Line>, withDiagonal: bool) returns (lineMap: LineMap)
    ensures fresh(lineMap)
    ensures lineMap.encountered == Histogram(Spans(lines, withDiagonal))
  {
    lineMap := new LineMap();
    var i := 0;
    while i < |lines|
      invariant 0 <= i <= |lines|
      invariant lineMap.encountered == Histogram(Spans(lines[..i], withDiagonal))
    {
      assert lines[..i + 1][..i] == lines[..i];
      var line := lines[i];
      if Selected(line, withDiagonal) {
        MarkSpan(lineMap, GetSpan(line).value, Spans(lines[..i], withDiagonal));
      } else {
        assert Spans(lines[..i], withDiagonal) + [] == Spans(lines[..i], withDiagonal);
      }
      assert Spans(lines[..i + 1], withDiagonal)
        == Spans(lines[..i], withDiagonal) + (if Selected(line, withDiagonal) then GetSpan(line).value else []);
      i := i + 1;
    }
    assert lines[..i] == lines;
  }

  /** MarkLines: horizontal and vertical lines only. */
  method MarkLines(lines: seq<Line>) returns (lineMap: LineMap)
    ensures fresh(lineMap)
    ensures lineMap.encountered == Histogram(Spans(lines, false))
  {
    lineMap := MarkSelected(lines, false);
  }

  /** MarkLinesWithDiagonal: diagonal lines as well. */
  method MarkLinesWithDiagonal(lines: seq<Line>) returns (lineMap: LineMap)
    ensures fresh(lineMap)
    ensures lineMap.encountered == Histogram(Spans(lines, true))
  {
    lineMap := MarkSelected(lines, true);
  }

  /** Each point is counted once per line covering it, and the counts add
      up to the total length of the kept spans. */
  lemma MarkedCounts(lines: seq<Line>, withDiagonal: bool)
    ensures forall p :: Lookup(Histogram(Spans(lines, withDiagonal)), p) == multiset(Spans(lines, withDiagonal))[p]
    ensures MapSum(Histogram(Spans(lines, withDiagonal))) == |Spans(lines, withDiagonal)|
  {
    HistogramCounts(Spans(lines, withDiagonal));
  }

  /** Taking diagonal lines as well only adds marks; with no line that is
      only diagonal, both passes mark the same points. */
  lemma {:induction false} DiagonalsOnlyAdd(lines: seq<Line>)
    ensures multiset(Spans(lines, false)) <= multiset(Spans(lines, true))
    ensures (forall i :: 0 <= i < |lines| ==> Selected(lines[i], true) ==> Selected(lines[i], false))
      ==> Spans(lines, false) == Spans(lines, true)
  {
    if lines != [] {
      var init := lines[..|lines| - 1];
      DiagonalsOnlyAdd(init);
      if forall i :: 0 <= i < |lines| ==> Selected(lines[i], true) ==> Selected(lines[i], false) {
        assert forall i :: 0 <= i < |init| ==> init[i] == lines[i];
      }
    }
  }
}
