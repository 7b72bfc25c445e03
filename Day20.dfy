/** Image enhancement: an image is a set of lit pixels inside a window
    [topLeft, bottomRight), on an unbounded plane of unlit pixels. Each step
    reads every pixel's 3x3 neighbourhood as a nine-bit number (lit = 1, row
    by row) and looks the new pixel up in the 512-character algorithm. The
    pixels outside the window all share one value, which is '.' before the
    first step and then follows the algorithm. */
module Day20 {
  import opened Common

  /** A pixel (x, y). */
  type Point = (int, int)

  /** Image: the lit pixels and the window they lie in. */
  datatype Image = Image(lit: set<Point>, topLeft: Point, bottomRight: Point)

  predicate InBounds(img: Image, p: Point)
  {
    img.topLeft.0 <= p.0 < img.bottomRight.0 && img.topLeft.1 <= p.1 < img.bottomRight.1
  }

  /** Every lit pixel lies in the window. */
  ghost predicate Framed(img: Image)
  {
    forall p :: p in img.lit ==> InBounds(img, p)
  }

  /** GetPixelValue: outside the window, algorithm[0] on odd steps and '.'
      on even ones; inside, '#' for a lit pixel and '.' for an unlit one. */
  function PixelValue(img: Image, algorithm: string, isOdd: bool, p: Point): char
    requires isOdd ==> |algorithm| > 0
  {
    if !InBounds(img, p) then
      if isOdd then algorithm[0] else '.'
    else if p in img.lit then '#'
    else '.'
  }

  // ---------------------------------------------------------------------
  // Nine-pixel numbers

  /** GetIntFromBinary as a value: big-endian, '#' a set bit and any other
      character a clear one. */
  function LitValue(s: seq<char>): (v: nat)
    ensures v < Pow(2, |s|)
  {
    if s == [] then 0 else (if s[0] == '#' then Pow(2, |s| - 1) else 0) + LitValue(s[1..])
  }

  /** Only whether each character is '#' matters. */
  lemma {:induction false} LitValueSame(a: seq<char>, b: seq<char>)
    requires |a| == |b| && forall k :: 0 <= k < |a| ==> (a[k] == '#' <==> b[k] == '#')
    ensures LitValue(a) == LitValue(b)
  {
    if a != [] {
      LitValueSame(a[1..], b[1..]);
    }
  }

  /** A string of one repeated character is worth 0, or all ones when that
      character is '#'. */
  lemma {:induction false} LitValueConst(s: seq<char>, c: char)
    requires forall k :: 0 <= k < |s| ==> s[k] == c
    ensures LitValue(s) == if c == '#' then Pow(2, |s|) - 1 else 0
  {
    if s != [] {
      LitValueConst(s[1..], c);
    }
  }

  /** GetIntFromBinary: walks the string from its last character, adding
      the shifter for every '#' and doubling it after each character. */
  method GetIntFromBinary(binary: string) returns (sum: nat)
    ensures sum == LitValue(binary)
  {
    sum := 0;
    var shifter: nat := 1;
    var b := |binary| - 1;
    while b >= 0
      invariant -1 <= b < |binary|
      invariant sum == LitValue(binary[b + 1..])
      invariant shifter == Pow(2, |binary| - 1 - b)
    {
      assert binary[b..][1..] == binary[b + 1..];
      if binary[b] == '#' {
        sum := sum + shifter;
      }
      shifter := shifter * 2;
      b := b - 1;
    }
    assert binary[0..] == binary;
  }

  /** The nine pixels around p, row by row from the top left. */
  function Neighbourhood(p: Point): (ns: seq<Point>)
    ensures |ns| == 9
  {
    seq(9, k requires 0 <= k < 9 => (p.0 + k % 3 - 1, p.1 + k / 3 - 1))
  }

  /** The nine characters GetNextImage reads for pixel p. */
  function Window(img: Image, algorithm: string, isOdd: bool, p: Point): (w: seq<char>)
    requires isOdd ==> |algorithm| > 0
    ensures |w| == 9
  {
    seq(9, k requires 0 <= k < 9 => PixelValue(img, algorithm, isOdd, Neighbourhood(p)[k]))
  }

  /** The algorithm's entry for a nine-character reading. */
  function Lookup(algorithm: string, w: seq<char>): char
    requires |algorithm| == 512 && |w| == 9
  {
    assert Pow(2, 9) == 512;
    algorithm[LitValue(w)]
  }

  // ---------------------------------------------------------------------
  // Steps as values

  /** GetNextImage on values: the window grows by one pixel on every side,
      and a pixel of it is lit when the algorithm's entry for its reading is
      '#'. */
  ghost function NextImage(img: Image, algorithm: string, isOdd: bool): (r: Image)
    requires |algorithm| == 512
    ensures r.topLeft == (img.topLeft.0 - 1, img.topLeft.1 - 1)
    ensures r.bottomRight == (img.bottomRight.0 + 1, img.bottomRight.1 + 1)
  {
    var tl := (img.topLeft.0 - 1, img.topLeft.1 - 1);
    var br := (img.bottomRight.0 + 1, img.bottomRight.1 + 1);
    Image(set x, y | tl.0 <= x < br.0 && tl.1 <= y < br.1 &&
                     Lookup(algorithm, Window(img, algorithm, isOdd, (x, y))) == '#' :: (x, y),
          tl, br)
  }

  /** The pixels of the next image: its window is the old one grown by one,
      its lit pixels lie in it, and a pixel is lit exactly when the
      algorithm says '#' for its reading. */
  lemma NextImageIs(img: Image, algorithm: string, isOdd: bool)
    requires |algorithm| == 512
    ensures var r := NextImage(img, algorithm, isOdd);
      r.topLeft == (img.topLeft.0 - 1, img.topLeft.1 - 1) &&
      r.bottomRight == (img.bottomRight.0 + 1, img.bottomRight.1 + 1) &&
      Framed(r) &&
      forall p :: p in r.lit <==> InBounds(r, p) && Lookup(algorithm, Window(img, algorithm, isOdd, p)) == '#'
  {
    var r := NextImage(img, algorithm, isOdd);
    forall p | InBounds(r, p) && Lookup(algorithm, Window(img, algorithm, isOdd, p)) == '#'
      ensures p in r.lit
    {
      assert p == (p.0, p.1);
    }
  }

  /** ProcessSteps on values: step i reads the outside as on an odd step
      exactly when i is odd. */
  ghost function Steps(base: Image, algorithm: string, n: nat): Image
    requires |algorithm| == 512
  {
    if n == 0 then base else NextImage(Steps(base, algorithm, n - 1), algorithm, (n - 1) % 2 == 1)
  }

  /** Each step grows the window by one pixel on every side. */
  lemma {:induction false} StepsWindow(base: Image, algorithm: string, n: nat)
    requires |algorithm| == 512
    ensures Steps(base, algorithm, n).topLeft == (base.topLeft.0 - n, base.topLeft.1 - n)
    ensures Steps(base, algorithm, n).bottomRight == (base.bottomRight.0 + n, base.bottomRight.1 + n)
  {
    if n > 0 {
      StepsWindow(base, algorithm, n - 1);
    }
  }

  // ---------------------------------------------------------------------
  // The unbounded image

  /** Pixel p of the unbounded image after n steps from base, every pixel
      outside base's lit set starting unlit. */
  ghost function TrueChar(base: Image, algorithm: string, n: nat, p: Point): char
    requires |algorithm| == 512
    decreases n, 0
  {
    if n == 0 then (if p in base.lit then '#' else '.')
    else Lookup(algorithm, TrueWindow(base, algorithm, n - 1, Neighbourhood(p)))
  }

  /** The unbounded image after n steps, read at the pixels ps. */
  ghost function TrueWindow(base: Image, algorithm: string, n: nat, ps: seq<Point>): (w: seq<char>)
    requires |algorithm| == 512
    ensures |w| == |ps|
    decreases n, 1 + |ps|
  {
    if ps == [] then []
    else TrueWindow(base, algorithm, n, ps[..|ps| - 1]) + [TrueChar(base, algorithm, n, ps[|ps| - 1])]
  }

  lemma {:induction false} TrueWindowIndex(base: Image, algorithm: string, n: nat, ps: seq<Point>)
    requires |algorithm| == 512
    ensures forall k :: 0 <= k < |ps| ==> TrueWindow(base, algorithm, n, ps)[k] == TrueChar(base, algorithm, n, ps[k])
  {
    if ps != [] {
      TrueWindowIndex(base, algorithm, n, ps[..|ps| - 1]);
    }
  }

  /** One step of the unbounded image, when after n steps it agrees (lit or
      not) with image img read with parity isOdd. */
  lemma TrueStep(base: Image, algorithm: string, n: nat, img: Image, isOdd: bool, p: Point)
    requires |algorithm| == 512
    requires forall q :: TrueChar(base, algorithm, n, q) == '#' <==> PixelValue(img, algorithm, isOdd, q) == '#'
    ensures TrueChar(base, algorithm, n + 1, p) == Lookup(algorithm, Window(img, algorithm, isOdd, p))
  {
    var ns := Neighbourhood(p);
    TrueWindowIndex(base, algorithm, n, ns);
    LitValueSame(TrueWindow(base, algorithm, n, ns), Window(img, algorithm, isOdd, p));
  }

  /** A pixel outside the grown window reads nine outside pixels. */
  lemma OutsideWindow(img: Image, algorithm: string, isOdd: bool, p: Point)
    requires |algorithm| == 512
    requires !InBounds(NextImage(img, algorithm, isOdd), p)
    ensures Lookup(algorithm, Window(img, algorithm, isOdd, p)) ==
      algorithm[if isOdd && algorithm[0] == '#' then 511 else 0]
  {
    NextImageIs(img, algorithm, isOdd);
    var w := Window(img, algorithm, isOdd, p);
    var c := if isOdd then algorithm[0] else '.';
    forall k | 0 <= k < 9 ensures w[k] == c {
      assert !InBounds(img, Neighbourhood(p)[k]);
    }
    LitValueConst(w, c);
    assert Pow(2, 9) == 512;
  }

  /** If the unbounded image after n steps agrees with img read with
      parity isOdd, it agrees after one more step with the next image read
      with the other parity. */
  lemma PlaneStep(base: Image, algorithm: string, n: nat, img: Image, isOdd: bool, p: Point)
    requires |algorithm| == 512 && (algorithm[0] != '#' || algorithm[511] != '#')
    requires forall q :: TrueChar(base, algorithm, n, q) == '#' <==> PixelValue(img, algorithm, isOdd, q) == '#'
    ensures TrueChar(base, algorithm, n + 1, p) == '#' <==>
      PixelValue(NextImage(img, algorithm, isOdd), algorithm, !isOdd, p) == '#'
  {
    TrueStep(base, algorithm, n, img, isOdd, p);
    NextImageIs(img, algorithm, isOdd);
    if !InBounds(NextImage(img, algorithm, isOdd), p) {
      OutsideWindow(img, algorithm, isOdd, p);
    }
  }

  /** The program's window tracks the unbounded image: after n steps a
      pixel is lit in the unbounded image exactly when PixelValue reads '#'
      for it in Steps(base, algorithm, n) with the parity of n. This needs
      algorithm[0] or algorithm[511] to be unlit, so that the outside does
      not stay lit after an odd step. */
  lemma {:induction false} WindowTracksPlane(base: Image, algorithm: string, n: nat)
    requires |algorithm| == 512 && Framed(base)
    requires algorithm[0] != '#' || algorithm[511] != '#'
    ensures Framed(Steps(base, algorithm, n))
    ensures forall p :: TrueChar(base, algorithm, n, p) == '#' <==>
      PixelValue(Steps(base, algorithm, n), algorithm, n % 2 == 1, p) == '#'
  {
    if n > 0 {
      WindowTracksPlane(base, algorithm, n - 1);
      var img, isOdd := Steps(base, algorithm, n - 1), (n - 1) % 2 == 1;
      var next := NextImage(img, algorithm, isOdd);
      NextImageIs(img, algorithm, isOdd);
      assert (n % 2 == 1) == !isOdd;
      forall p
        ensures TrueChar(base, algorithm, n, p) == '#' <==> PixelValue(next, algorithm, !isOdd, p) == '#'
      {
        PlaneStep(base, algorithm, n - 1, img, isOdd, p);
      }
    }
  }

  /** So the lit pixels of the program's image are the lit pixels of the
      unbounded image inside its window, and outside the window the
      unbounded image is lit only after an odd step of an algorithm whose
      entry 0 is '#'. */
  lemma LitPixels(base: Image, algorithm: string, n: nat, p: Point)
    requires |algorithm| == 512 && Framed(base)
    requires algorithm[0] != '#' || algorithm[511] != '#'
    ensures p in Steps(base, algorithm, n).lit <==>
      InBounds(Steps(base, algorithm, n), p) && TrueChar(base, algorithm, n, p) == '#'
    ensures !InBounds(Steps(base, algorithm, n), p) ==>
      (TrueChar(base, algorithm, n, p) == '#' <==> n % 2 == 1 && algorithm[0] == '#')
  {
    WindowTracksPlane(base, algorithm, n);
  }

  // ---------------------------------------------------------------------
  // The program's loops

  /** GetPixelBlock: block[y + 1, x + 1] holds the pixel at (p.X + x,
      p.Y + y) for x, y in -1..1. */
  method GetPixelBlock(img: Image, p: Point, algorithm: string, isOdd: bool) returns (block: array2<char>)
    requires isOdd ==> |algorithm| > 0
    ensures fresh(block) && block.Length0 == 3 && block.Length1 == 3
    ensures forall i, j :: 0 <= i < 3 && 0 <= j < 3 ==>
      block[i, j] == PixelValue(img, algorithm, isOdd, (p.0 + j - 1, p.1 + i - 1))
  {
    block := new char[3, 3];
    for y := -1 to 2
      invariant forall i, j :: 0 <= i < y + 1 && 0 <= j < 3 ==>
        block[i, j] == PixelValue(img, algorithm, isOdd, (p.0 + j - 1, p.1 + i - 1))
    {
      for x := -1 to 2
        invariant forall i, j :: 0 <= i < 3 && 0 <= j < 3 && (i < y + 1 || (i == y + 1 && j < x + 1)) ==>
          block[i, j] == PixelValue(img, algorithm, isOdd, (p.0 + j - 1, p.1 + i - 1))
      {
        block[y + 1, x + 1] := PixelValue(img, algorithm, isOdd, (p.0 + x, p.1 + y));
      }
    }
  }

  /** Row i of a block. */
  ghost function Row(block: array2<char>, i: nat): (r: seq<char>)
    requires i < block.Length0
    reads block
    ensures |r| == block.Length1 && forall j :: 0 <= j < block.Length1 ==> r[j] == block[i, j]
  {
    seq(block.Length1, j requires 0 <= j < block.Length1 reads block => block[i, j])
  }

  /** The first n rows of a block, one after the other. */
  ghost function Rows(block: array2<char>, n: nat): (r: seq<char>)
    requires n <= block.Length0
    reads block
  {
    if n == 0 then [] else Rows(block, n - 1) + Row(block, n - 1)
  }

  /** The text of a 3 x 3 block has entry [i, j] at 3 * i + j. */
  lemma RowsOfThree(block: array2<char>)
    requires block.Length0 == 3 && block.Length1 == 3
    ensures |Rows(block, 3)| == 9
    ensures forall k :: 0 <= k < 9 ==> Rows(block, 3)[k] == block[k / 3, k % 3]
  {
    var r0, r1, r2 := Row(block, 0), Row(block, 1), Row(block, 2);
    assert Rows(block, 3) == r0 + r1 + r2 by {
      assert Rows(block, 1) == r0;
    }
    forall k | 0 <= k < 9 ensures (r0 + r1 + r2)[k] == block[k / 3, k % 3] {
      if k < 3 {
        assert (r0 + r1 + r2)[k] == r0[k];
      } else if k < 6 {
        assert (r0 + r1 + r2)[k] == r1[k - 3];
      } else {
        assert (r0 + r1 + r2)[k] == r2[k - 6];
      }
    }
  }

  /** GetBinaryFromBlock: the block row by row. */
  method GetBinaryFromBlock(block: array2<char>) returns (s: string)
    ensures s == Rows(block, block.Length0)
  {
    s := [];
    for i := 0 to block.Length0
      invariant s == Rows(block, i)
    {
      for j := 0 to block.Length1
        invariant s == Rows(block, i) + Row(block, i)[..j]
      {
        assert Row(block, i)[..j + 1] == Row(block, i)[..j] + [block[i, j]];
        s := s + [block[i, j]];
      }
      assert Row(block, i)[..block.Length1] == Row(block, i);
    }
  }

  /** The nine characters of one pixel's block, via GetPixelBlock and
      GetBinaryFromBlock. */
  method ReadPixel(img: Image, p: Point, algorithm: string, isOdd: bool) returns (binary: string)
    requires isOdd ==> |algorithm| > 0
    ensures binary == Window(img, algorithm, isOdd, p)
  {
    var block := GetPixelBlock(img, p, algorithm, isOdd);
    binary := GetBinaryFromBlock(block);
    RowsOfThree(block);
  }

  /** GetNextImage: every pixel of the grown window, column by column. */
  method GetNextImage(img: Image, algorithm: string, isOdd: bool) returns (r: Image)
    requires |algorithm| == 512
    ensures r == NextImage(img, algorithm, isOdd)
  {
    var tl := (img.topLeft.0 - 1, img.topLeft.1 - 1);
    var br := (img.bottomRight.0 + 1, img.bottomRight.1 + 1);
    var lit: set<Point> := {};
    var x := tl.0;
    while x < br.0
      invariant forall q :: q in lit <==>
        tl.0 <= q.0 < x && q.0 < br.0 && tl.1 <= q.1 < br.1 && Lookup(algorithm, Window(img, algorithm, isOdd, q)) == '#'
    {
      lit := NextColumn(img, algorithm, isOdd, x, tl.1, br.1, lit);
      x := x + 1;
    }
    r := Image(lit, tl, br);
    NextImageIs(img, algorithm, isOdd);
    assert r.lit == NextImage(img, algorithm, isOdd).lit;
  }

  /** The inner loop of GetNextImage: the pixels of column x from y0 up to
      y1 are added when the algorithm lights them. */
  method NextColumn(img: Image, algorithm: string, isOdd: bool, x: int, y0: int, y1: int, lit: set<Point>)
    returns (r: set<Point>)
    requires |algorithm| == 512
    ensures forall q :: q in r <==>
      q in lit || (q.0 == x && y0 <= q.1 < y1 && Lookup(algorithm, Window(img, algorithm, isOdd, q)) == '#')
  {
    r := lit;
    var y := y0;
    while y < y1
      invariant forall q :: q in r <==>
        q in lit || (q.0 == x && y0 <= q.1 < y && q.1 < y1 && Lookup(algorithm, Window(img, algorithm, isOdd, q)) == '#')
    {
      var pixel := (x, y);
      var binary := ReadPixel(img, pixel, algorithm, isOdd);
      assert Pow(2, 9) == 512;
      var intValue := GetIntFromBinary(binary);
      var lookup := algorithm[intValue];
      if lookup == '#' {
        r := r + {pixel};
      }
      y := y + 1;
    }
  }

  /** ProcessSteps: steps steps, step i with the parity of i. */
  method ProcessSteps(base: Image, algorithm: string, steps: nat) returns (image: Image)
    requires |algorithm| == 512
    ensures image == Steps(base, algorithm, steps)
  {
    image := base;
    for i := 0 to steps
      invariant image == Steps(base, algorithm, i)
    {
      image := GetNextImage(image, algorithm, i % 2 == 1);
    }
  }
}
