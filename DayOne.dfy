/** Sonar sweep: counting increases in a list of depth measurements, either
    directly or over sliding windows. */
module DayOne {
  import opened Common

  /** The number of positions i >= 1 at which s[i] > s[i - 1]. */
  function Increases(s: seq<int>): nat
  {
    if |s| < 2 then 0
    else Increases(s[..|s| - 1]) + (if s[|s| - 1] > s[|s| - 2] then 1 else 0)
  }

  /** Window i: the w measurements starting at i, or nothing when w <= 0. */
  function Window(m: seq<int>, i: nat, w: int): seq<int>
    requires w <= 0 || i + w <= |m|
  {
    if w <= 0 then [] else m[i..i + w]
  }

  function WindowCount(n: nat, w: int): nat
  {
    if n - w + 1 > 0 then n - w + 1 else 0
  }

  /** The sums of the windows, in order. */
  function WindowSums(m: seq<int>, w: int): (r: seq<int>)
    ensures |r| == WindowCount(|m|, w)
  {
    seq(WindowCount(|m|, w), i requires 0 <= i < WindowCount(|m|, w) => Sum(Window(m, i, w)))
  }

  /** GetWindows: one window per start index i < |m| - w + 1. */
  method GetWindows(m: seq<int>, w: int) returns (windows: seq<seq<int>>)
    ensures |windows| == WindowCount(|m|, w)
    ensures forall i :: 0 <= i < |windows| ==> (w <= 0 || i + w <= |m|) && windows[i] == Window(m, i, w)
  {
    windows := [];
    var i := 0;
    while i < |m| - w + 1
      invariant 0 <= i <= WindowCount(|m|, w)
      invariant |windows| == i
      invariant forall k :: 0 <= k < i ==> (w <= 0 || k + w <= |m|) && windows[k] == Window(m, k, w)
    {
      var window := [];
      var j := 0;
      while j < w
        invariant 0 <= j && (j <= w || j == 0)
        invariant j > 0 ==> i + j <= |m|
        invariant window == if j == 0 then [] else m[i..i + j]
      {
        window := window + [m[i + j]];
        j := j + 1;
      }
      windows := windows + [window];
      i := i + 1;
    }
  }

  /** CountIncreases over an in-memory list of measurements. */
  method CountIncreases(a: seq<int>) returns (increases: nat)
    ensures increases == Increases(a)
  {
    increases := 0;
    var i := 1;
    while i < |a|
      invariant 1 <= i && (i <= |a| || |a| < 2)
      invariant increases == Increases(a[..if i <= |a| then i else |a|])
    {
      assert a[..i + 1][..i] == a[..i];
      if a[i] > a[i - 1] {
        increases := increases + 1;
      }
      i := i + 1;
    }
    if |a| < 2 {
      assert Increases(a) == 0;
    } else {
      assert a[..|a|] == a;
    }
  }

  /** CountWindows over an in-memory list: increases between consecutive
      window sums. */
  method CountWindows(m: seq<int>, w: int) returns (increases: nat)
    ensures increases == Increases(WindowSums(m, w))
  {
    var windows := GetWindows(m, w);
    ghost var sums := WindowSums(m, w);
    increases := 0;
    var i := 1;
    while i < |windows|
      invariant 1 <= i && (i <= |windows| || |windows| < 2)
      invariant increases == Increases(sums[..if i <= |sums| then i else |sums|])
    {
      assert sums[..i + 1][..i] == sums[..i];
      assert sums[i] == Sum(windows[i]) && sums[i - 1] == Sum(windows[i - 1]);
      if Sum(windows[i]) > Sum(windows[i - 1]) {
        increases := increases + 1;
      }
      i := i + 1;
    }
    if |sums| < 2 {
      assert Increases(sums) == 0;
    } else {
      assert sums[..|sums|] == sums;
    }
  }

  lemma {:induction false} IncreasesBound(s: seq<int>)
    requires |s| >= 1
    ensures Increases(s) <= |s| - 1
  {
    if |s| >= 2 { IncreasesBound(s[..|s| - 1]); }
  }

  /** With a window of one, the window sums are the measurements themselves,
      so CountWindows(m, 1) and CountIncreases(m) agree. */
  lemma WindowsOfOne(m: seq<int>)
    ensures WindowSums(m, 1) == m
    ensures Increases(WindowSums(m, 1)) == Increases(m)
  {
    forall i | 0 <= i < |m| ensures WindowSums(m, 1)[i] == m[i] {
      assert Window(m, i, 1) == [m[i]];
      assert [m[i]][..0] == [];
      assert Sum([m[i]]) == Sum([]) + m[i];
    }
  }

  /** Consecutive windows share all but one value, so the later sum is larger
      exactly when the value entering exceeds the value leaving. */
  lemma WindowStep(m: seq<int>, i: nat, w: int)
    requires w >= 1 && i + 1 + w <= |m|
    ensures Sum(Window(m, i + 1, w)) > Sum(Window(m, i, w)) <==> m[i + w] > m[i]
  {
    var a := Window(m, i, w);
    var b := Window(m, i + 1, w);
    SumFirst(a);
    assert a[1..] == b[..w - 1];
    assert Sum(b) == Sum(b[..w - 1]) + b[w - 1];
  }

  /** Increases over a prefix grows by one exactly when the prefix's new
      last value exceeds the one before it. */
  lemma IncreasesPrefix(s: seq<int>, k: nat)
    requires 1 <= k < |s|
    ensures Increases(s[..k + 1]) == Increases(s[..k]) + (if s[k] > s[k - 1] then 1 else 0)
  {
    assert s[..k + 1][..k] == s[..k];
  }

  /** The number of i < k with m[i + w] > m[i]. */
  function ShiftedIncreases(m: seq<int>, w: nat, k: nat): nat
    requires k + w <= |m|
  {
    if k == 0 then 0
    else ShiftedIncreases(m, w, k - 1) + (if m[k - 1 + w] > m[k - 1] then 1 else 0)
  }

  /** When each step of sums rises exactly when the measurement w further
      on exceeds the current one, the rises of sums are ShiftedIncreases. */
  lemma {:induction false} IncreasesShiftedOf(sums: seq<int>, m: seq<int>, w: nat, k: nat)
    requires k < |sums| && k + w <= |m|
    requires forall i :: 0 <= i < k ==> (sums[i + 1] > sums[i] <==> m[i + w] > m[i])
    ensures Increases(sums[..k + 1]) == ShiftedIncreases(m, w, k)
  {
    if k > 0 {
      IncreasesShiftedOf(sums, m, w, k - 1);
      IncreasesPrefix(sums, k);
      assert sums[k] > sums[k - 1] <==> m[k - 1 + w] > m[k - 1];
    } else {
      assert |sums[..1]| == 1;
    }
  }

  /** CountWindows reduces to comparing measurements w apart. */
  lemma WindowIncreasesShifted(m: seq<int>, w: int, k: nat)
    requires w >= 1 && k + w <= |m|
    ensures Increases(WindowSums(m, w)[..k + 1]) == ShiftedIncreases(m, w, k)
  {
    var sums := WindowSums(m, w);
    forall i | 0 <= i < k ensures sums[i + 1] > sums[i] <==> m[i + w] > m[i] {
      WindowStep(m, i, w);
    }
    IncreasesShiftedOf(sums, m, w, k);
  }
}
