/** Lanternfish, the first version: every fish is kept in a list, each day
    maps the list fish by fish. Its dictionary half repeats Day6 and is
    modelled there; this module relates the list form to that tally. */
module DaySix {
  import opened Counting
  import Day6

  /** One day on a list of timers: a fish whose timer would drop below 0
      becomes a new fish at 8 followed by itself reset to 6; any other fish
      counts down by one. */
  function ListStep(timers: seq<int>): (r: seq<int>)
    ensures |r| >= |timers|
  {
    if timers == [] then []
    else
      var last := timers[|timers| - 1];
      ListStep(timers[..|timers| - 1])
        + (if last - 1 < 0
           then [Day6.DefaultTimerCycle + Day6.SpawnedFishTimerGap, Day6.DefaultTimerCycle]
           else [last - 1])
  }

  /** GetNextIteration: the new pool, built in list order. */
  method GetNextIteration(initialFishes: seq<int>) returns (nextFishPool: seq<int>)
    ensures nextFishPool == ListStep(initialFishes)
  {
    nextFishPool := [];
    var i := 0;
    while i < |initialFishes|
      invariant 0 <= i <= |initialFishes|
      invariant nextFishPool == ListStep(initialFishes[..i])
    {
      assert initialFishes[..i + 1][..i] == initialFishes[..i];
      var newTimer := initialFishes[i] - 1;
      if newTimer < 0 {
        nextFishPool := nextFishPool + [Day6.DefaultTimerCycle + Day6.SpawnedFishTimerGap];
        nextFishPool := nextFishPool + [Day6.DefaultTimerCycle];
      } else {
        nextFishPool := nextFishPool + [newTimer];
      }
      i := i + 1;
    }
    assert initialFishes[..i] == initialFishes;
  }

  predicate NonNegative(timers: seq<int>)
  {
    forall i :: 0 <= i < |timers| ==> timers[i] >= 0
  }

  /** Timers that start non-negative stay non-negative, and never exceed 8
      when they start at most 8. */
  lemma {:induction false} ListStepRange(timers: seq<int>)
    ensures NonNegative(ListStep(timers))
    ensures (forall i :: 0 <= i < |timers| ==> timers[i] <= 8)
      ==> forall i :: 0 <= i < |ListStep(timers)| ==> ListStep(timers)[i] <= 8
  {
    if timers != [] {
      var init := timers[..|timers| - 1];
      ListStepRange(init);
      if forall i :: 0 <= i < |timers| ==> timers[i] <= 8 {
        assert forall i :: 0 <= i < |init| ==> init[i] == timers[i];
      }
    }
  }

  /** For non-negative timers the list and the tally tell the same story:
      the tally of the next day's list is the tally step of today's tally.
      (A negative timer parts the two: the list turns it into a new fish,
      the tally moves it one further below zero.) */
  lemma {:induction false} HistogramOfListStep(timers: seq<int>)
    requires NonNegative(timers)
    ensures Histogram(ListStep(timers)) == Day6.Step(Histogram(timers))
  {
    if timers == [] {
      assert Day6.Step(map[]) == map[];
    } else {
      HistogramOfListStep(timers[..|timers| - 1]);
      HistogramOfListStepLast(timers);
    }
  }

  /** The inductive step: one more fish at the end of the list. */
  lemma HistogramOfListStepLast(timers: seq<int>)
    requires timers != [] && timers[|timers| - 1] >= 0
    requires var init := timers[..|timers| - 1]; Histogram(ListStep(init)) == Day6.Step(Histogram(init))
    ensures Histogram(ListStep(timers)) == Day6.Step(Histogram(timers))
  {
    var init := timers[..|timers| - 1];
    var last := timers[|timers| - 1];
    assert timers == init + [last];
    Day6.StepAddCount(Histogram(init), last, 1);
    if last == 0 {
      SpawnLast(init);
    } else {
      CountDownLast(init, last);
    }
  }

  lemma SpawnLast(init: seq<int>)
    ensures Histogram(ListStep(init + [0]))
      == Day6.Advance(Histogram(ListStep(init)), 0, 1)
  {
    var timers := init + [0];
    assert timers[..|timers| - 1] == init;
    var before := ListStep(init);
    assert ListStep(timers) == before + [8, 6];
    HistogramOfSpawn(before);
    AddCountCommute(Histogram(before), 6, 1, 8, 1);
  }

  lemma CountDownLast(init: seq<int>, last: int)
    requires last > 0
    ensures Histogram(ListStep(init + [last]))
      == Day6.Advance(Histogram(ListStep(init)), last, 1)
  {
    var timers := init + [last];
    assert timers[..|timers| - 1] == init;
    var next := ListStep(init) + [last - 1];
    assert ListStep(timers) == next;
    assert next[..|next| - 1] == ListStep(init);
  }

  lemma HistogramOfSpawn(before: seq<int>)
    ensures Histogram(before + [8, 6]) == AddCount(AddCount(Histogram(before), 8, 1), 6, 1)
  {
    var next := before + [8, 6];
    assert next[..|next| - 1] == before + [8];
    assert (before + [8])[..|before|] == before;
  }

  /** Each fish at 0 adds one fish to the list. */
  lemma ListStepLength(timers: seq<int>)
    requires NonNegative(timers)
    ensures |ListStep(timers)| == |timers| + multiset(timers)[0]
  {
    HistogramOfListStep(timers);
    HistogramCounts(timers);
    HistogramCounts(ListStep(timers));
    Day6.StepTotal(Histogram(timers));
  }

  /** The list after n days. */
  function ListStepN(timers: seq<int>, n: nat): seq<int>
  {
    if n == 0 then timers else ListStep(ListStepN(timers, n - 1))
  }

  /** GetFishStateAfterDayCount and GetFishAgesByDayCount agree: n days on
      the list, tallied, is n days on the tally. */
  lemma {:induction false} HistogramOfListStepN(timers: seq<int>, n: nat)
    requires NonNegative(timers)
    ensures Histogram(ListStepN(timers, n)) == Day6.StepN(Histogram(timers), n)
  {
    if n > 0 {
      HistogramOfListStepN(timers, n - 1);
      if n - 1 > 0 {
        ListStepRange(ListStepN(timers, n - 2));
      }
      HistogramOfListStep(ListStepN(timers, n - 1));
    }
  }

  /** GetFishStateAfterDayCount: dayCount applications of GetNextIteration. */
  method GetFishStateAfterDayCount(dayCount: int, initialFishes: seq<int>) returns (fish: seq<int>)
    ensures fish == ListStepN(initialFishes, if dayCount < 0 then 0 else dayCount)
  {
    fish := initialFishes;
    var d := 1;
    while d <= dayCount
      invariant 1 <= d && (d <= dayCount + 1 || (dayCount < 1 && d == 1))
      invariant fish == ListStepN(initialFishes, d - 1)
    {
      fish := GetNextIteration(fish);
      d := d + 1;
    }
  }
}
