/** Lanternfish: a population kept as a tally from timer value to the number
    of fish with that timer. Each day a fish at 0 resets to 6 and spawns one
    at 8; every other fish counts down by one. */
module Day6 {
  import opened Counting
  import Common

  const DefaultTimerCycle := 6
  const SpawnedFishTimerGap := 2

  /** The Dictionary<int, long> from timer to fish count that the day's
      helpers fill in place. */
  class FishAges {
    var counts: map<int, int>

    constructor ()
      ensures counts == map[]
    {
      counts := map[];
    }

    /** AddToKey: insert the key with 0 when absent, then add value to it. */
    method AddToKey(key: int, value: int)
      modifies this
      ensures counts == AddCount(old(counts), key, value)
    {
      if key !in counts {
        counts := counts[key := 0];
      }
      counts := counts[key := counts[key] + value];
    }
  }

  /** InitializeFishAges: one AddToKey(timer, 1) per fish. */
  method InitializeFishAges(fishes: seq<int>) returns (fishAges: FishAges)
    ensures fresh(fishAges)
    ensures fishAges.counts == Histogram(fishes)
  {
    fishAges := new FishAges();
    var i := 0;
    while i < |fishes|
      invariant 0 <= i <= |fishes|
      invariant fishAges.counts == Histogram(fishes[..i])
    {
      assert fishes[..i + 1][..i] == fishes[..i];
      fishAges.AddToKey(fishes[i], 1);
      i := i + 1;
    }
    assert fishes[..i] == fishes;
  }

  // ---------------------------------------------------------------------
  // One day on the tally

  /** The timers present after a day. */
  function StepKeys(m: map<int, int>): set<int>
  {
    (set k | k in m && k != 0 :: k - 1)
      + (if 0 in m then {DefaultTimerCycle, DefaultTimerCycle + SpawnedFishTimerGap} else {})
  }

  /** The fish at timer a after a day: those that were at a + 1 (a fish at 0
      never becomes -1), plus the fish at 0 for a = 6 and again for a = 8. */
  function NextCount(m: map<int, int>, a: int): int
  {
    (if a == DefaultTimerCycle || a == DefaultTimerCycle + SpawnedFishTimerGap then Lookup(m, 0) else 0)
      + (if a + 1 != 0 then Lookup(m, a + 1) else 0)
  }

  /** The tally after one day. */
  function Step(m: map<int, int>): map<int, int>
  {
    map a | a in StepKeys(m) :: NextCount(m, a)
  }

  /** After a day, the fish at timer a are the ones that were at a + 1,
      except that 6 and 8 also receive all the fish that were at 0, and no
      fish is ever at -1. */
  lemma StepLookup(m: map<int, int>)
    ensures forall a :: a in Step(m) <==> (a + 1 in m && a + 1 != 0) || (0 in m && (a == 6 || a == 8))
    ensures forall a :: a != 6 && a != 8 && a != -1 ==> Lookup(Step(m), a) == Lookup(m, a + 1)
    ensures Lookup(Step(m), 6) == Lookup(m, 0) + Lookup(m, 7)
    ensures Lookup(Step(m), 8) == Lookup(m, 0) + Lookup(m, 9)
    ensures Lookup(Step(m), -1) == 0
  {
    forall a ensures a in Step(m) <==> (a + 1 in m && a + 1 != 0) || (0 in m && (a == 6 || a == 8)) {
      StepKeysAt(m, a);
    }
    forall a ensures Lookup(Step(m), a) == NextCount(m, a) {
      StepLookupAt(m, a);
    }
  }

  /** What v fish at timer k add to the next day's tally t. */
  function Advance(t: map<int, int>, k: int, v: int): map<int, int>
  {
    if k == 0 then AddCount(AddCount(t, DefaultTimerCycle, v), DefaultTimerCycle + SpawnedFishTimerGap, v)
    else AddCount(t, k - 1, v)
  }

  /** Fish added before the day land where they would on their own: the day
      is linear in the tally. */
  lemma StepAddCount(r: map<int, int>, k: int, v: int)
    ensures Step(AddCount(r, k, v)) == Advance(Step(r), k, v)
  {
    StepAddCountKeys(r, k, v);
    StepAddCountLookups(r, k, v);
    TallyEquality(Step(AddCount(r, k, v)), Advance(Step(r), k, v));
  }

  lemma StepAddCountLookups(r: map<int, int>, k: int, v: int)
    ensures forall a :: Lookup(Step(AddCount(r, k, v)), a) == Lookup(Advance(Step(r), k, v), a)
  {
    var before := Step(r);
    forall a ensures Lookup(Step(AddCount(r, k, v)), a) == Lookup(Advance(before, k, v), a) {
      StepAddCountAt(r, k, v, a);
      if k == 0 {
        LookupAddCount(before, 6, v, a);
        LookupAddCount(AddCount(before, 6, v), 8, v, a);
      } else {
        LookupAddCount(before, k - 1, v, a);
      }
    }
  }

  lemma StepAddCountKeys(r: map<int, int>, k: int, v: int)
    ensures forall a :: a in Step(AddCount(r, k, v)) <==> a in Advance(Step(r), k, v)
  {
    forall a ensures a in Step(AddCount(r, k, v)) <==> a in Advance(Step(r), k, v) {
      StepKeysAt(AddCount(r, k, v), a);
      StepKeysAt(r, a);
    }
  }

  lemma StepKeysAt(m: map<int, int>, a: int)
    ensures a in Step(m) <==> (a + 1 in m && a + 1 != 0) || (0 in m && (a == 6 || a == 8))
  {
    if a + 1 in m && a + 1 != 0 {
      assert (a + 1) - 1 == a;
    }
  }

  lemma StepLookupAt(m: map<int, int>, a: int)
    ensures Lookup(Step(m), a) == NextCount(m, a)
  {
    StepKeysAt(m, a);
  }

  lemma StepAddCountAt(r: map<int, int>, k: int, v: int, a: int)
    ensures Lookup(Step(AddCount(r, k, v)), a)
      == Lookup(Step(r), a) + (if k == 0 && (a == 6 || a == 8) then v else 0)
         + (if k != 0 && a == k - 1 then v else 0)
  {
    StepLookupAt(AddCount(r, k, v), a);
    StepLookupAt(r, a);
    LookupAddCount(r, k, v, a + 1);
    LookupAddCount(r, k, v, 0);
  }

  /** Every fish at 0 adds one fish to the population. */
  lemma {:induction false} StepTotal(m: map<int, int>)
    ensures MapSum(Step(m)) == MapSum(m) + Lookup(m, 0)
    decreases |m.Keys|
  {
    if m == map[] {
      assert Step(m) == map[];
    } else {
      var k := SomeKey(m);
      var r := m - {k};
      assert m == AddCount(r, k, m[k]);
      assert r.Keys == m.Keys - {k};
      StepTotal(r);
      StepAddCount(r, k, m[k]);
      if k == 0 {
        MapSumAddCount(Step(r), 6, m[k]);
        MapSumAddCount(AddCount(Step(r), 6, m[k]), 8, m[k]);
      } else {
        MapSumAddCount(Step(r), k - 1, m[k]);
      }
      MapSumAddCount(r, k, m[k]);
    }
  }

  /** Timers between 0 and 8 stay between 0 and 8. */
  lemma StepKeepsRange(m: map<int, int>)
    requires forall k :: k in m ==> 0 <= k <= DefaultTimerCycle + SpawnedFishTimerGap
    ensures forall k :: k in Step(m) ==> 0 <= k <= DefaultTimerCycle + SpawnedFishTimerGap
  {
    StepLookup(m);
  }

  /** GetNextIteration: a fresh tally filled by visiting the keys of the old
      one, in whatever order the dictionary yields them. */
  method GetNextIteration(initialFishAges: FishAges) returns (nextFishAges: FishAges)
    ensures fresh(nextFishAges)
    ensures nextFishAges.counts == Step(initialFishAges.counts)
  {
    var m := initialFishAges.counts;
    nextFishAges := new FishAges();
    var keys := m.Keys;
    ghost var visited: set<int> := {};
    assert Restrict(m, visited) == map[];
    assert Step(map[]) == map[];
    while keys != {}
      invariant keys == m.Keys - visited && visited <= m.Keys
      invariant nextFishAges.counts == Step(Restrict(m, visited))
      decreases keys
    {
      ghost var some := Common.SomeElement(keys);
      var fishAge :| fishAge in keys;
      var fishCount := m[fishAge];
      RestrictAdd(m, visited, fishAge);
      StepAddCount(Restrict(m, visited), fishAge, fishCount);
      if fishAge == 0 {
        nextFishAges.AddToKey(DefaultTimerCycle, fishCount);
        nextFishAges.AddToKey(DefaultTimerCycle + SpawnedFishTimerGap, fishCount);
      } else {
        nextFishAges.AddToKey(fishAge - 1, fishCount);
      }
      keys := keys - {fishAge};
      visited := visited + {fishAge};
    }
    RestrictAll(m, visited);
  }

  /** The tally after n days. */
  function StepN(m: map<int, int>, n: nat): map<int, int>
  {
    if n == 0 then m else Step(StepN(m, n - 1))
  }

  /** Over n days the population only grows, and timers stay in 0..8. */
  lemma {:induction false} StepNGrows(m: map<int, int>, n: nat)
    requires forall k :: k in m ==> 0 <= k <= 8 && m[k] >= 0
    ensures forall k :: k in StepN(m, n) ==> 0 <= k <= 8 && StepN(m, n)[k] >= 0
    ensures MapSum(StepN(m, n)) >= MapSum(m)
  {
    if n > 0 {
      StepNGrows(m, n - 1);
      var p := StepN(m, n - 1);
      StepTotal(p);
      forall k | k in Step(p) ensures 0 <= k <= 8 && Step(p)[k] >= 0 {
        StepKeysAt(p, k);
        StepLookupAt(p, k);
      }
    }
  }

  /** GetFishAgesByDayCount: dayCount applications of GetNextIteration; for
      no days it hands back the very tally it was given. */
  method GetFishAgesByDayCount(dayCount: int, initialFishes: FishAges) returns (fish: FishAges)
    ensures fish.counts == StepN(initialFishes.counts, if dayCount < 0 then 0 else dayCount)
    ensures dayCount <= 0 ==> fish == initialFishes
  {
    fish := initialFishes;
    var d := 1;
    while d <= dayCount
      invariant 1 <= d && (d <= dayCount + 1 || dayCount < 1)
      invariant fish.counts == StepN(initialFishes.counts, d - 1)
      invariant dayCount <= 0 ==> fish == initialFishes
    {
      fish := GetNextIteration(fish);
      d := d + 1;
    }
  }
}
