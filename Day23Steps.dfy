/** Amphipod: the steps of the search for the cheapest route, each as a
    lemma saying the step keeps the invariant of Day23Routes, and what
    the invariant gives at the end. */
module Day23Steps {
  import opened Common
  import opened Day23
  import opened Day23Routes

  // ---------------------------------------------------------------------
  // Popping the nearest entry

  /** The distances still waiting are at least the smallest bucket's. */
  lemma FrontierAtLeast(buckets: Buckets, entries: Entries, f: string)
    requires buckets != map[] && InFrontier(buckets, entries, f)
    ensures SetMin(buckets.Keys) <= entries[f].distanceFromStart
  {
  }

  /** Following a route from a processed entry to a board not yet
      processed passes an entry still waiting, so the route costs at least
      the smallest waiting distance d0. */
  lemma {:induction false} ChaseBound(buckets: Buckets, entries: Entries, settled: set<string>, routes: map<string, seq<WeightedMove>>,
                                      start: Board, roomSize: nat, root: string, d0: int,
                                      s: string, path: seq<WeightedMove>, v: Board)
    requires Searching(buckets, entries, settled, routes, start, roomSize, root, settled)
    requires forall f :: InFrontier(buckets, entries, f) ==> d0 <= entries[f].distanceFromStart
    requires s in settled && Route(entries[s].board, roomSize, path, v) && HashOf(v, roomSize) !in settled
    ensures d0 <= entries[s].distanceFromStart + Cost(path)
    decreases |path|
  {
    var b := entries[s].board;
    if path != [] {
      var wm := path[0];
      var next := AfterMove(b, wm.move);
      var t := HashOf(next, roomSize);
      assert EntryOk(entries, routes, start, roomSize, s) && MovesRelaxed(entries, s, roomSize);
      ValidMoveConserves(b, roomSize, wm, '.');
      RouteFacts(next, roomSize, path[1..], v);
      assert Relaxed(entries, entries[s], wm, roomSize);
      if t in settled {
        assert EntryOk(entries, routes, start, roomSize, t);
        HashInjective(entries[t].board, next, roomSize);
        ChaseBound(buckets, entries, settled, routes, start, roomSize, root, d0, t, path[1..], v);
      } else {
        assert InFrontier(buckets, entries, t);
      }
    }
  }

  /** Every route from the start to a board not yet processed costs at
      least the smallest waiting distance. */
  lemma PopBound(buckets: Buckets, entries: Entries, settled: set<string>, routes: map<string, seq<WeightedMove>>,
                 start: Board, roomSize: nat, root: string)
    requires Searching(buckets, entries, settled, routes, start, roomSize, root, settled)
    requires buckets != map[]
    ensures forall path, v :: Route(start, roomSize, path, v) && HashOf(v, roomSize) !in settled ==>
      SetMin(buckets.Keys) <= Cost(path)
  {
    var d0 := SetMin(buckets.Keys);
    forall f | InFrontier(buckets, entries, f) ensures d0 <= entries[f].distanceFromStart {
      FrontierAtLeast(buckets, entries, f);
    }
    if settled == {} {
      FirstBucketRoot(buckets, entries, root, d0);
    }
    forall path, v | Route(start, roomSize, path, v) && HashOf(v, roomSize) !in settled
      ensures d0 <= Cost(path)
    {
      RouteFacts(start, roomSize, path, v);
      if settled != {} {
        ChaseBound(buckets, entries, settled, routes, start, roomSize, root, d0, root, path, v);
      }
    }
  }

  /** Before the first pop the only bucket is the root's, at distance 0. */
  lemma FirstBucketRoot(buckets: Buckets, entries: Entries, root: string, d0: int)
    requires BucketsOk(buckets, entries) && entries.Keys == {root} && entries[root].distanceFromStart == 0
    requires d0 in buckets
    ensures d0 == 0
  {
    var h := SomeElement(buckets[d0]);
    assert h in entries.Keys;
  }

  /** PopFirst takes an entry of the smallest distance; that distance is
      the cost of the cheapest route to its board, and no finished burrow
      is reachable more cheaply. Unless its board is finished, processing
      it keeps the invariant. */
  lemma PopStep(buckets: Buckets, entries: Entries, settled: set<string>, routes: map<string, seq<WeightedMove>>,
                start: Board, roomSize: nat, root: string, h: string)
    requires Searching(buckets, entries, settled, routes, start, roomSize, root, settled)
    requires buckets != map[] && h in buckets[SetMin(buckets.Keys)]
    ensures h in entries && h !in settled && entries[h].distanceFromStart == SetMin(buckets.Keys)
    ensures entries[h].nodeHash == h && HashOf(entries[h].board, roomSize) == h
    ensures forall path :: Route(start, roomSize, path, entries[h].board) ==> entries[h].distanceFromStart <= Cost(path)
    ensures forall path, v :: Route(start, roomSize, path, v) && Completed(v, roomSize) ==>
      entries[h].distanceFromStart <= Cost(path)
    ensures !Completed(entries[h].board, roomSize) ==>
      Searching(Without(buckets, SetMin(buckets.Keys), h), entries[h := entries[h].(isComplete := true)], settled + {h},
                routes, start, roomSize, root, settled)
  {
    var d0 := SetMin(buckets.Keys);
    assert InFrontier(buckets, entries, h);
    assert EntryOk(entries, routes, start, roomSize, h);
    PopBound(buckets, entries, settled, routes, start, roomSize, root);
    forall path, v | Route(start, roomSize, path, v) && Completed(v, roomSize)
      ensures entries[h].distanceFromStart <= Cost(path)
    {
      RouteFacts(start, roomSize, path, v);
      assert HashOf(v, roomSize) !in settled by {
        if HashOf(v, roomSize) in settled {
          assert EntryOk(entries, routes, start, roomSize, HashOf(v, roomSize));
          assert Optimal(entries, start, roomSize, HashOf(v, roomSize));
          HashInjective(entries[HashOf(v, roomSize)].board, v, roomSize);
        }
      }
    }
    if !Completed(entries[h].board, roomSize) {
      PopKeeps(buckets, entries, settled, routes, start, roomSize, root, h);
    }
  }

  lemma PopKeeps(buckets: Buckets, entries: Entries, settled: set<string>, routes: map<string, seq<WeightedMove>>,
                 start: Board, roomSize: nat, root: string, h: string)
    requires Searching(buckets, entries, settled, routes, start, roomSize, root, settled)
    requires buckets != map[] && h in buckets[SetMin(buckets.Keys)] && h !in settled
    requires forall path :: Route(start, roomSize, path, entries[h].board) ==> entries[h].distanceFromStart <= Cost(path)
    requires !Completed(entries[h].board, roomSize)
    ensures Searching(Without(buckets, SetMin(buckets.Keys), h), entries[h := entries[h].(isComplete := true)], settled + {h},
                      routes, start, roomSize, root, settled)
  {
    var d0 := SetMin(buckets.Keys);
    var e := entries[h].(isComplete := true);
    assert LinkOk(entries, settled, root, h);
    PopFrontier(buckets, entries, settled, root, h, d0);
    EntriesMark(entries, routes, start, roomSize, h);
    RootPop(entries, settled, start, roomSize, root, h);
    LinksMore(entries, settled, settled + {h}, root);
    LinksSet(entries, settled + {h}, root, h, e);
    SettledSet(entries, settled, start, roomSize, h, e);
    SettledAdd(entries[h := e], settled, start, roomSize, h);
    ClosedGrows(entries, entries[h := e], settled, roomSize);
  }

  // ---------------------------------------------------------------------
  // The pieces of the invariant, one step at a time

  /** A new or replaced entry that is the board its key names, with a
      route of its distance, keeps EntriesOk. */
  lemma EntriesSet(entries: Entries, routes: map<string, seq<WeightedMove>>, start: Board, roomSize: nat,
                   t: string, e: Entry, path: seq<WeightedMove>)
    requires EntriesOk(entries, routes, start, roomSize)
    requires e.nodeHash == t && WellFormed(e.board, roomSize) && HashOf(e.board, roomSize) == t
    requires ValuesIn(e.board, Alphabet(start))
    requires Route(start, roomSize, path, e.board) && Cost(path) == e.distanceFromStart
    ensures EntriesOk(entries[t := e], routes[t := path], start, roomSize)
  {
    var entries', routes' := entries[t := e], routes[t := path];
    forall h | h in entries' ensures EntryOk(entries', routes', start, roomSize, h) {
      if h != t {
        assert EntryOk(entries, routes, start, roomSize, h);
      }
    }
  }

  /** Marking an entry complete keeps EntriesOk. */
  lemma EntriesMark(entries: Entries, routes: map<string, seq<WeightedMove>>, start: Board, roomSize: nat, h: string)
    requires EntriesOk(entries, routes, start, roomSize) && h in entries
    ensures EntriesOk(entries[h := entries[h].(isComplete := true)], routes, start, roomSize)
  {
    var entries' := entries[h := entries[h].(isComplete := true)];
    forall f | f in entries' ensures EntryOk(entries', routes, start, roomSize, f) {
      assert EntryOk(entries, routes, start, roomSize, f);
    }
  }

  /** A predecessor link to a processed entry nearer the start keeps
      LinksOk, as long as no link points at the changed entry. */
  lemma LinksSet(entries: Entries, settled: set<string>, root: string, t: string, e: Entry)
    requires LinksOk(entries, settled, root)
    requires e.from.None? <==> t == root
    requires e.from.Some? ==>
      (e.from.value in settled && e.from.value in entries && e.from.value != t
       && entries[e.from.value].distanceFromStart < e.distanceFromStart)
    requires t in settled && t in entries ==> entries[t].distanceFromStart == e.distanceFromStart
    ensures LinksOk(entries[t := e], settled, root)
  {
    var entries' := entries[t := e];
    forall h | h in entries' ensures LinkOk(entries', settled, root, h) {
      if h != t {
        assert LinkOk(entries, settled, root, h);
      }
    }
  }

  lemma LinksMore(entries: Entries, settled: set<string>, settled': set<string>, root: string)
    requires LinksOk(entries, settled, root) && settled <= settled'
    ensures LinksOk(entries, settled', root)
  {
    forall h | h in entries ensures LinkOk(entries, settled', root, h) {
      assert LinkOk(entries, settled, root, h);
    }
  }

  /** Changing an entry not yet processed keeps SettledOk. */
  lemma SettledSet(entries: Entries, settled: set<string>, start: Board, roomSize: nat, t: string, e: Entry)
    requires SettledOk(entries, settled, start, roomSize) && t !in settled
    ensures SettledOk(entries[t := e], settled, start, roomSize)
  {
    forall s | s in settled ensures Optimal(entries[t := e], start, roomSize, s) {
      assert Optimal(entries, start, roomSize, s);
    }
  }

  /** An entry whose distance is the least route cost and whose board is
      not finished may join the processed ones. */
  lemma SettledAdd(entries: Entries, settled: set<string>, start: Board, roomSize: nat, h: string)
    requires SettledOk(entries, settled, start, roomSize) && h in entries
    requires forall path :: Route(start, roomSize, path, entries[h].board) ==> entries[h].distanceFromStart <= Cost(path)
    requires !Completed(entries[h].board, roomSize)
    ensures SettledOk(entries, settled + {h}, start, roomSize)
  {
    forall s | s in settled + {h} ensures Optimal(entries, start, roomSize, s) {
      if s != h {
        assert Optimal(entries, start, roomSize, s);
      }
    }
  }

  /** Changing an entry other than the root, once the root is processed,
      keeps RootOk. */
  lemma RootSet(entries: Entries, settled: set<string>, start: Board, roomSize: nat, root: string, t: string, e: Entry)
    requires RootOk(entries, settled, start, roomSize, root) && settled != {} && t != root
    ensures RootOk(entries[t := e], settled, start, roomSize, root)
  {
  }

  /** Marking the popped entry keeps RootOk: the first one popped is the
      root. */
  lemma RootPop(entries: Entries, settled: set<string>, start: Board, roomSize: nat, root: string, h: string)
    requires RootOk(entries, settled, start, roomSize, root) && h in entries
    ensures RootOk(entries[h := entries[h].(isComplete := true)], settled + {h}, start, roomSize, root)
  {
  }

  /** PopFirst: the popped key leaves the buckets and becomes processed. */
  lemma PopFrontier(buckets: Buckets, entries: Entries, settled: set<string>, root: string, h: string, d0: int)
    requires BucketsOk(buckets, entries) && StatusOk(buckets, entries, settled, root)
    requires d0 in buckets && h in buckets[d0]
    ensures h in entries && h !in settled && entries[h].distanceFromStart == d0
    ensures BucketsOk(Without(buckets, d0, h), entries[h := entries[h].(isComplete := true)])
    ensures StatusOk(Without(buckets, d0, h), entries[h := entries[h].(isComplete := true)], settled + {h}, root)
  {
    assert InFrontier(buckets, entries, h);
    TakenFrontier(buckets, entries, h, d0);
    var buckets', entries' := Without(buckets, d0, h), entries[h := entries[h].(isComplete := true)];
    forall f | f in entries ensures InFrontier(buckets', entries', f) <==> InFrontier(buckets', entries, f) {
    }
    forall f | f in entries'
      ensures (entries'[f].isComplete <==> f in settled + {h} || f == root)
      ensures (f in settled + {h} <==> !InFrontier(buckets', entries', f))
    {
      if f != h {
        assert entries'[f] == entries[f];
      }
    }
  }

  /** A new entry joins the bucket of its distance. */
  lemma AddFrontier(buckets: Buckets, entries: Entries, settled: set<string>, root: string, t: string, d: int, e: Entry)
    requires BucketsOk(buckets, entries) && StatusOk(buckets, entries, settled, root)
    requires t !in entries && t != root && !e.isComplete && e.distanceFromStart == d
    ensures BucketsOk(With(buckets, d, t), entries[t := e])
    ensures StatusOk(With(buckets, d, t), entries[t := e], settled, root)
  {
    PutFrontier(buckets, entries, t, d, e);
  }

  /** UpdateByDistance: a waiting entry moves to the bucket of its new
      distance. */
  lemma UpdateFrontier(buckets: Buckets, entries: Entries, settled: set<string>, root: string, t: string, d: int, e: Entry)
    returns (buckets': Buckets)
    requires BucketsOk(buckets, entries) && StatusOk(buckets, entries, settled, root)
    requires t in entries && !entries[t].isComplete && !e.isComplete && e.distanceFromStart == d
    ensures entries[t].distanceFromStart in buckets && t in buckets[entries[t].distanceFromStart] && t !in settled
    ensures buckets' == With(Without(buckets, entries[t].distanceFromStart, t), d, t)
    ensures BucketsOk(buckets', entries[t := e])
    ensures StatusOk(buckets', entries[t := e], settled, root)
  {
    assert InFrontier(buckets, entries, t);
    MovedFrontier(buckets, entries, t, d, e);
    buckets' := With(Without(buckets, entries[t].distanceFromStart, t), d, t);
    var entries' := entries[t := e];
    forall h | h in entries'
      ensures (entries'[h].isComplete <==> h in settled || h == root)
      ensures (h in settled <==> !InFrontier(buckets', entries', h))
    {
      if h != t {
        assert entries'[h] == entries[h];
      }
    }
  }

  /** Moving a waiting key to another bucket leaves the other keys where
      they wait. */
  lemma MovedFrontier(buckets: Buckets, entries: Entries, t: string, d: int, e: Entry)
    requires BucketsOk(buckets, entries) && InFrontier(buckets, entries, t) && e.distanceFromStart == d
    ensures BucketsOk(With(Without(buckets, entries[t].distanceFromStart, t), d, t), entries[t := e])
    ensures InFrontier(With(Without(buckets, entries[t].distanceFromStart, t), d, t), entries[t := e], t)
    ensures forall f :: f in entries && f != t ==>
      (InFrontier(With(Without(buckets, entries[t].distanceFromStart, t), d, t), entries[t := e], f) <==> InFrontier(buckets, entries, f))
  {
    var d1 := entries[t].distanceFromStart;
    TakenFrontier(buckets, entries, t, d1);
    PutFrontier(Without(buckets, d1, t), entries, t, d, e);
  }

  /** Taking waiting key t out of its bucket. */
  lemma TakenFrontier(buckets: Buckets, entries: Entries, t: string, d1: int)
    requires BucketsOk(buckets, entries) && InFrontier(buckets, entries, t) && d1 == entries[t].distanceFromStart
    ensures forall d :: d in Without(buckets, d1, t) ==> Without(buckets, d1, t)[d] != {}
    ensures forall d, h :: d in Without(buckets, d1, t) && h in Without(buckets, d1, t)[d] ==>
      h in entries && h != t && entries[h].distanceFromStart == d
    ensures forall f :: f in entries && f != t ==> (InFrontier(Without(buckets, d1, t), entries, f) <==> InFrontier(buckets, entries, f))
  {
    SingleKey(buckets[d1], t);
    forall f | f in entries && f != t && InFrontier(buckets, entries, f) ensures InFrontier(Without(buckets, d1, t), entries, f) {
    }
  }

  /** Putting key t, absent from every bucket, into the bucket of its new
      distance d. */
  lemma PutFrontier(buckets: Buckets, entries: Entries, t: string, d: int, e: Entry)
    requires forall k :: k in buckets ==> buckets[k] != {}
    requires forall k, h :: k in buckets && h in buckets[k] ==> h in entries && h != t && entries[h].distanceFromStart == k
    requires e.distanceFromStart == d
    ensures BucketsOk(With(buckets, d, t), entries[t := e])
    ensures InFrontier(With(buckets, d, t), entries[t := e], t)
    ensures forall f :: f in entries && f != t ==> (InFrontier(With(buckets, d, t), entries[t := e], f) <==> InFrontier(buckets, entries, f))
  {
    var buckets', entries' := With(buckets, d, t), entries[t := e];
    forall k, h | k in buckets' && h in buckets'[k] ensures h in entries' && entries'[h].distanceFromStart == k {
      if h != t {
        assert h in buckets[k];
      }
    }
  }



  // ---------------------------------------------------------------------
  // Relaxing the moves of the processed entry

  /** Right after cur is popped no move of it is relaxed yet. */
  lemma RelaxStart(buckets: Buckets, entries: Entries, settled: set<string>, routes: map<string, seq<WeightedMove>>,
                   start: Board, roomSize: nat, root: string, h: string, cur: Entry, moves: seq<WeightedMove>)
    requires Searching(buckets, entries, settled + {h}, routes, start, roomSize, root, settled)
    requires h !in settled && h in entries && entries[h] == cur && cur.nodeHash == h
    requires moves == ValidMoves(cur.board, roomSize)
    ensures Relaxing(buckets, entries, settled + {h}, routes, start, roomSize, root, cur, moves, 0)
  {
    assert (settled + {h}) - {h} == settled;
  }

  /** Once every move of cur is relaxed, cur is closed. */
  lemma RelaxEnd(buckets: Buckets, entries: Entries, settled: set<string>, routes: map<string, seq<WeightedMove>>,
                 start: Board, roomSize: nat, root: string, cur: Entry, moves: seq<WeightedMove>)
    requires Relaxing(buckets, entries, settled, routes, start, roomSize, root, cur, moves, |moves|)
    ensures Searching(buckets, entries, settled, routes, start, roomSize, root, settled)
  {
    CloseCurrent(entries, settled, cur, moves, roomSize);
  }

  lemma CloseCurrent(entries: Entries, settled: set<string>, cur: Entry, moves: seq<WeightedMove>, roomSize: nat)
    requires Closed(entries, settled - {cur.nodeHash}, roomSize) && cur.nodeHash in entries && entries[cur.nodeHash] == cur
    requires moves == ValidMoves(cur.board, roomSize)
    requires forall k :: 0 <= k < |moves| ==> Relaxed(entries, cur, moves[k], roomSize)
    ensures Closed(entries, settled, roomSize)
  {
    forall s | s in settled ensures MovesRelaxed(entries, s, roomSize) {
      if s == cur.nodeHash {
        forall wm | wm in ValidMoves(cur.board, roomSize) ensures Relaxed(entries, cur, wm, roomSize) {
          var k :| 0 <= k < |moves| && moves[k] == wm;
        }
      } else {
        assert s in settled - {cur.nodeHash};
      }
    }
  }

  /** The earlier moves of cur stay relaxed as entries grow. */
  lemma RelaxedPrefixGrows(before: Entries, after: Entries, fixed: set<string>, cur: Entry, moves: seq<WeightedMove>, i: int, roomSize: nat)
    requires Grows(before, after, fixed) && 0 <= i < |moves|
    requires forall k :: 0 <= k < i ==> Relaxed(before, cur, moves[k], roomSize)
    requires Relaxed(after, cur, moves[i], roomSize)
    ensures forall k :: 0 <= k < i + 1 ==> Relaxed(after, cur, moves[k], roomSize)
  {
    forall k | 0 <= k < i ensures Relaxed(after, cur, moves[k], roomSize) {
      RelaxedGrows(before, after, fixed, cur, moves[k], roomSize);
    }
  }

  /** The next move of cur leads to a board with no entry: the new entry
      and its bucket keep the invariant. */
  lemma AddStep(buckets: Buckets, entries: Entries, settled: set<string>, routes: map<string, seq<WeightedMove>>,
                start: Board, roomSize: nat, root: string, cur: Entry, moves: seq<WeightedMove>, i: int)
    returns (buckets': Buckets, entries': Entries, routes': map<string, seq<WeightedMove>>)
    requires Relaxing(buckets, entries, settled, routes, start, roomSize, root, cur, moves, i) && i < |moves|
    requires Target(cur, moves[i], roomSize) !in entries
    ensures buckets' == With(buckets, cur.distanceFromStart + moves[i].cost, Target(cur, moves[i], roomSize))
    ensures entries' == entries[Target(cur, moves[i], roomSize) := Discovered(cur, moves[i], roomSize)]
    ensures routes' == routes[Target(cur, moves[i], roomSize) := routes[cur.nodeHash] + [moves[i]]]
    ensures Relaxing(buckets', entries', settled, routes', start, roomSize, root, cur, moves, i + 1)
  {
    var t, e := Target(cur, moves[i], roomSize), Discovered(cur, moves[i], roomSize);
    StepFacts(buckets, entries, settled, routes, start, roomSize, root, cur, moves, i);
    AddFrontier(buckets, entries, settled, root, t, cur.distanceFromStart + moves[i].cost, e);
    entries', routes' := ReplaceKeeps(buckets, entries, settled, routes, start, roomSize, root, cur, moves, i, e);
    buckets' := With(buckets, cur.distanceFromStart + moves[i].cost, t);
    RelaxingFrom(buckets', entries', settled, routes', start, roomSize, root, cur, moves, i + 1);
  }

  /** The pieces of the inner loop's invariant make it up. */
  lemma RelaxingFrom(buckets: Buckets, entries: Entries, settled: set<string>, routes: map<string, seq<WeightedMove>>,
                     start: Board, roomSize: nat, root: string, cur: Entry, moves: seq<WeightedMove>, i: int)
    requires WellFormed(start, roomSize) && BucketsOk(buckets, entries) && EntriesOk(entries, routes, start, roomSize)
    requires StatusOk(buckets, entries, settled, root) && RootOk(entries, settled, start, roomSize, root)
    requires LinksOk(entries, settled, root) && SettledOk(entries, settled, start, roomSize)
    requires Closed(entries, settled - {cur.nodeHash}, roomSize)
    requires cur.nodeHash in settled && cur.nodeHash in entries && entries[cur.nodeHash] == cur
    requires moves == ValidMoves(cur.board, roomSize) && 0 <= i <= |moves|
    requires forall k :: 0 <= k < i ==> Relaxed(entries, cur, moves[k], roomSize)
    ensures Relaxing(buckets, entries, settled, routes, start, roomSize, root, cur, moves, i)
  {
  }

  /** What the next move of cur leads to. */
  lemma StepFacts(buckets: Buckets, entries: Entries, settled: set<string>, routes: map<string, seq<WeightedMove>>,
                  start: Board, roomSize: nat, root: string, cur: Entry, moves: seq<WeightedMove>, i: int)
    requires Relaxing(buckets, entries, settled, routes, start, roomSize, root, cur, moves, i) && i < |moves|
    ensures WellFormed(AfterMove(cur.board, moves[i].move), roomSize)
    ensures ValuesIn(AfterMove(cur.board, moves[i].move), Alphabet(start))
    ensures Route(start, roomSize, routes[cur.nodeHash] + [moves[i]], AfterMove(cur.board, moves[i].move))
    ensures Cost(routes[cur.nodeHash] + [moves[i]]) == cur.distanceFromStart + moves[i].cost
    ensures moves[i].cost >= 1
    ensures Target(cur, moves[i], roomSize) in entries ==>
      entries[Target(cur, moves[i], roomSize)].board == AfterMove(cur.board, moves[i].move)
      && entries[Target(cur, moves[i], roomSize)].nodeHash == Target(cur, moves[i], roomSize)
  {
    var t := Target(cur, moves[i], roomSize);
    var c := cur.nodeHash;
    assert RootOk(entries, settled, start, roomSize, root);
    assert EntryOk(entries, routes, start, roomSize, c);
    if t in entries {
      assert EntryOk(entries, routes, start, roomSize, t);
    }
    MoveFacts(start, roomSize, routes[c], cur, moves, i, if t in entries then Some(entries[t].board) else None);
  }

  lemma MoveFacts(start: Board, roomSize: nat, path: seq<WeightedMove>, cur: Entry, moves: seq<WeightedMove>, i: int,
                  known: Option<Board>)
    requires WellFormed(start, roomSize)
    requires WellFormed(cur.board, roomSize) && HashOf(cur.board, roomSize) == cur.nodeHash && ValuesIn(cur.board, Alphabet(start))
    requires Route(start, roomSize, path, cur.board) && Cost(path) == cur.distanceFromStart
    requires moves == ValidMoves(cur.board, roomSize) && 0 <= i < |moves|
    requires known.Some? ==> WellFormed(known.value, roomSize) && HashOf(known.value, roomSize) == Target(cur, moves[i], roomSize)
    ensures WellFormed(AfterMove(cur.board, moves[i].move), roomSize)
    ensures ValuesIn(AfterMove(cur.board, moves[i].move), Alphabet(start))
    ensures Route(start, roomSize, path + [moves[i]], AfterMove(cur.board, moves[i].move))
    ensures Cost(path + [moves[i]]) == cur.distanceFromStart + moves[i].cost
    ensures moves[i].cost >= 1
    ensures known.Some? ==> known.value == AfterMove(cur.board, moves[i].move)
  {
    var wm := moves[i];
    var next := AfterMove(cur.board, wm.move);
    assert wm in ValidMoves(cur.board, roomSize);
    ValidMoveConserves(cur.board, roomSize, wm, '.');
    MovedValuesIn(cur.board, wm.move, Alphabet(start));
    RouteExtend(start, roomSize, path, cur.board, wm);
    if known.Some? {
      HashInjective(known.value, next, roomSize);
    }
  }

  /** Setting the entry of the next move's board to e, reached through cur,
      keeps every piece of the invariant but the buckets. */
  lemma ReplaceKeeps(buckets: Buckets, entries: Entries, settled: set<string>, routes: map<string, seq<WeightedMove>>,
                     start: Board, roomSize: nat, root: string, cur: Entry, moves: seq<WeightedMove>, i: int, e: Entry)
    returns (entries': Entries, routes': map<string, seq<WeightedMove>>)
    requires Relaxing(buckets, entries, settled, routes, start, roomSize, root, cur, moves, i) && i < |moves|
    requires e.nodeHash == Target(cur, moves[i], roomSize) && e.board == AfterMove(cur.board, moves[i].move)
    requires e.from == Some(cur.nodeHash) && e.distanceFromStart == cur.distanceFromStart + moves[i].cost
    requires e.nodeHash in entries ==> !entries[e.nodeHash].isComplete && e.distanceFromStart < entries[e.nodeHash].distanceFromStart
    ensures entries' == entries[e.nodeHash := e] && routes' == routes[e.nodeHash := routes[cur.nodeHash] + [moves[i]]]
    ensures
      && EntriesOk(entries', routes', start, roomSize)
      && RootOk(entries', settled, start, roomSize, root)
      && LinksOk(entries', settled, root)
      && SettledOk(entries', settled, start, roomSize)
      && Closed(entries', settled - {cur.nodeHash}, roomSize)
      && cur.nodeHash in entries' && entries'[cur.nodeHash] == cur
      && forall k :: 0 <= k < i + 1 ==> Relaxed(entries', cur, moves[k], roomSize)
  {
    var t := e.nodeHash;
    StepFacts(buckets, entries, settled, routes, start, roomSize, root, cur, moves, i);
    EntriesSet(entries, routes, start, roomSize, t, e, routes[cur.nodeHash] + [moves[i]]);
    ReplaceLinks(buckets, entries, settled, start, roomSize, root, cur.nodeHash, e);
    ReplaceClosed(entries, settled - {cur.nodeHash}, cur, moves, i, roomSize, e);
    entries', routes' := entries[e.nodeHash := e], routes[e.nodeHash := routes[cur.nodeHash] + [moves[i]]];
  }

  /** The links, the root and the processed entries survive the change of
      an entry that is not processed to one linked from processed entry c. */
  lemma ReplaceLinks(buckets: Buckets, entries: Entries, settled: set<string>, start: Board, roomSize: nat, root: string,
                     c: string, e: Entry)
    requires StatusOk(buckets, entries, settled, root) && RootOk(entries, settled, start, roomSize, root)
    requires LinksOk(entries, settled, root) && SettledOk(entries, settled, start, roomSize)
    requires c in settled && c in entries && e.nodeHash != root && e.nodeHash != c
    requires e.from == Some(c) && entries[c].distanceFromStart < e.distanceFromStart
    requires e.nodeHash in entries ==> !entries[e.nodeHash].isComplete
    ensures RootOk(entries[e.nodeHash := e], settled, start, roomSize, root)
    ensures LinksOk(entries[e.nodeHash := e], settled, root)
    ensures SettledOk(entries[e.nodeHash := e], settled, start, roomSize)
  {
    var t := e.nodeHash;
    assert t !in settled;
    RootSet(entries, settled, start, roomSize, root, t, e);
    LinksSet(entries, settled, root, t, e);
    SettledSet(entries, settled, start, roomSize, t, e);
  }

  /** The moves relaxed so far stay relaxed when the entry of the next
      move's board gets distance at most the one through cur. */
  lemma ReplaceClosed(entries: Entries, closed: set<string>, cur: Entry, moves: seq<WeightedMove>, i: int, roomSize: nat, e: Entry)
    requires Closed(entries, closed, roomSize) && closed <= entries.Keys && 0 <= i < |moves|
    requires cur.nodeHash in entries && entries[cur.nodeHash] == cur && cur.nodeHash !in closed
    requires forall k :: 0 <= k < i ==> Relaxed(entries, cur, moves[k], roomSize)
    requires e.nodeHash == Target(cur, moves[i], roomSize) && e.nodeHash != cur.nodeHash && e.nodeHash !in closed
    requires e.distanceFromStart <= cur.distanceFromStart + moves[i].cost
    requires e.nodeHash in entries ==> e.distanceFromStart <= entries[e.nodeHash].distanceFromStart
    ensures Closed(entries[e.nodeHash := e], closed, roomSize)
    ensures cur.nodeHash in entries[e.nodeHash := e] && entries[e.nodeHash := e][cur.nodeHash] == cur
    ensures forall k :: 0 <= k < i + 1 ==> Relaxed(entries[e.nodeHash := e], cur, moves[k], roomSize)
  {
    var entries' := entries[e.nodeHash := e];
    assert Grows(entries, entries', closed + {cur.nodeHash});
    ClosedGrows(entries, entries', closed, roomSize);
    RelaxedPrefixGrows(entries, entries', closed + {cur.nodeHash}, cur, moves, i, roomSize);
  }

  /** The next move of cur leads to a waiting entry more cheaply than its
      distance: moving it to the new distance, with cur as predecessor,
      keeps the invariant. */
  lemma UpdateStep(buckets: Buckets, entries: Entries, settled: set<string>, routes: map<string, seq<WeightedMove>>,
                   start: Board, roomSize: nat, root: string, cur: Entry, moves: seq<WeightedMove>, i: int)
    returns (buckets': Buckets, entries': Entries, routes': map<string, seq<WeightedMove>>)
    requires Relaxing(buckets, entries, settled, routes, start, roomSize, root, cur, moves, i) && i < |moves|
    requires Target(cur, moves[i], roomSize) in entries && !entries[Target(cur, moves[i], roomSize)].isComplete
    requires cur.distanceFromStart + moves[i].cost < entries[Target(cur, moves[i], roomSize)].distanceFromStart
    ensures entries[Target(cur, moves[i], roomSize)].distanceFromStart in buckets
    ensures entries[Target(cur, moves[i], roomSize)].nodeHash == Target(cur, moves[i], roomSize)
    ensures buckets' == With(Without(buckets, entries[Target(cur, moves[i], roomSize)].distanceFromStart, Target(cur, moves[i], roomSize)),
                             cur.distanceFromStart + moves[i].cost, Target(cur, moves[i], roomSize))
    ensures entries' == entries[Target(cur, moves[i], roomSize) := entries[Target(cur, moves[i], roomSize)].(
                          from := Some(cur.nodeHash), distanceFromStart := cur.distanceFromStart + moves[i].cost)]
    ensures routes' == routes[Target(cur, moves[i], roomSize) := routes[cur.nodeHash] + [moves[i]]]
    ensures Relaxing(buckets', entries', settled, routes', start, roomSize, root, cur, moves, i + 1)
  {
    var t := Target(cur, moves[i], roomSize);
    var e := entries[t].(from := Some(cur.nodeHash), distanceFromStart := cur.distanceFromStart + moves[i].cost);
    StepFacts(buckets, entries, settled, routes, start, roomSize, root, cur, moves, i);
    assert e.nodeHash == t;
    buckets' := UpdateFrontier(buckets, entries, settled, root, t, cur.distanceFromStart + moves[i].cost, e);
    entries', routes' := ReplaceKeeps(buckets, entries, settled, routes, start, roomSize, root, cur, moves, i, e);
    RelaxingFrom(buckets', entries', settled, routes', start, roomSize, root, cur, moves, i + 1);
  }

  /** The next move of cur leads to an entry that is processed, or no
      further than through cur: the move is already relaxed. */
  lemma SkipStep(buckets: Buckets, entries: Entries, settled: set<string>, routes: map<string, seq<WeightedMove>>,
                 start: Board, roomSize: nat, root: string, cur: Entry, moves: seq<WeightedMove>, i: int)
    requires Relaxing(buckets, entries, settled, routes, start, roomSize, root, cur, moves, i) && i < |moves|
    requires Target(cur, moves[i], roomSize) in entries
    requires entries[Target(cur, moves[i], roomSize)].isComplete
      || entries[Target(cur, moves[i], roomSize)].distanceFromStart <= cur.distanceFromStart + moves[i].cost
    ensures Relaxing(buckets, entries, settled, routes, start, roomSize, root, cur, moves, i + 1)
  {
    var wm := moves[i];
    var next := AfterMove(cur.board, wm.move);
    var t := Target(cur, wm, roomSize);
    assert EntryOk(entries, routes, start, roomSize, cur.nodeHash) && EntryOk(entries, routes, start, roomSize, t);
    assert wm in ValidMoves(cur.board, roomSize);
    ValidMoveConserves(cur.board, roomSize, wm, '.');
    RouteFacts(start, roomSize, routes[cur.nodeHash], cur.board);
    if entries[t].isComplete && t != root {
      HashInjective(entries[t].board, next, roomSize);
      RouteExtend(start, roomSize, routes[cur.nodeHash], cur.board, wm);
      SettledBound(entries, settled, start, roomSize, t, routes[cur.nodeHash] + [wm]);
    }
  }

  lemma SettledBound(entries: Entries, settled: set<string>, start: Board, roomSize: nat, t: string, path: seq<WeightedMove>)
    requires SettledOk(entries, settled, start, roomSize) && t in settled && t in entries
    requires Route(start, roomSize, path, entries[t].board)
    ensures entries[t].distanceFromStart <= Cost(path)
  {
    assert Optimal(entries, start, roomSize, t);
  }

  // ---------------------------------------------------------------------
  // The end of the search

  /** Following a route from a processed entry when nothing is waiting
      only ever reaches processed entries. */
  lemma {:induction false} ChaseClosed(buckets: Buckets, entries: Entries, settled: set<string>, routes: map<string, seq<WeightedMove>>,
                                       start: Board, roomSize: nat, root: string,
                                       s: string, path: seq<WeightedMove>, v: Board)
    requires Searching(buckets, entries, settled, routes, start, roomSize, root, settled) && buckets == map[]
    requires s in settled && Route(entries[s].board, roomSize, path, v)
    ensures HashOf(v, roomSize) in settled && entries[HashOf(v, roomSize)].board == v
    decreases |path|
  {
    var b := entries[s].board;
    if path != [] {
      var wm := path[0];
      var next := AfterMove(b, wm.move);
      var t := HashOf(next, roomSize);
      assert EntryOk(entries, routes, start, roomSize, s) && MovesRelaxed(entries, s, roomSize);
      ValidMoveConserves(b, roomSize, wm, '.');
      assert Relaxed(entries, entries[s], wm, roomSize);
      assert !InFrontier(buckets, entries, t);
      assert EntryOk(entries, routes, start, roomSize, t);
      HashInjective(entries[t].board, next, roomSize);
      ChaseClosed(buckets, entries, settled, routes, start, roomSize, root, t, path[1..], v);
    }
  }

  /** When nothing is waiting no route from the start finishes the
      burrow: the search's failure is genuine. */
  lemma Exhausted(buckets: Buckets, entries: Entries, settled: set<string>, routes: map<string, seq<WeightedMove>>,
                  start: Board, roomSize: nat, root: string)
    requires Searching(buckets, entries, settled, routes, start, roomSize, root, settled) && buckets == map[]
    ensures forall path, v :: Route(start, roomSize, path, v) ==> !Completed(v, roomSize)
  {
    assert !InFrontier(buckets, entries, root);
    forall path, v | Route(start, roomSize, path, v) ensures !Completed(v, roomSize) {
      ChaseClosed(buckets, entries, settled, routes, start, roomSize, root, root, path, v);
      assert Optimal(entries, start, roomSize, HashOf(v, roomSize));
    }
  }

  /** The keys of the entries lie in a finite set fixed by the start. */
  lemma KeysBounded(entries: Entries, routes: map<string, seq<WeightedMove>>, start: Board, roomSize: nat)
    requires EntriesOk(entries, routes, start, roomSize)
    ensures entries.Keys <= Words(Alphabet(start), 11 + 4 * roomSize)
  {
    forall h | h in entries ensures h in Words(Alphabet(start), 11 + 4 * roomSize) {
      assert EntryOk(entries, routes, start, roomSize, h);
      HashInWords(entries[h].board, roomSize, Alphabet(start));
    }
  }

  /** Popping an entry whose board is finished ends the search with the
      cheapest cost, and predecessor keys that lead back to the start. */
  lemma Found(buckets: Buckets, entries: Entries, settled: set<string>, routes: map<string, seq<WeightedMove>>,
              start: Board, roomSize: nat, root: string, h: string)
    requires Searching(buckets, entries, settled, routes, start, roomSize, root, settled)
    requires buckets != map[] && h in buckets[SetMin(buckets.Keys)] && Completed(entries[h].board, roomSize)
    ensures h in entries && entries[h].nodeHash == h
    ensures Cheapest(entries[h := entries[h].(isComplete := true)], Some(h), start, roomSize)
    ensures Chained(entries[h := entries[h].(isComplete := true)])
    ensures Linked(entries[h := entries[h].(isComplete := true)], root)
  {
    PopStep(buckets, entries, settled, routes, start, roomSize, root, h);
    assert EntryOk(entries, routes, start, roomSize, h);
    SearchChained(entries, settled, routes, start, roomSize, root);
    MarkedChained(entries, h);
    SearchLinked(entries, settled, routes, start, roomSize, root);
    MarkedLinked(entries, root, h);
  }

  /** The invariant keeps predecessor keys pointing nearer the start. */
  lemma SearchChained(entries: Entries, settled: set<string>, routes: map<string, seq<WeightedMove>>,
                      start: Board, roomSize: nat, root: string)
    requires WellFormed(start, roomSize) && EntriesOk(entries, routes, start, roomSize) && LinksOk(entries, settled, root)
    ensures Chained(entries)
  {
    forall h | h in entries ensures ChainLink(entries, h) {
      assert EntryOk(entries, routes, start, roomSize, h) && LinkOk(entries, settled, root, h);
      RouteFacts(start, roomSize, routes[h], entries[h].board);
    }
  }

  lemma MarkedChained(entries: Entries, h: string)
    requires Chained(entries) && h in entries
    ensures Chained(entries[h := entries[h].(isComplete := true)])
  {
    var entries' := entries[h := entries[h].(isComplete := true)];
    forall f | f in entries' ensures ChainLink(entries', f) {
      assert ChainLink(entries, f);
    }
  }

  /** The invariant keeps every entry under its own key and links it to
      entries back to the start. */
  lemma SearchLinked(entries: Entries, settled: set<string>, routes: map<string, seq<WeightedMove>>,
                     start: Board, roomSize: nat, root: string)
    requires EntriesOk(entries, routes, start, roomSize) && LinksOk(entries, settled, root)
    ensures Linked(entries, root)
  {
    forall h | h in entries ensures LinkedAt(entries, root, h) {
      assert EntryOk(entries, routes, start, roomSize, h) && LinkOk(entries, settled, root, h);
    }
  }

  lemma MarkedLinked(entries: Entries, root: string, h: string)
    requires Linked(entries, root) && h in entries
    ensures Linked(entries[h := entries[h].(isComplete := true)], root)
  {
    var entries' := entries[h := entries[h].(isComplete := true)];
    forall f | f in entries' ensures LinkedAt(entries', root, f) {
      assert LinkedAt(entries, root, f);
    }
  }
}
