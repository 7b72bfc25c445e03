/** Amphipod: routes through the space of boards, the bookkeeping of the
    search for the cheapest one, and the facts each step of that search
    keeps. The search itself is in Day23Search. */
module Day23Routes {
  import opened Common
  import opened Day23

  /** ShortestPathContextEntry. Entries are identified by their key, as
      the C# Equals and GetHashCode do. */
  datatype Entry = Entry(nodeHash: string, distanceFromStart: int, from: Option<string>, board: Board, isComplete: bool)

  /** ShortestPathsByHash */
  type Entries = map<string, Entry>

  /** ShortestPathsSoFarByDistance: the keys of the entries still to be
      processed, by distance. */
  type Buckets = map<int, set<string>>

  // ---------------------------------------------------------------------
  // Routes

  /** path is a sequence of moves, each one generated on the board the
      moves before it left, leading from b to end. */
  ghost predicate Route(b: Board, roomSize: nat, path: seq<WeightedMove>, end: Board)
    decreases |path|
  {
    if path == [] then end == b
    else path[0] in ValidMoves(b, roomSize) && Route(AfterMove(b, path[0].move), roomSize, path[1..], end)
  }

  /** The energy a sequence of moves costs. */
  function Cost(path: seq<WeightedMove>): int
  {
    if path == [] then 0 else path[0].cost + Cost(path[1..])
  }

  /** A route followed by one more generated move is a route. */
  lemma {:induction false} RouteExtend(b: Board, roomSize: nat, path: seq<WeightedMove>, mid: Board, wm: WeightedMove)
    requires Route(b, roomSize, path, mid) && wm in ValidMoves(mid, roomSize)
    ensures Route(b, roomSize, path + [wm], AfterMove(mid, wm.move))
    ensures Cost(path + [wm]) == Cost(path) + wm.cost
    decreases |path|
  {
    if path == [] {
      assert path + [wm] == [wm];
    } else {
      RouteExtend(AfterMove(b, path[0].move), roomSize, path[1..], mid, wm);
      assert (path + [wm])[1..] == path[1..] + [wm];
    }
  }

  /** A route from a board of the burrow ends at a board of the burrow,
      and every move on it costs at least 1. */
  lemma {:induction false} RouteFacts(b: Board, roomSize: nat, path: seq<WeightedMove>, end: Board)
    requires WellFormed(b, roomSize) && Route(b, roomSize, path, end)
    ensures WellFormed(end, roomSize) && Cost(path) >= |path|
    decreases |path|
  {
    if path != [] {
      ValidMoveConserves(b, roomSize, path[0], '.');
      RouteFacts(AfterMove(b, path[0].move), roomSize, path[1..], end);
    }
  }

  // ---------------------------------------------------------------------
  // The finite space of keys

  /** The values a board reached from start can hold. */
  function Alphabet(start: Board): set<char>
  {
    start.Values + {'.'}
  }

  predicate ValuesIn(b: Board, alphabet: set<char>)
  {
    b.Values <= alphabet
  }

  /** Every string of length n over alphabet. */
  function Words(alphabet: set<char>, n: nat): set<string>
  {
    if n == 0 then {[]} else set c, w | c in alphabet && w in Words(alphabet, n - 1) :: [c] + w
  }

  lemma {:induction false} InWords(alphabet: set<char>, w: string)
    requires forall i :: 0 <= i < |w| ==> w[i] in alphabet
    ensures w in Words(alphabet, |w|)
  {
    if |w| > 0 {
      InWords(alphabet, w[1..]);
      assert w == [w[0]] + w[1..];
    }
  }

  /** The key of a board of the burrow is a word over its values. */
  lemma HashInWords(b: Board, roomSize: nat, alphabet: set<char>)
    requires WellFormed(b, roomSize) && ValuesIn(b, alphabet)
    ensures HashOf(b, roomSize) in Words(alphabet, 11 + 4 * roomSize)
  {
    CellsExact(roomSize);
    WellFormedCells(b, roomSize);
    ReadCellsIndex(b, Cells(roomSize));
    InWords(alphabet, HashOf(b, roomSize));
  }

  /** A move out of a cell of the board keeps its values in an alphabet
      holding '.'. */
  lemma MovedValuesIn(b: Board, move: Move, alphabet: set<char>)
    requires ValuesIn(b, alphabet) && '.' in alphabet && move.from in b
    ensures ValuesIn(AfterMove(b, move), alphabet)
  {
  }

  // ---------------------------------------------------------------------
  // The buckets

  /** AddByDistance: key h joins the bucket of distance d, which is made
      when missing. */
  function With(buckets: Buckets, d: int, h: string): (r: Buckets)
    ensures r.Keys == buckets.Keys + {d} && h in r[d]
    ensures forall k :: k in r ==> r[k] == (if k in buckets then buckets[k] else {}) + (if k == d then {h} else {})
  {
    buckets[d := (if d in buckets then buckets[d] else {}) + {h}]
  }

  /** The removal of PopFirst and UpdateByDistance: a bucket holding one
      key is dropped, otherwise the key leaves its bucket. */
  function Without(buckets: Buckets, d: int, h: string): (r: Buckets)
    requires d in buckets
    ensures r.Keys <= buckets.Keys
    ensures forall k :: k in buckets && k != d ==> k in r
    ensures d in r <==> |buckets[d]| != 1
    ensures forall k :: k in r ==> r[k] == buckets[k] - (if k == d then {h} else {})
  {
    if |buckets[d]| == 1 then buckets - {d} else buckets[d := buckets[d] - {h}]
  }

  /** A bucket holding h holds nothing else exactly when it has one key. */
  lemma SingleKey(bucket: set<string>, h: string)
    requires h in bucket
    ensures |bucket| == 1 <==> bucket == {h}
  {
    assert |bucket - {h}| == |bucket| - 1;
    if |bucket| == 1 {
      assert bucket - {h} == {};
    }
  }

  /** Every bucket is non-empty and holds entries of its own distance. */
  ghost predicate BucketsOk(buckets: Buckets, entries: Entries)
  {
    && (forall d :: d in buckets ==> buckets[d] != {})
    && (forall d, h :: d in buckets && h in buckets[d] ==> h in entries && entries[h].distanceFromStart == d)
  }

  /** Entry h waits in the bucket of its distance. */
  ghost predicate InFrontier(buckets: Buckets, entries: Entries, h: string)
  {
    h in entries && entries[h].distanceFromStart in buckets && h in buckets[entries[h].distanceFromStart]
  }

  // ---------------------------------------------------------------------
  // The search invariant

  /** Every entry is the board its key names, reached by a recorded route
      whose cost is the entry's distance. The quantifiers of the invariant
      are triggered on their per-entry predicate only, so that facts about
      an entry are drawn exactly where a proof names it. */
  ghost predicate EntriesOk(entries: Entries, routes: map<string, seq<WeightedMove>>, start: Board, roomSize: nat)
  {
    && entries.Keys <= routes.Keys
    && forall h {:trigger EntryOk(entries, routes, start, roomSize, h)} :: h in entries ==> EntryOk(entries, routes, start, roomSize, h)
  }

  ghost predicate EntryOk(entries: Entries, routes: map<string, seq<WeightedMove>>, start: Board, roomSize: nat, h: string)
  {
    && h in entries && entries[h].nodeHash == h
    && WellFormed(entries[h].board, roomSize) && HashOf(entries[h].board, roomSize) == h
    && ValuesIn(entries[h].board, Alphabet(start))
    && h in routes && Route(start, roomSize, routes[h], entries[h].board)
    && Cost(routes[h]) == entries[h].distanceFromStart
  }

  /** The processed entries are the ones marked complete, apart from the
      root, which is marked from the start; they are exactly the entries
      no bucket holds. */
  ghost predicate StatusOk(buckets: Buckets, entries: Entries, settled: set<string>, root: string)
  {
    && settled <= entries.Keys
    && (forall h :: h in entries ==> (entries[h].isComplete <==> h in settled || h == root))
    && (forall h :: h in entries ==> (h in settled <==> !InFrontier(buckets, entries, h)))
  }

  /** The root entry is the start board at distance 0, and it is the first
      entry processed. */
  ghost predicate RootOk(entries: Entries, settled: set<string>, start: Board, roomSize: nat, root: string)
  {
    && root == HashOf(start, roomSize) && root in entries
    && entries[root].distanceFromStart == 0 && entries[root].board == start
    && (settled == {} ==> entries.Keys == {root})
    && (settled != {} ==> root in settled)
  }

  /** Only the root has no predecessor; every other entry's predecessor is
      a processed entry at a smaller distance. */
  ghost predicate LinksOk(entries: Entries, settled: set<string>, root: string)
  {
    forall h {:trigger LinkOk(entries, settled, root, h)} :: h in entries ==> LinkOk(entries, settled, root, h)
  }

  ghost predicate LinkOk(entries: Entries, settled: set<string>, root: string, h: string)
  {
    && h in entries
    && (entries[h].from.None? <==> h == root)
    && (entries[h].from.Some? ==>
          && entries[h].from.value in settled && entries[h].from.value in entries
          && entries[entries[h].from.value].distanceFromStart < entries[h].distanceFromStart)
  }

  /** A processed entry is not a finished burrow, and its distance is the
      least cost of any route to its board. */
  ghost predicate SettledOk(entries: Entries, settled: set<string>, start: Board, roomSize: nat)
  {
    forall s {:trigger Optimal(entries, start, roomSize, s)} :: s in settled ==> Optimal(entries, start, roomSize, s)
  }

  ghost predicate Optimal(entries: Entries, start: Board, roomSize: nat, s: string)
  {
    && s in entries && !Completed(entries[s].board, roomSize)
    && forall path :: Route(start, roomSize, path, entries[s].board) ==> entries[s].distanceFromStart <= Cost(path)
  }

  /** The board one generated move leads to from entry from has an entry,
      at most as far as going through from. */
  ghost predicate Relaxed(entries: Entries, from: Entry, wm: WeightedMove, roomSize: nat)
  {
    Target(from, wm, roomSize) in entries
    && entries[Target(from, wm, roomSize)].distanceFromStart <= from.distanceFromStart + wm.cost
  }

  /** The key of the board a move of entry from leads to. */
  function Target(from: Entry, wm: WeightedMove, roomSize: nat): string
  {
    HashOf(AfterMove(from.board, wm.move), roomSize)
  }

  /** The entry BuildShortestPathContext makes for a board first reached
      by move wm of entry from. */
  function Discovered(from: Entry, wm: WeightedMove, roomSize: nat): (e: Entry)
    ensures e.nodeHash == Target(from, wm, roomSize) && e.board == AfterMove(from.board, wm.move)
    ensures e.distanceFromStart == from.distanceFromStart + wm.cost && e.from == Some(from.nodeHash) && !e.isComplete
  {
    Entry(Target(from, wm, roomSize), from.distanceFromStart + wm.cost, Some(from.nodeHash), AfterMove(from.board, wm.move), false)
  }

  /** Every move of the entries in closed is relaxed. */
  ghost predicate Closed(entries: Entries, closed: set<string>, roomSize: nat)
  {
    forall s {:trigger MovesRelaxed(entries, s, roomSize)} :: s in closed ==> MovesRelaxed(entries, s, roomSize)
  }

  ghost predicate MovesRelaxed(entries: Entries, s: string, roomSize: nat)
  {
    s in entries && forall wm :: wm in ValidMoves(entries[s].board, roomSize) ==> Relaxed(entries, entries[s], wm, roomSize)
  }

  /** The invariant of the loop of BuildShortestPathContext; closed is the
      set of processed entries whose moves have all been relaxed. */
  ghost predicate Searching(buckets: Buckets, entries: Entries, settled: set<string>, routes: map<string, seq<WeightedMove>>,
                            start: Board, roomSize: nat, root: string, closed: set<string>)
  {
    && WellFormed(start, roomSize)
    && BucketsOk(buckets, entries)
    && EntriesOk(entries, routes, start, roomSize)
    && StatusOk(buckets, entries, settled, root)
    && RootOk(entries, settled, start, roomSize, root)
    && LinksOk(entries, settled, root)
    && SettledOk(entries, settled, start, roomSize)
    && closed <= settled
    && Closed(entries, closed, roomSize)
  }

  /** The state right after the root entry is made. */
  lemma SearchStart(start: Board, roomSize: nat, root: string)
    requires WellFormed(start, roomSize) && root == HashOf(start, roomSize)
    ensures Searching(With(map[], 0, root), map[root := Entry(root, 0, None, start, true)], {}, map[root := []],
                      start, roomSize, root, {})
  {
  }

  /** Later entries differ from earlier ones only by new keys and smaller
      distances, and the entries in fixed not at all. */
  ghost predicate Grows(before: Entries, after: Entries, fixed: set<string>)
  {
    && before.Keys <= after.Keys
    && (forall h :: h in before ==> after[h].distanceFromStart <= before[h].distanceFromStart)
    && (forall h :: h in fixed && h in before ==> after[h] == before[h])
  }

  lemma ClosedGrows(before: Entries, after: Entries, closed: set<string>, roomSize: nat)
    requires Closed(before, closed, roomSize) && Grows(before, after, closed)
    ensures Closed(after, closed, roomSize)
  {
    forall s | s in closed ensures MovesRelaxed(after, s, roomSize) {
      assert MovesRelaxed(before, s, roomSize);
      forall wm | wm in ValidMoves(after[s].board, roomSize) ensures Relaxed(after, after[s], wm, roomSize) {
        assert Relaxed(before, before[s], wm, roomSize);
      }
    }
  }

  lemma RelaxedGrows(before: Entries, after: Entries, fixed: set<string>, from: Entry, wm: WeightedMove, roomSize: nat)
    requires Relaxed(before, from, wm, roomSize) && Grows(before, after, fixed)
    ensures Relaxed(after, from, wm, roomSize)
  {
  }

  /** The invariant of the inner loop: the moves of cur before index i
      are relaxed. */
  ghost predicate Relaxing(buckets: Buckets, entries: Entries, settled: set<string>, routes: map<string, seq<WeightedMove>>,
                           start: Board, roomSize: nat, root: string, cur: Entry, moves: seq<WeightedMove>, i: int)
  {
    && Searching(buckets, entries, settled, routes, start, roomSize, root, settled - {cur.nodeHash})
    && cur.nodeHash in settled && cur.nodeHash in entries && entries[cur.nodeHash] == cur
    && moves == ValidMoves(cur.board, roomSize) && 0 <= i <= |moves|
    && forall k :: 0 <= k < i ==> Relaxed(entries, cur, moves[k], roomSize)
  }

  // ---------------------------------------------------------------------
  // The outcome of the search

  /** The entry of key finalHash is a finished burrow, reached by a route
      of its distance, and no route to a finished burrow is cheaper. */
  ghost predicate Cheapest(entries: Entries, finalHash: Option<string>, start: Board, roomSize: nat)
  {
    && finalHash.Some? && finalHash.value in entries
    && Completed(entries[finalHash.value].board, roomSize)
    && (exists path :: Route(start, roomSize, path, entries[finalHash.value].board)
                       && Cost(path) == entries[finalHash.value].distanceFromStart)
    && (forall path, v :: Route(start, roomSize, path, v) && Completed(v, roomSize) ==>
          entries[finalHash.value].distanceFromStart <= Cost(path))
  }

  /** Distances are not negative and every predecessor key that has an
      entry names one nearer the start, so following them ends. */
  ghost predicate Chained(entries: Entries)
  {
    forall h {:trigger ChainLink(entries, h)} :: h in entries ==> ChainLink(entries, h)
  }

  ghost predicate ChainLink(entries: Entries, h: string)
  {
    && h in entries && entries[h].distanceFromStart >= 0
    && (entries[h].from.Some? && entries[h].from.value in entries ==>
          entries[entries[h].from.value].distanceFromStart < entries[h].distanceFromStart)
  }

  /** Every entry sits under its own key, the start key is the only one
      with no predecessor, and every predecessor key has an entry. */
  ghost predicate Linked(entries: Entries, root: string)
  {
    forall h {:trigger LinkedAt(entries, root, h)} :: h in entries ==> LinkedAt(entries, root, h)
  }

  ghost predicate LinkedAt(entries: Entries, root: string, h: string)
  {
    && h in entries && entries[h].nodeHash == h
    && (entries[h].from.None? <==> h == root)
    && (entries[h].from.Some? ==> entries[h].from.value in entries)
  }
}
