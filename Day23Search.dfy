/** Amphipod: the search for the cheapest way to organise the burrow
    (BuildShortestPathContext) over the tables ShortestPathContext keeps,
    and the walk back along the predecessor keys (GetMoveSet). */
module Day23Search {
  import opened Common
  import opened Day23
  import opened Day23Routes
  import opened Day23Steps

  /** ShortestPathContext: the waiting keys by distance, the entries by
      key and the key of the finished burrow once found. Entries are
      values: where the C# code changes an entry object that both tables
      share, the model rewrites the entry under its key. */
  class ShortestPathContext {
    var byDistance: Buckets
    var byHash: Entries
    var finalHash: Option<string>

    constructor ()
      ensures byDistance == map[] && byHash == map[] && finalHash == None
    {
      byDistance := map[];
      byHash := map[];
      finalHash := None;
    }

    /** PopFirst: some key of the bucket of the smallest distance, which
        leaves the bucket, or the whole bucket when it was its only key.
        None stands for the exception First() throws on an empty table or
        bucket. */
    method PopFirst() returns (r: Option<string>)
      modifies this
      ensures byHash == old(byHash) && finalHash == old(finalHash)
      ensures r.None? <==> old(byDistance) == map[] || old(byDistance)[SetMin(old(byDistance).Keys)] == {}
      ensures r.None? ==> byDistance == old(byDistance)
      ensures r.Some? ==> old(byDistance) != map[] && r.value in old(byDistance)[SetMin(old(byDistance).Keys)]
      ensures r.Some? ==> byDistance == Without(old(byDistance), SetMin(old(byDistance).Keys), r.value)
    {
      if byDistance == map[] {
        return None;
      }
      var first := SetMin(byDistance.Keys);
      var firstList := byDistance[first];
      if firstList == {} {
        return None;
      }
      var toReturn :| toReturn in firstList;
      if |firstList| == 1 {
        byDistance := byDistance - {first};
      } else {
        byDistance := byDistance[first := firstList - {toReturn}];
      }
      return Some(toReturn);
    }

    /** AddByDistance: the key of toAdd joins the bucket of its distance,
        made when missing. */
    method AddByDistance(toAdd: Entry)
      modifies this
      ensures byDistance == With(old(byDistance), toAdd.distanceFromStart, toAdd.nodeHash)
      ensures byHash == old(byHash) && finalHash == old(finalHash)
    {
      var d := toAdd.distanceFromStart;
      if d !in byDistance {
        byDistance := byDistance[d := {}];
      }
      var list := byDistance[d];
      byDistance := byDistance[d := list + {toAdd.nodeHash}];
    }

    /** UpdateByDistance: the key of update leaves the bucket of its old
        distance (the whole bucket goes when it holds at most one key),
        the entry takes distance newDistance and joins that bucket. Err
        stands for the exceptions of a missing bucket and of Single when
        a bucket of several keys lacks the key. */
    method UpdateByDistance(newDistance: int, update: Entry) returns (r: Result<()>)
      modifies this
      ensures finalHash == old(finalHash)
      ensures update.distanceFromStart !in old(byDistance) ==>
        r == Err("KeyNotFoundException") && byDistance == old(byDistance) && byHash == old(byHash)
      ensures update.distanceFromStart in old(byDistance) && |old(byDistance)[update.distanceFromStart]| > 1
              && update.nodeHash !in old(byDistance)[update.distanceFromStart] ==>
        r == Err("InvalidOperationException") && byDistance == old(byDistance) && byHash == old(byHash)
      ensures update.distanceFromStart in old(byDistance) && update.nodeHash in old(byDistance)[update.distanceFromStart] ==>
        && r == Ok(())
        && byDistance == With(Without(old(byDistance), update.distanceFromStart, update.nodeHash), newDistance, update.nodeHash)
        && byHash == old(byHash)[update.nodeHash := update.(distanceFromStart := newDistance)]
    {
      var d := update.distanceFromStart;
      if d !in byDistance {
        return Err("KeyNotFoundException");
      }
      var list := byDistance[d];
      if |list| > 1 {
        if update.nodeHash !in list {
          return Err("InvalidOperationException");
        }
        byDistance := byDistance[d := list - {update.nodeHash}];
      } else {
        byDistance := byDistance - {d};
      }
      var updated := update.(distanceFromStart := newDistance);
      byHash := byHash[update.nodeHash := updated];
      AddByDistance(updated);
      return Ok(());
    }
  }

  /** BuildShortestPathContext: Dijkstra's search from the board of map
      over the boards the generated moves reach, keyed by their hashes.
      On success the final key names a finished burrow at the least cost
      of any route to one; the failure is the exception thrown when
      nothing is left to process, and then no route finishes the burrow. */
  method BuildShortestPathContext(source: Map) returns (r: Result<ShortestPathContext>)
    requires WellFormed(source.values, source.roomSize)
    ensures r.Ok? ==> Cheapest(r.value.byHash, r.value.finalHash, source.values, source.roomSize)
    ensures r.Ok? ==> Chained(r.value.byHash) && Linked(r.value.byHash, HashOf(source.values, source.roomSize))
    ensures r.Err? ==> r.msg == "Could not find valid node to process"
    ensures r.Err? ==> forall path, v :: Route(source.values, source.roomSize, path, v) ==> !Completed(v, source.roomSize)
  {
    var start, roomSize := source.values, source.roomSize;
    var context := new ShortestPathContext();
    var root := source.ComputeHash();
    var rootEntry := Entry(root, 0, None, start, true);
    context.byHash := context.byHash[root := rootEntry];
    context.AddByDistance(rootEntry);
    ghost var settled: set<string> := {};
    ghost var routes: map<string, seq<WeightedMove>> := map[root := []];
    SearchStart(start, roomSize, root);
    while true
      invariant fresh(context) && context.finalHash == None && root == HashOf(start, roomSize)
      invariant Searching(context.byDistance, context.byHash, settled, routes, start, roomSize, root, settled)
      decreases |Words(Alphabet(start), 11 + 4 * roomSize) - settled|
    {
      if context.byDistance == map[] {
        Exhausted(context.byDistance, context.byHash, settled, routes, start, roomSize, root);
        return Err("Could not find valid node to process");
      }
      var currentNode := PopNext(context, settled, routes, start, roomSize, root);
      if Completed(currentNode.board, roomSize) {
        context.finalHash := Some(currentNode.nodeHash);
        return Ok(context);
      }
      ghost var key := currentNode.nodeHash;
      RemoveOne(Words(Alphabet(start), 11 + 4 * roomSize), settled, key);
      var moves := FindValidMoves(currentNode.board, roomSize);
      RelaxStart(context.byDistance, context.byHash, settled, routes, start, roomSize, root, key, currentNode, moves);
      settled := settled + {key};
      for i := 0 to |moves|
        invariant context.finalHash == None
        invariant Relaxing(context.byDistance, context.byHash, settled, routes, start, roomSize, root, currentNode, moves, i)
      {
        routes := RelaxMove(context, currentNode, moves, i, settled, routes, start, roomSize, root);
      }
      RelaxEnd(context.byDistance, context.byHash, settled, routes, start, roomSize, root, currentNode, moves);
    }
  }

  /** The start of a turn of the search loop: the entry PopFirst gives is
      marked complete. It is the cheapest way to a finished burrow when
      its board is finished; otherwise it joins the processed entries. */
  method PopNext(context: ShortestPathContext, ghost settled: set<string>, ghost routes: map<string, seq<WeightedMove>>,
                 ghost start: Board, roomSize: nat, ghost root: string)
    returns (currentNode: Entry)
    requires Searching(context.byDistance, context.byHash, settled, routes, start, roomSize, root, settled)
    requires context.byDistance != map[]
    modifies context
    ensures context.finalHash == old(context.finalHash)
    ensures currentNode.nodeHash !in settled && currentNode.nodeHash in Words(Alphabet(start), 11 + 4 * roomSize)
    ensures Completed(currentNode.board, roomSize) ==>
      Cheapest(context.byHash, Some(currentNode.nodeHash), start, roomSize) && Chained(context.byHash) && Linked(context.byHash, root)
    ensures !Completed(currentNode.board, roomSize) ==>
      && Searching(context.byDistance, context.byHash, settled + {currentNode.nodeHash}, routes, start, roomSize, root, settled)
      && currentNode.nodeHash in context.byHash && context.byHash[currentNode.nodeHash] == currentNode
  {
    ghost var buckets, entries := context.byDistance, context.byHash;
    var popped := context.PopFirst();
    var key := popped.value;
    PopStep(buckets, entries, settled, routes, start, roomSize, root, key);
    KeysBounded(entries, routes, start, roomSize);
    currentNode := context.byHash[key].(isComplete := true);
    context.byHash := context.byHash[key := currentNode];
    if Completed(currentNode.board, roomSize) {
      Found(buckets, entries, settled, routes, start, roomSize, root, key);
    }
  }

  /** One turn of the loop over the moves of the processed entry cur: a
      board seen for the first time gets an entry through cur; a waiting
      entry reached more cheaply through cur moves to the new distance
      with cur as its predecessor; otherwise nothing changes. */
  method RelaxMove(context: ShortestPathContext, cur: Entry, moves: seq<WeightedMove>, i: int,
                   ghost settled: set<string>, ghost routes: map<string, seq<WeightedMove>>,
                   ghost start: Board, roomSize: nat, ghost root: string)
    returns (ghost routes': map<string, seq<WeightedMove>>)
    requires Relaxing(context.byDistance, context.byHash, settled, routes, start, roomSize, root, cur, moves, i) && i < |moves|
    modifies context
    ensures context.finalHash == old(context.finalHash)
    ensures Relaxing(context.byDistance, context.byHash, settled, routes', start, roomSize, root, cur, moves, i + 1)
  {
    var move := moves[i];
    var movedHash := Target(cur, move, roomSize);
    if movedHash !in context.byHash {
      routes' := AddEntry(context, cur, moves, i, settled, routes, start, roomSize, root);
    } else {
      var newMapNode := context.byHash[movedHash];
      if !newMapNode.isComplete {
        var currentDistance := cur.distanceFromStart + move.cost;
        if newMapNode.distanceFromStart > currentDistance {
          routes' := ImproveEntry(context, cur, moves, i, settled, routes, start, roomSize, root);
        } else {
          SkipStep(context.byDistance, context.byHash, settled, routes, start, roomSize, root, cur, moves, i);
          routes' := routes;
        }
      } else {
        SkipStep(context.byDistance, context.byHash, settled, routes, start, roomSize, root, cur, moves, i);
        routes' := routes;
      }
    }
  }

  /** The branch of a board seen for the first time: its entry, through
      cur, joins both tables. */
  method AddEntry(context: ShortestPathContext, cur: Entry, moves: seq<WeightedMove>, i: int,
                   ghost settled: set<string>, ghost routes: map<string, seq<WeightedMove>>,
                   ghost start: Board, roomSize: nat, ghost root: string)
    returns (ghost routes': map<string, seq<WeightedMove>>)
    requires Relaxing(context.byDistance, context.byHash, settled, routes, start, roomSize, root, cur, moves, i) && i < |moves|
    requires Target(cur, moves[i], roomSize) !in context.byHash
    modifies context
    ensures context.finalHash == old(context.finalHash)
    ensures Relaxing(context.byDistance, context.byHash, settled, routes', start, roomSize, root, cur, moves, i + 1)
  {
    var buckets, entries := context.byDistance, context.byHash;
    var move := moves[i];
    var movedHash := Target(cur, move, roomSize);
    ghost var buckets', entries', r' := AddStep(buckets, entries, settled, routes, start, roomSize, root, cur, moves, i);
    var newEntry := Discovered(cur, move, roomSize);
    context.byHash := entries[movedHash := newEntry];
    context.AddByDistance(newEntry);
    assert context.byDistance == buckets' && context.byHash == entries';
    routes' := r';
  }

  /** The branch of a waiting entry reached more cheaply through cur: cur
      becomes its predecessor and UpdateByDistance moves it to the new
      distance. */
  method ImproveEntry(context: ShortestPathContext, cur: Entry, moves: seq<WeightedMove>, i: int,
                   ghost settled: set<string>, ghost routes: map<string, seq<WeightedMove>>,
                   ghost start: Board, roomSize: nat, ghost root: string)
    returns (ghost routes': map<string, seq<WeightedMove>>)
    requires Relaxing(context.byDistance, context.byHash, settled, routes, start, roomSize, root, cur, moves, i) && i < |moves|
    requires Target(cur, moves[i], roomSize) in context.byHash
    requires !context.byHash[Target(cur, moves[i], roomSize)].isComplete
    requires context.byHash[Target(cur, moves[i], roomSize)].distanceFromStart > cur.distanceFromStart + moves[i].cost
    modifies context
    ensures context.finalHash == old(context.finalHash)
    ensures Relaxing(context.byDistance, context.byHash, settled, routes', start, roomSize, root, cur, moves, i + 1)
  {
    var buckets, entries := context.byDistance, context.byHash;
    var move := moves[i];
    var movedHash := Target(cur, move, roomSize);
    var newMapNode := entries[movedHash];
    var currentDistance := cur.distanceFromStart + move.cost;
    ghost var buckets', entries', r' := UpdateStep(buckets, entries, settled, routes, start, roomSize, root, cur, moves, i);
    var linked := newMapNode.(from := Some(cur.nodeHash));
    context.byHash := entries[movedHash := linked];
    var updated := context.UpdateByDistance(currentDistance, linked);
    assert updated.Ok?;
    Overwrite(entries, movedHash, linked, linked.(distanceFromStart := currentDistance));
    assert context.byDistance == buckets' && context.byHash == entries';
    routes' := r';
  }

  /** Writing a key twice keeps the second value. */
  lemma Overwrite(entries: Entries, k: string, first: Entry, second: Entry)
    ensures entries[k := first][k := second] == entries[k := second]
  {
  }

  // ---------------------------------------------------------------------
  // Walking back from the final key

  /** How far the predecessor walk from h can still go. */
  function Rank(entries: Entries, h: string): nat
  {
    if h in entries && entries[h].distanceFromStart >= 0 then entries[h].distanceFromStart + 1 else 0
  }

  /** The keys s followed by what r yields; an error stays an error. */
  function Joined(s: seq<string>, r: Result<seq<string>>): Result<seq<string>>
  {
    if r.Err? then r else Ok(s + r.value)
  }

  /** What GetMoveSet collects from key h: the key of each entry met
      following the predecessor keys, up to the entry with none; the
      exception of a key with no entry as Err. */
  function ChainFrom(entries: Entries, h: string): (r: Result<seq<string>>)
    requires Chained(entries)
    ensures r.Ok? ==> h in entries && |r.value| >= 1 && r.value[0] == entries[h].nodeHash
    ensures r.Err? ==> r.msg == "KeyNotFoundException"
    decreases Rank(entries, h)
  {
    if h !in entries then Err("KeyNotFoundException")
    else
      assert ChainLink(entries, h);
      match entries[h].from
      case None => Ok([entries[h].nodeHash])
      case Some(f) => Joined([entries[h].nodeHash], ChainFrom(entries, f))
  }

  /** GetMoveSet: the keys from the final one back along the predecessor
      keys; nothing when no final key was found. */
  method GetMoveSet(context: ShortestPathContext) returns (r: Result<seq<string>>)
    requires Chained(context.byHash)
    ensures context.finalHash.None? ==> r == Ok([])
    ensures context.finalHash.Some? ==> r == ChainFrom(context.byHash, context.finalHash.value)
  {
    var entries := context.byHash;
    var moveSet: seq<string> := [];
    var currentHash := context.finalHash;
    if currentHash.Some? {
      var first := ChainFrom(entries, currentHash.value);
      assert first.Ok? ==> [] + first.value == first.value;
    }
    while currentHash.Some?
      invariant context.finalHash.None? ==> currentHash.None? && moveSet == []
      invariant context.finalHash.Some? && currentHash.Some? ==>
        ChainFrom(entries, context.finalHash.value) == Joined(moveSet, ChainFrom(entries, currentHash.value))
      invariant context.finalHash.Some? && currentHash.None? ==> ChainFrom(entries, context.finalHash.value) == Ok(moveSet)
      decreases if currentHash.Some? then Rank(entries, currentHash.value) else 0
    {
      var h := currentHash.value;
      if h !in entries {
        return Err("KeyNotFoundException");
      }
      assert ChainLink(entries, h);
      var entry := entries[h];
      if entry.from.Some? {
        JoinedStep(moveSet, entry.nodeHash, ChainFrom(entries, entry.from.value));
      }
      moveSet := moveSet + [entry.nodeHash];
      currentHash := entry.from;
    }
    return Ok(moveSet);
  }

  lemma JoinedStep(s: seq<string>, x: string, r: Result<seq<string>>)
    ensures Joined(s, Joined([x], r)) == Joined(s + [x], r)
  {
    if r.Ok? {
      assert s + ([x] + r.value) == (s + [x]) + r.value;
    }
  }

  /** From any entry of a search the walk succeeds: it starts at the key,
      each key is followed by its entry's predecessor, and it ends at the
      start key. */
  lemma {:induction false} ChainToRoot(entries: Entries, root: string, h: string)
    requires Chained(entries) && Linked(entries, root) && h in entries
    ensures ChainFrom(entries, h).Ok?
    ensures ChainFrom(entries, h).value[0] == h
    ensures ChainFrom(entries, h).value[|ChainFrom(entries, h).value| - 1] == root
    ensures forall k :: 0 <= k < |ChainFrom(entries, h).value| - 1 ==>
      ChainFrom(entries, h).value[k] in entries && entries[ChainFrom(entries, h).value[k]].from == Some(ChainFrom(entries, h).value[k + 1])
    decreases Rank(entries, h)
  {
    assert ChainLink(entries, h) && LinkedAt(entries, root, h);
    match entries[h].from
    case None =>
    case Some(f) =>
      assert ChainLink(entries, f);
      ChainToRoot(entries, root, f);
      var rest := ChainFrom(entries, f).value;
      assert ChainFrom(entries, h).value == [h] + rest;
  }
}
