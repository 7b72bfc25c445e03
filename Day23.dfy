/** Amphipod: the burrow (a hallway of eleven cells and four side rooms of
    equal depth), the read-only scans the move rules are built from, the
    board key used to deduplicate states, and the move generator. */
module Day23 {
  import opened Common

  datatype Point = Point(x: int, y: int)

  const HallwayRow: int := 1

  /** What each cell of the burrow holds: '.' or an amphipod letter. The
      walls and blanks of the diagram are not part of the model. */
  type Board = map<Point, char>

  /** The value of cell p; a point outside the board reads as wall. */
  function At(b: Board, p: Point): char
  {
    if p in b then b[p] else '#'
  }

  /** SnailMarkers */
  predicate IsSnail(c: char) { c == 'A' || c == 'B' || c == 'C' || c == 'D' }

  /** The room columns, the values of SnailHomesLetterToColumn. */
  predicate IsHomeColumn(x: int) { x == 3 || x == 5 || x == 7 || x == 9 }

  /** SnailHomesLetterToColumn */
  function HomeColumn(c: char): (x: int)
    requires IsSnail(c)
    ensures IsHomeColumn(x) && HomeLetter(x) == c
  {
    match c
    case 'A' => 3
    case 'B' => 5
    case 'C' => 7
    case 'D' => 9
  }

  /** SnailHomesColumnToLetter */
  function HomeLetter(x: int): (c: char)
    requires IsHomeColumn(x)
    ensures IsSnail(c)
  {
    if x == 3 then 'A' else if x == 5 then 'B' else if x == 7 then 'C' else 'D'
  }

  /** SnailWeights: the energy one step costs. */
  function Weight(c: char): (w: int)
    requires IsSnail(c)
    ensures w >= 1
  {
    match c
    case 'A' => 1
    case 'B' => 10
    case 'C' => 100
    case 'D' => 1000
  }

  /** SnailHallwaySpots: the hallway cells an amphipod may stop on (not the
      ones right above a room). */
  predicate IsHallwayStop(x: int) { x == 1 || x == 2 || x == 4 || x == 6 || x == 8 || x == 10 || x == 11 }

  predicate IsRoomCell(p: Point, roomSize: nat)
  {
    IsHomeColumn(p.x) && HallwayRow < p.y <= HallwayRow + roomSize
  }

  predicate IsCell(p: Point, roomSize: nat)
  {
    (p.y == HallwayRow && 1 <= p.x <= 11) || IsRoomCell(p, roomSize)
  }

  /** A board of the burrow ReadAndParse builds: every hallway and room
      cell, and nothing else, has an entry. */
  ghost predicate WellFormed(b: Board, roomSize: nat)
  {
    roomSize >= 1 && b.Keys == CellSet(roomSize)
  }

  /** The cells of the burrow. */
  ghost function CellSet(roomSize: nat): set<Point>
  {
    set i | 0 <= i < |Cells(roomSize)| :: Cells(roomSize)[i]
  }

  /** The entries of a board of the burrow are its cells. */
  lemma WellFormedCells(b: Board, roomSize: nat)
    requires WellFormed(b, roomSize)
    ensures forall p :: p in b <==> IsCell(p, roomSize)
  {
    CellsExact(roomSize);
    forall p | IsCell(p, roomSize) ensures p in CellSet(roomSize) {
      var i :| 0 <= i < |Cells(roomSize)| && Cells(roomSize)[i] == p;
    }
  }

  // ---------------------------------------------------------------------
  // The board key

  /** The cells in the order Hash reads them: the hallway left to right,
      then the rooms row by row, each row in column order 3, 5, 7, 9. */
  function Cells(roomSize: nat): seq<Point>
  {
    seq(11, i => Point(i + 1, HallwayRow)) +
    seq(4 * roomSize, i => Point(3 + 2 * (i % 4), HallwayRow + 1 + i / 4))
  }

  /** Cells lists exactly the cells of the burrow, each once. */
  lemma CellsExact(roomSize: nat)
    ensures forall i :: 0 <= i < |Cells(roomSize)| ==> IsCell(Cells(roomSize)[i], roomSize)
    ensures forall p :: IsCell(p, roomSize) ==> p in Cells(roomSize)
    ensures forall i, j :: 0 <= i < j < |Cells(roomSize)| ==> Cells(roomSize)[i] != Cells(roomSize)[j]
  {
    CellsValid(roomSize);
    var cells := Cells(roomSize);
    forall p | IsCell(p, roomSize) ensures p in cells {
      if p.y == HallwayRow {
        assert cells[p.x - 1] == p;
      } else {
        var i := 4 * (p.y - HallwayRow - 1) + (p.x - 3) / 2;
        assert i % 4 == (p.x - 3) / 2 && i / 4 == p.y - HallwayRow - 1;
        assert cells[11 + i] == p;
      }
    }
    forall i, j | 0 <= i < j < |cells| ensures cells[i] != cells[j] {
      if 11 <= i {
        var a, b := i - 11, j - 11;
        assert a == 4 * (a / 4) + a % 4 && b == 4 * (b / 4) + b % 4;
      }
    }
  }

  /** Every listed cell is a cell of the burrow. */
  lemma CellsValid(roomSize: nat)
    ensures forall i :: 0 <= i < |Cells(roomSize)| ==> IsCell(Cells(roomSize)[i], roomSize)
  {
  }

  /** Map.Hash: the values of the hallway cells x = 1..11, then of the room
      cells row by row in column order 3, 5, 7, 9. */
  function HashOf(b: Board, roomSize: nat): (h: string)
    ensures |h| == 11 + 4 * roomSize
  {
    ReadCells(b, Cells(roomSize))
  }

  /** The values of cells, in order, as the string builder of Hash
      collects them. */
  function ReadCells(b: Board, cells: seq<Point>): (s: string)
    ensures |s| == |cells|
  {
    if cells == [] then [] else ReadCells(b, cells[..|cells| - 1]) + [At(b, cells[|cells| - 1])]
  }

  /** Reading one more cell appends its value. */
  lemma ReadCellsStep(b: Board, cells: seq<Point>, n: nat)
    requires n < |cells|
    ensures ReadCells(b, cells[..n + 1]) == ReadCells(b, cells[..n]) + [At(b, cells[n])]
  {
    assert cells[..n + 1][..n] == cells[..n];
  }

  /** Cell x - 1 of the key order is hallway cell x. */
  lemma HallCellAt(roomSize: nat, x: int)
    requires 1 <= x <= 11
    ensures Cells(roomSize)[x - 1] == Point(x, HallwayRow)
  {
  }

  /** Cell 11 + 4 * (y - 2) + k of the key order is row y of column
      3 + 2 * k. */
  lemma RoomCellAt(roomSize: nat, y: int, k: int)
    requires 2 <= y < 2 + roomSize && 0 <= k < 4
    ensures Cells(roomSize)[11 + 4 * (y - 2) + k] == Point(3 + 2 * k, y)
  {
    var i := 4 * (y - 2) + k;
    assert i % 4 == k && i / 4 == y - 2;
  }

  /** The first n characters of the key. */
  function KeyPrefix(b: Board, roomSize: nat, n: nat): string
    requires n <= 11 + 4 * roomSize
  {
    ReadCells(b, Cells(roomSize)[..n])
  }

  lemma KeyPrefixWhole(b: Board, roomSize: nat)
    ensures KeyPrefix(b, roomSize, 11 + 4 * roomSize) == HashOf(b, roomSize)
  {
    assert Cells(roomSize)[..11 + 4 * roomSize] == Cells(roomSize);
  }

  /** The first loop of the getter of Hash: the hallway, left to right. */
  method ReadHallway(b: Board, roomSize: nat) returns (h: string)
    ensures h == KeyPrefix(b, roomSize, 11)
  {
    h := [];
    for x := 1 to 12
      invariant h == KeyPrefix(b, roomSize, x - 1)
    {
      HallRead(b, roomSize, x);
      h := h + [At(b, Point(x, HallwayRow))];
    }
  }

  /** The inner loop of the getter of Hash: row y of the four rooms. */
  method AppendRoomRow(b: Board, roomSize: nat, y: int, h0: string) returns (h: string)
    requires 2 <= y < 2 + roomSize && h0 == KeyPrefix(b, roomSize, 11 + 4 * (y - 2))
    ensures h == KeyPrefix(b, roomSize, 11 + 4 * (y - 1))
  {
    h := h0;
    for k := 0 to 4
      invariant h == KeyPrefix(b, roomSize, 11 + 4 * (y - 2) + k)
    {
      RoomRead(b, roomSize, y, k);
      h := h + [At(b, Point(3 + 2 * k, y))];
    }
  }

  /** Reading hallway cell x extends the key read so far. */
  lemma HallRead(b: Board, roomSize: nat, x: int)
    requires 1 <= x <= 11
    ensures KeyPrefix(b, roomSize, x) == KeyPrefix(b, roomSize, x - 1) + [At(b, Point(x, HallwayRow))]
  {
    ReadCellsStep(b, Cells(roomSize), x - 1);
    HallCellAt(roomSize, x);
  }

  /** Reading column k of room row y extends the key read so far. */
  lemma RoomRead(b: Board, roomSize: nat, y: int, k: int)
    requires 2 <= y < 2 + roomSize && 0 <= k < 4
    ensures KeyPrefix(b, roomSize, 11 + 4 * (y - 2) + k + 1)
         == KeyPrefix(b, roomSize, 11 + 4 * (y - 2) + k) + [At(b, Point(3 + 2 * k, y))]
  {
    ReadCellsStep(b, Cells(roomSize), 11 + 4 * (y - 2) + k);
    RoomCellAt(roomSize, y, k);
  }

  /** Character i of the key is the value of cell i. */
  lemma {:induction false} ReadCellsIndex(b: Board, cells: seq<Point>)
    ensures forall i :: 0 <= i < |cells| ==> ReadCells(b, cells)[i] == At(b, cells[i])
  {
    if cells != [] {
      ReadCellsIndex(b, cells[..|cells| - 1]);
    }
  }

  /** Two boards of the burrow have the same key exactly when they hold the
      same thing in every cell: the key is collision-free. */
  lemma HashInjective(b1: Board, b2: Board, roomSize: nat)
    requires WellFormed(b1, roomSize) && WellFormed(b2, roomSize)
    ensures HashOf(b1, roomSize) == HashOf(b2, roomSize) <==> b1 == b2
  {
    if HashOf(b1, roomSize) == HashOf(b2, roomSize) {
      var cells := Cells(roomSize);
      forall p | p in b1 ensures b1[p] == b2[p] {
        assert p in CellSet(roomSize);
        var i :| 0 <= i < |cells| && cells[i] == p;
        SameCell(b1, b2, cells, i);
      }
      assert b1.Keys == b2.Keys;
    }
  }

  /** Equal keys hold the same value at each listed cell. */
  lemma SameCell(b1: Board, b2: Board, cells: seq<Point>, i: int)
    requires ReadCells(b1, cells) == ReadCells(b2, cells) && 0 <= i < |cells|
    ensures At(b1, cells[i]) == At(b2, cells[i])
  {
    ReadCellsIndex(b1, cells);
    ReadCellsIndex(b2, cells);
    assert ReadCells(b1, cells)[i] == ReadCells(b2, cells)[i];
  }

  /** Map.IsComplete: every room cell holds its column's letter. */
  predicate Completed(b: Board, roomSize: nat)
  {
    forall x, y | x in {3, 5, 7, 9} && HallwayRow < y <= HallwayRow + roomSize :: At(b, Point(x, y)) == HomeLetter(x)
  }

  // ---------------------------------------------------------------------
  // Moves on a board

  datatype Move = Move(from: Point, to: Point)

  /** Map.MakeMove on the cell values: the destination takes what the
      source held, and the source becomes empty. */
  function AfterMove(b: Board, move: Move): Board
  {
    b[move.to := At(b, move.from)][move.from := '.']
  }

  /** Map.UndoMove on the cell values. */
  function AfterUndo(b: Board, move: Move): Board
    requires move.to in b
  {
    b[move.from := b[move.to]][move.to := '.']
  }

  /** Undoing a move into an empty cell restores the board. */
  lemma UndoRestores(b: Board, move: Move)
    requires move.from in b && move.to in b && b[move.to] == '.'
    ensures AfterUndo(AfterMove(b, move), move) == b
  {
    if move.from == move.to {
      assert AfterUndo(AfterMove(b, move), move) == b[move.from := '.'];
    }
  }

  /** A move into an empty cell changes only its two cells. */
  lemma MovedCells(b: Board, move: Move)
    requires move.from in b && move.to in b && b[move.to] == '.'
    ensures AfterMove(b, move).Keys == b.Keys
    ensures forall p :: p in b && p != move.from && p != move.to ==> AfterMove(b, move)[p] == b[p]
    ensures move.from != move.to ==> AfterMove(b, move)[move.to] == b[move.from] && AfterMove(b, move)[move.from] == '.'
  {
  }

  /** The number of cells holding c. */
  function Count(b: Board, c: char): nat
  {
    |set p | p in b && b[p] == c|
  }

  /** A move into an empty cell keeps the number of cells holding each
      value, and so the number of each kind of amphipod. */
  lemma MovedConserves(b: Board, move: Move, c: char)
    requires move.from in b && move.to in b && b[move.to] == '.'
    ensures Count(AfterMove(b, move), c) == Count(b, c)
  {
    if move.from == move.to {
      assert AfterMove(b, move) == b;
    } else if c == b[move.from] && c != '.' {
      CountTrade(b, AfterMove(b, move), c, move.from, move.to);
    } else if c == '.' && b[move.from] != '.' {
      CountTrade(b, AfterMove(b, move), c, move.to, move.from);
    } else {
      assert (set p | p in AfterMove(b, move) && AfterMove(b, move)[p] == c) == (set p | p in b && b[p] == c);
    }
  }

  /** Two boards on the same cells that differ only in that c moved from
      cell gone to cell come hold c equally often. */
  lemma CountTrade(b: Board, r: Board, c: char, gone: Point, come: Point)
    requires r.Keys == b.Keys && gone in b && come in b && gone != come
    requires b[gone] == c && b[come] != c && r[gone] != c && r[come] == c
    requires forall p :: p in b && p != gone && p != come ==> r[p] == b[p]
    ensures Count(r, c) == Count(b, c)
  {
    var before := set p | p in b && b[p] == c;
    var after := set p | p in r && r[p] == c;
    assert after == (before - {gone}) + {come};
  }

  /** Moves keep a board of the burrow a board of the burrow. */
  lemma MovedWellFormed(b: Board, roomSize: nat, move: Move)
    requires WellFormed(b, roomSize) && move.from in b && move.to in b
    ensures WellFormed(AfterMove(b, move), roomSize)
  {
    assert AfterMove(b, move).Keys == b.Keys;
  }

  /** The Map class: the cell values, updated in place by MakeMove and
      UndoMove, and the depth of the rooms. */
  class Map {
    var values: Board
    const roomSize: nat

    /** The board ReadAndParse fills in. */
    constructor (roomSize: nat, values: Board)
      ensures this.roomSize == roomSize && this.values == values
    {
      this.roomSize := roomSize;
      this.values := values;
    }

    /** Map(map, move): a copy of map with the move made on the copy; map
        itself keeps its values. */
    constructor Moved(source: Map, move: Move)
      requires move.from in source.values
      ensures roomSize == source.roomSize && source.values == old(source.values)
      ensures values == AfterMove(source.values, move)
    {
      roomSize := source.roomSize;
      values := source.values;
      new;
      MakeMove(move);
    }

    method MakeMove(move: Move)
      requires move.from in values
      modifies this
      ensures values == AfterMove(old(values), move)
    {
      values := values[move.to := values[move.from]];
      values := values[move.from := '.'];
    }

    method UndoMove(move: Move)
      requires move.to in values
      modifies this
      ensures values == AfterUndo(old(values), move)
    {
      values := values[move.from := values[move.to]];
      values := values[move.to := '.'];
    }

    function Hash(): (h: string)
      reads this
      ensures |h| == 11 + 4 * roomSize
    {
      HashOf(values, roomSize)
    }

    /** The getter of Hash: the hallway cells x = 1..11, then each room
        row y = 2..1 + RoomSize in the column order 3, 5, 7, 9 of the
        column-to-letter table, appended one value at a time. */
    method ComputeHash() returns (h: string)
      ensures h == Hash()
    {
      var b, rs := values, roomSize;
      h := ReadHallway(b, rs);
      for y := 2 to 2 + rs
        invariant h == KeyPrefix(b, rs, 11 + 4 * (y - 2))
      {
        h := AppendRoomRow(b, rs, y, h);
      }
      KeyPrefixWhole(b, rs);
    }

    predicate IsComplete()
      reads this
    {
      Completed(values, roomSize)
    }
  }

  // ---------------------------------------------------------------------
  // Column scans

  /** A letter that does not belong in column x. */
  predicate Foreign(b: Board, roomSize: nat, x: int, y: int)
    requires IsHomeColumn(x) && HallwayRow < y <= HallwayRow + roomSize
  {
    At(b, Point(x, y)) != '.' && At(b, Point(x, y)) != HomeLetter(x)
  }

  /** No empty cell in column x from row lo to row hi. */
  predicate FullBetween(b: Board, roomSize: nat, x: int, lo: int, hi: int)
    requires IsHomeColumn(x) && HallwayRow < lo && hi <= HallwayRow + roomSize
  {
    forall k :: lo <= k <= hi ==> At(b, Point(x, k)) != '.'
  }

  /** The loop of HomeIsComplete from row y up: an empty cell ends it with
      true, a letter of another column with false. It is false exactly
      when a foreign letter sits with no empty cell between it and row y. */
  function HomeCompleteFrom(b: Board, roomSize: nat, x: int, y: int): (r: bool)
    requires IsHomeColumn(x) && y <= HallwayRow + roomSize
    ensures !r <==> exists k :: HallwayRow < k <= y && Foreign(b, roomSize, x, k) && FullBetween(b, roomSize, x, k, y)
    decreases y
  {
    if y <= HallwayRow then true
    else if At(b, Point(x, y)) == '.' then
      assert forall k :: HallwayRow < k <= y ==> !FullBetween(b, roomSize, x, k, y);
      true
    else if At(b, Point(x, y)) != HomeLetter(x) then
      assert Foreign(b, roomSize, x, y) && FullBetween(b, roomSize, x, y, y);
      false
    else
      var r := HomeCompleteFrom(b, roomSize, x, y - 1);
      assert !r ==> exists k :: HallwayRow < k <= y && Foreign(b, roomSize, x, k) && FullBetween(b, roomSize, x, k, y) by {
        if !r {
          var k :| HallwayRow < k <= y - 1 && Foreign(b, roomSize, x, k) && FullBetween(b, roomSize, x, k, y - 1);
          assert FullBetween(b, roomSize, x, k, y);
        }
      }
      assert (exists k :: HallwayRow < k <= y && Foreign(b, roomSize, x, k) && FullBetween(b, roomSize, x, k, y)) ==> !r by {
        if exists k :: HallwayRow < k <= y && Foreign(b, roomSize, x, k) && FullBetween(b, roomSize, x, k, y) {
          var k :| HallwayRow < k <= y && Foreign(b, roomSize, x, k) && FullBetween(b, roomSize, x, k, y);
          assert k < y;
          assert FullBetween(b, roomSize, x, k, y - 1);
        }
      }
      r
  }

  /** HomeIsComplete: the room of column x may be entered, because no
      letter of another column sits below its lowest empty cell. */
  function HomeIsComplete(b: Board, roomSize: nat, x: int): bool
    requires IsHomeColumn(x)
  {
    HomeCompleteFrom(b, roomSize, x, HallwayRow + roomSize)
  }

  /** The loop of HomeTop from row y down into the room. */
  function HomeTopFrom(b: Board, roomSize: nat, x: int, y: int): (r: Option<Point>)
    requires IsHomeColumn(x) && HallwayRow < y
    ensures r.Some? ==> r.value.x == x && y <= r.value.y <= HallwayRow + roomSize && At(b, r.value) != '.'
    ensures r.Some? ==> forall k :: y <= k < r.value.y ==> At(b, Point(x, k)) == '.'
    ensures r.None? ==> forall k :: y <= k <= HallwayRow + roomSize ==> At(b, Point(x, k)) == '.'
    decreases HallwayRow + roomSize - y
  {
    if y > HallwayRow + roomSize then None
    else if At(b, Point(x, y)) != '.' then Some(Point(x, y))
    else HomeTopFrom(b, roomSize, x, y + 1)
  }

  /** HomeTop: the occupied cell of room x nearest the hallway; None where
      the C# code throws because the room is empty. */
  function HomeTop(b: Board, roomSize: nat, x: int): Option<Point>
    requires IsHomeColumn(x)
  {
    HomeTopFrom(b, roomSize, x, HallwayRow + 1)
  }

  /** Row y of column x is free and every cell below it, down to row
      bottom, holds the column's own letter. */
  predicate SlotUpTo(b: Board, roomSize: nat, x: int, y: int, bottom: int)
    requires IsHomeColumn(x) && bottom <= HallwayRow + roomSize
  {
    HallwayRow < y <= bottom && At(b, Point(x, y)) == '.' && forall k :: y < k <= bottom ==> At(b, Point(x, k)) == HomeLetter(x)
  }

  /** The cell an amphipod entering room x is sent to. */
  predicate Slot(b: Board, roomSize: nat, x: int, y: int)
    requires IsHomeColumn(x)
  {
    SlotUpTo(b, roomSize, x, y, HallwayRow + roomSize)
  }

  /** The loop of ColumnSnailPosition from row y up. */
  function SlotFrom(b: Board, roomSize: nat, x: int, y: int): (r: Option<Point>)
    requires IsHomeColumn(x) && y <= HallwayRow + roomSize
    ensures r.Some? ==> r.value.x == x && SlotUpTo(b, roomSize, x, r.value.y, y)
    ensures r.None? ==> forall k :: !SlotUpTo(b, roomSize, x, k, y)
    decreases y
  {
    if y <= HallwayRow then None
    else if At(b, Point(x, y)) == '.' then Some(Point(x, y))
    else if At(b, Point(x, y)) != HomeLetter(x) then
      assert forall k :: !SlotUpTo(b, roomSize, x, k, y) by {
        forall k | HallwayRow < k <= y && At(b, Point(x, k)) == '.'
          ensures !forall j :: k < j <= y ==> At(b, Point(x, j)) == HomeLetter(x)
        {
          assert k < y;
        }
      }
      None
    else
      var r := SlotFrom(b, roomSize, x, y - 1);
      assert forall k :: SlotUpTo(b, roomSize, x, k, y) ==> SlotUpTo(b, roomSize, x, k, y - 1);
      r
  }

  /** ColumnSnailPosition: the deepest cell of room x that an amphipod may
      enter, provided the room's top cell is free and only the room's own
      letter lies below that cell. */
  function ColumnSnailPosition(b: Board, roomSize: nat, x: int): (r: Option<Point>)
    requires IsHomeColumn(x)
    ensures r.Some? ==> At(b, Point(x, HallwayRow + 1)) == '.' && r.value.x == x && Slot(b, roomSize, x, r.value.y)
    ensures r.None? ==> At(b, Point(x, HallwayRow + 1)) != '.' || forall y :: !Slot(b, roomSize, x, y)
  {
    if At(b, Point(x, HallwayRow + 1)) != '.' then None
    else SlotFrom(b, roomSize, x, HallwayRow + roomSize)
  }

  /** There is at most one such cell. */
  lemma SlotUnique(b: Board, roomSize: nat, x: int, y1: int, y2: int)
    requires IsHomeColumn(x)
    requires Slot(b, roomSize, x, y1) && Slot(b, roomSize, x, y2)
    ensures y1 == y2
  {
  }

  // ---------------------------------------------------------------------
  // Hallway scans

  predicate IsHallwayX(x: int) { 1 <= x <= 11 }

  /** The loop of DistanceToColumn: every hallway cell from lo up to, but
      not including, hi is empty. */
  function ClearFrom(b: Board, lo: int, hi: int): (r: bool)
    requires 1 <= lo && hi <= 12
    ensures r <==> forall x :: lo <= x < hi ==> At(b, Point(x, HallwayRow)) == '.'
    decreases hi - lo
  {
    if lo >= hi then true
    else At(b, Point(lo, HallwayRow)) == '.' && ClearFrom(b, lo + 1, hi)
  }

  /** DistanceToColumn: the horizontal distance from p to column targetX
      when every hallway cell strictly between is empty, and -1 otherwise. */
  function DistanceToColumn(b: Board, p: Point, targetX: int): (r: int)
    requires IsHallwayX(p.x) && IsHallwayX(targetX)
    ensures r == -1 || r == Abs(p.x - targetX)
    ensures r != -1 <==> forall x :: (p.x < x < targetX || targetX < x < p.x) ==> At(b, Point(x, HallwayRow)) == '.'
  {
    var min := if p.x < targetX then p.x else targetX;
    var max := if p.x < targetX then targetX else p.x;
    if ClearFrom(b, min + 1, max) then max - min else -1
  }

  /** The first loop of ReachableHallwayPoints: the stopping cells from x
      leftwards, up to the first occupied one. */
  function ScanLeft(b: Board, x: int): (r: seq<int>)
    requires x <= 11
    ensures forall i :: 0 <= i < |r| ==> 1 <= r[i] <= x
    ensures forall i :: 0 < i < |r| ==> r[i] < r[i - 1]
    decreases x
  {
    if x < 1 then []
    else if !IsHallwayStop(x) then ScanLeft(b, x - 1)
    else if At(b, Point(x, HallwayRow)) != '.' then []
    else [x] + ScanLeft(b, x - 1)
  }

  /** The second loop: the stopping cells from x rightwards. */
  function ScanRight(b: Board, x: int): (r: seq<int>)
    requires 1 <= x
    ensures forall i :: 0 <= i < |r| ==> x <= r[i] <= 11
    ensures forall i :: 0 < i < |r| ==> r[i - 1] < r[i]
    decreases 12 - x
  {
    if x > 11 then []
    else if !IsHallwayStop(x) then ScanRight(b, x + 1)
    else if At(b, Point(x, HallwayRow)) != '.' then []
    else [x] + ScanRight(b, x + 1)
  }

  /** h is a stopping cell at or left of x, and no stopping cell from h to
      x is occupied. */
  predicate LeftStop(b: Board, h: int, x: int)
  {
    1 <= h <= x && IsHallwayStop(h) && forall s :: h <= s <= x && IsHallwayStop(s) ==> At(b, Point(s, HallwayRow)) == '.'
  }

  /** h is a stopping cell at or right of x, and no stopping cell from x
      to h is occupied. */
  predicate RightStop(b: Board, x: int, h: int)
  {
    x <= h <= 11 && IsHallwayStop(h) && forall s :: x <= s <= h && IsHallwayStop(s) ==> At(b, Point(s, HallwayRow)) == '.'
  }

  /** ScanLeft finds exactly the stopping cells reachable leftwards. */
  lemma {:induction false} ScanLeftMembers(b: Board, x: int)
    requires x <= 11
    ensures forall h :: h in ScanLeft(b, x) <==> LeftStop(b, h, x)
    decreases x
  {
    if x < 1 {
    } else if !IsHallwayStop(x) {
      ScanLeftMembers(b, x - 1);
      assert forall h :: LeftStop(b, h, x) <==> LeftStop(b, h, x - 1);
    } else if At(b, Point(x, HallwayRow)) != '.' {
      forall h ensures !LeftStop(b, h, x) {
        if 1 <= h <= x && IsHallwayStop(h) {
          assert h <= x <= x && IsHallwayStop(x);
        }
      }
    } else {
      ScanLeftMembers(b, x - 1);
      assert forall h :: h < x ==> (LeftStop(b, h, x) <==> LeftStop(b, h, x - 1));
    }
  }

  /** ScanRight finds exactly the stopping cells reachable rightwards. */
  lemma {:induction false} ScanRightMembers(b: Board, x: int)
    requires 1 <= x
    ensures forall h :: h in ScanRight(b, x) <==> RightStop(b, x, h)
    decreases 12 - x
  {
    if x > 11 {
    } else if !IsHallwayStop(x) {
      ScanRightMembers(b, x + 1);
      assert forall h :: RightStop(b, x, h) <==> RightStop(b, x + 1, h);
    } else if At(b, Point(x, HallwayRow)) != '.' {
      forall h ensures !RightStop(b, x, h) {
        if x <= h <= 11 && IsHallwayStop(h) {
          assert x <= x <= h && IsHallwayStop(x);
        }
      }
    } else {
      ScanRightMembers(b, x + 1);
      assert forall h :: h > x ==> (RightStop(b, x, h) <==> RightStop(b, x + 1, h));
    }
  }

  /** A stopping cell h that an amphipod leaving room x reaches without
      passing an occupied stopping cell. */
  ghost predicate Reachable(b: Board, x: int, h: int)
  {
    && IsHallwayStop(h) && IsHallwayX(h) && h != x
    && forall s :: (x < s <= h || h <= s < x) && IsHallwayStop(s) ==> At(b, Point(s, HallwayRow)) == '.'
  }

  /** ReachableHallwayPoints: the reachable stopping cells, the left ones
      nearest first, then the right ones nearest first. */
  function ReachableHallwayPoints(b: Board, x: int): (r: seq<int>)
    requires IsHomeColumn(x)
    ensures forall h :: h in r <==> Reachable(b, x, h)
    ensures forall i, j :: 0 <= i < j < |r| ==> r[i] != r[j]
  {
    var left, right := ScanLeft(b, x - 1), ScanRight(b, x + 1);
    ScanLeftMembers(b, x - 1);
    ScanRightMembers(b, x + 1);
    assert forall h :: Reachable(b, x, h) <==> LeftStop(b, h, x - 1) || RightStop(b, x + 1, h);
    DistinctHalves(left, right, x);
    left + right
  }

  /** A strictly decreasing run below x followed by a strictly increasing
      run above x repeats no value. */
  lemma DistinctHalves(left: seq<int>, right: seq<int>, x: int)
    requires forall i :: 0 <= i < |left| ==> left[i] < x
    requires forall i :: 0 < i < |left| ==> left[i] < left[i - 1]
    requires forall i :: 0 <= i < |right| ==> x < right[i]
    requires forall i :: 0 < i < |right| ==> right[i - 1] < right[i]
    ensures forall i, j :: 0 <= i < j < |left + right| ==> (left + right)[i] != (left + right)[j]
  {
    forall i, j | 0 <= i < j < |left| ensures left[j] < left[i] {
      Descending(left, i, j);
    }
    forall i, j | 0 <= i < j < |right| ensures right[i] < right[j] {
      Ascending(right, i, j);
    }
  }

  lemma {:induction false} Descending(s: seq<int>, i: int, j: int)
    requires forall k :: 0 < k < |s| ==> s[k] < s[k - 1]
    requires 0 <= i < j < |s|
    ensures s[j] < s[i]
    decreases j - i
  {
    if i + 1 < j {
      Descending(s, i + 1, j);
    }
  }

  lemma {:induction false} Ascending(s: seq<int>, i: int, j: int)
    requires forall k :: 0 < k < |s| ==> s[k - 1] < s[k]
    requires 0 <= i < j < |s|
    ensures s[i] < s[j]
    decreases j - i
  {
    if i + 1 < j {
      Ascending(s, i + 1, j);
    }
  }

  // ---------------------------------------------------------------------
  // The move generator

  datatype WeightedMove = WeightedMove(move: Move, cost: int)

  /** The move of the amphipod in hallway cell p: straight into its own
      room, when the room may be entered, the hallway on the way is clear
      and the room has a free cell; it costs the letter's weight times the
      cells walked. */
  function HallwayMoves(b: Board, roomSize: nat, p: Point): seq<WeightedMove>
    requires IsSnail(At(b, p)) && IsHallwayX(p.x)
  {
    var value := At(b, p);
    var homeColumn := HomeColumn(value);
    if !HomeIsComplete(b, roomSize, homeColumn) then []
    else
      var xDistance := DistanceToColumn(b, p, homeColumn);
      if xDistance == -1 then []
      else
        match ColumnSnailPosition(b, roomSize, homeColumn)
        case None => []
        case Some(to) => [WeightedMove(Move(p, to), (xDistance + (to.y - HallwayRow)) * Weight(value))]
  }

  /** The moves of the amphipod in room cell p: when it is the topmost
      amphipod of a room that may not be entered, one move to each
      reachable stopping cell. */
  function RoomMoves(b: Board, roomSize: nat, p: Point): seq<WeightedMove>
    requires IsSnail(At(b, p)) && IsHomeColumn(p.x)
  {
    if HomeIsComplete(b, roomSize, p.x) then []
    else
      match HomeTop(b, roomSize, p.x)
      case None => []
      case Some(homeTop) =>
        if p != homeTop then []
        else ExitMoves(p, Weight(At(b, p)), homeTop.y - HallwayRow, ReachableHallwayPoints(b, p.x))
  }

  /** A move from p to the hallway cell of one of the columns xs, at
      weight times the cells walked, distanceY of them vertical. */
  predicate IsExit(p: Point, weight: int, distanceY: int, xs: seq<int>, wm: WeightedMove)
  {
    && wm.move.from == p && wm.move.to.y == HallwayRow && wm.move.to.x in xs
    && wm.cost == weight * (Abs(p.x - wm.move.to.x) + distanceY)
  }

  /** One exit move per column of xs, in their order. */
  function ExitMoves(p: Point, weight: int, distanceY: int, xs: seq<int>): seq<WeightedMove>
  {
    seq(|xs|, i requires 0 <= i < |xs| => WeightedMove(Move(p, Point(xs[i], HallwayRow)), weight * (Abs(p.x - xs[i]) + distanceY)))
  }

  /** The exit moves are exactly the moves IsExit describes. */
  lemma ExitMovesMembers(p: Point, weight: int, distanceY: int, xs: seq<int>)
    ensures forall wm :: wm in ExitMoves(p, weight, distanceY, xs) <==> IsExit(p, weight, distanceY, xs, wm)
  {
    var r := ExitMoves(p, weight, distanceY, xs);
    forall wm | IsExit(p, weight, distanceY, xs, wm) ensures wm in r {
      var i :| 0 <= i < |xs| && xs[i] == wm.move.to.x;
      assert r[i] == wm;
    }
  }

  /** The moves of cell p, as one iteration of the loop of FindValidMoves
      makes them. */
  function CellMoves(b: Board, roomSize: nat, p: Point): seq<WeightedMove>
    requires IsCell(p, roomSize)
  {
    if !IsSnail(At(b, p)) then []
    else if p.y == HallwayRow then HallwayMoves(b, roomSize, p)
    else RoomMoves(b, roomSize, p)
  }

  /** The moves of the amphipods in the given cells, in their order. */
  function MovesOf(b: Board, roomSize: nat, cells: seq<Point>): seq<WeightedMove>
    requires forall i :: 0 <= i < |cells| ==> IsCell(cells[i], roomSize)
  {
    if cells == [] then []
    else MovesOf(b, roomSize, cells[..|cells| - 1]) + CellMoves(b, roomSize, cells[|cells| - 1])
  }

  /** Every move of the board, cell by cell in the order of Values. */
  function ValidMoves(b: Board, roomSize: nat): seq<WeightedMove>
  {
    CellsValid(roomSize);
    MovesOf(b, roomSize, Cells(roomSize))
  }

  /** FindValidMoves(Map): the loop over the cells of the board, appending
      the moves of each amphipod. */
  method FindValidMoves(b: Board, roomSize: nat) returns (validMoves: seq<WeightedMove>)
    ensures validMoves == ValidMoves(b, roomSize)
  {
    CellsValid(roomSize);
    var cells := Cells(roomSize);
    validMoves := [];
    for i := 0 to |cells|
      invariant validMoves == MovesOf(b, roomSize, cells[..i])
    {
      assert cells[..i + 1][..i] == cells[..i];
      var p := cells[i];
      var value := At(b, p);
      if !IsSnail(value) {
        continue;
      }
      if p.y == HallwayRow {
        validMoves := AddHallwayMove(b, roomSize, p, validMoves);
      } else {
        validMoves := AddRoomMoves(b, roomSize, p, validMoves);
      }
    }
    assert cells[..|cells|] == cells;
  }

  /** The hallway branch of the loop of FindValidMoves. */
  method AddHallwayMove(b: Board, roomSize: nat, p: Point, validMoves: seq<WeightedMove>) returns (r: seq<WeightedMove>)
    requires IsSnail(At(b, p)) && IsHallwayX(p.x)
    ensures r == validMoves + HallwayMoves(b, roomSize, p)
  {
    r := validMoves;
    var value := At(b, p);
    var cost := Weight(value);
    var homeColumn := HomeColumn(value);
    if !HomeIsComplete(b, roomSize, homeColumn) {
      return;
    }
    var xDistance := DistanceToColumn(b, p, homeColumn);
    if xDistance == -1 {
      return;
    }
    var columnSnailPosition := ColumnSnailPosition(b, roomSize, homeColumn);
    if columnSnailPosition.None? {
      return;
    }
    var yDistance := columnSnailPosition.value.y - HallwayRow;
    r := r + [WeightedMove(Move(p, columnSnailPosition.value), (xDistance + yDistance) * cost)];
  }

  /** The room branch of the loop of FindValidMoves, with its inner loop
      over the reachable stopping cells. */
  method AddRoomMoves(b: Board, roomSize: nat, p: Point, validMoves: seq<WeightedMove>) returns (r: seq<WeightedMove>)
    requires IsSnail(At(b, p)) && IsHomeColumn(p.x)
    ensures r == validMoves + RoomMoves(b, roomSize, p)
  {
    r := validMoves;
    var cost := Weight(At(b, p));
    if HomeIsComplete(b, roomSize, p.x) {
      return;
    }
    var homeTop := HomeTop(b, roomSize, p.x);
    if homeTop.None? || p != homeTop.value {
      return;
    }
    var distanceY := homeTop.value.y - HallwayRow;
    var hallwayPoints := ReachableHallwayPoints(b, p.x);
    r := AddExitMoves(p, cost, distanceY, hallwayPoints, r);
  }

  /** The inner loop of the room branch: one move per reachable stopping
      cell. */
  method AddExitMoves(p: Point, cost: int, distanceY: int, hallwayPoints: seq<int>, validMoves: seq<WeightedMove>)
    returns (r: seq<WeightedMove>)
    ensures r == validMoves + ExitMoves(p, cost, distanceY, hallwayPoints)
  {
    r := validMoves;
    ghost var moves := ExitMoves(p, cost, distanceY, hallwayPoints);
    for k := 0 to |hallwayPoints|
      invariant r == validMoves + moves[..k]
    {
      var distanceX := Abs(p.x - hallwayPoints[k]);
      assert moves[..k + 1] == moves[..k] + [moves[k]];
      r := r + [WeightedMove(Move(p, Point(hallwayPoints[k], HallwayRow)), cost * (distanceX + distanceY))];
    }
    assert moves[..|hallwayPoints|] == moves;
  }

  // ---------------------------------------------------------------------
  // What the generated moves are

  /** A move of an amphipod in the hallway into the free cell of its own
      room. */
  ghost predicate LegalHallwayMove(b: Board, roomSize: nat, wm: WeightedMove)
    requires IsSnail(At(b, wm.move.from))
  {
    var from, to := wm.move.from, wm.move.to;
    var home := HomeColumn(At(b, from));
    && from.y == HallwayRow && IsHallwayX(from.x)
    && HomeIsComplete(b, roomSize, home)
    && DistanceToColumn(b, from, home) != -1
    && ColumnSnailPosition(b, roomSize, home) == Some(to)
    && wm.cost == (Abs(from.x - to.x) + (to.y - HallwayRow)) * Weight(At(b, from))
  }

  /** A move of the topmost amphipod of a room that may not be entered to
      a reachable stopping cell of the hallway. */
  ghost predicate LegalRoomMove(b: Board, roomSize: nat, wm: WeightedMove)
    requires IsSnail(At(b, wm.move.from))
  {
    var from, to := wm.move.from, wm.move.to;
    && IsHomeColumn(from.x)
    && !HomeIsComplete(b, roomSize, from.x)
    && HomeTop(b, roomSize, from.x) == Some(from)
    && to.y == HallwayRow && Reachable(b, from.x, to.x)
    && wm.cost == Weight(At(b, from)) * (Abs(from.x - to.x) + (from.y - HallwayRow))
  }

  /** The two kinds of legal move. */
  ghost predicate LegalMove(b: Board, roomSize: nat, wm: WeightedMove)
  {
    && IsCell(wm.move.from, roomSize) && IsSnail(At(b, wm.move.from))
    && (LegalHallwayMove(b, roomSize, wm) || LegalRoomMove(b, roomSize, wm))
  }

  /** The hallway moves of a cell are exactly its legal hallway moves. */
  lemma HallwayMovesLegal(b: Board, roomSize: nat, p: Point)
    requires IsSnail(At(b, p)) && IsHallwayX(p.x) && p.y == HallwayRow
    ensures forall wm :: wm in HallwayMoves(b, roomSize, p) <==> wm.move.from == p && LegalHallwayMove(b, roomSize, wm)
  {
    var home := HomeColumn(At(b, p));
    if HomeIsComplete(b, roomSize, home) && DistanceToColumn(b, p, home) != -1 && ColumnSnailPosition(b, roomSize, home).Some? {
      var to := ColumnSnailPosition(b, roomSize, home).value;
      var move := WeightedMove(Move(p, to), (Abs(p.x - to.x) + (to.y - HallwayRow)) * Weight(At(b, p)));
      assert HallwayMoves(b, roomSize, p) == [move];
      assert LegalHallwayMove(b, roomSize, move);
    } else {
      assert HallwayMoves(b, roomSize, p) == [];
    }
  }

  /** The room moves of a cell are exactly its legal room moves. */
  lemma RoomMovesLegal(b: Board, roomSize: nat, p: Point)
    requires IsSnail(At(b, p)) && IsHomeColumn(p.x)
    ensures forall wm :: wm in RoomMoves(b, roomSize, p) <==> wm.move.from == p && LegalRoomMove(b, roomSize, wm)
  {
    if !HomeIsComplete(b, roomSize, p.x) && HomeTop(b, roomSize, p.x) == Some(p) {
      var xs := ReachableHallwayPoints(b, p.x);
      var w, dy := Weight(At(b, p)), p.y - HallwayRow;
      assert RoomMoves(b, roomSize, p) == ExitMoves(p, w, dy, xs);
      ExitMovesMembers(p, w, dy, xs);
      forall wm: WeightedMove
        ensures IsExit(p, w, dy, xs, wm) <==> wm.move.from == p && LegalRoomMove(b, roomSize, wm)
      {
        if wm.move.from == p {
          assert wm.move.to.x in xs <==> Reachable(b, p.x, wm.move.to.x);
        }
      }
    } else {
      assert RoomMoves(b, roomSize, p) == [];
    }
  }

  /** The moves of one cell are exactly the legal moves out of it. */
  lemma CellMovesLegal(b: Board, roomSize: nat, p: Point)
    requires IsCell(p, roomSize)
    ensures forall wm :: wm in CellMoves(b, roomSize, p) <==> wm.move.from == p && LegalMove(b, roomSize, wm)
  {
    if IsSnail(At(b, p)) {
      if p.y == HallwayRow {
        HallwayMovesLegal(b, roomSize, p);
        assert forall wm: WeightedMove :: wm.move.from == p ==> !LegalRoomMove(b, roomSize, wm);
      } else {
        RoomMovesLegal(b, roomSize, p);
        assert forall wm: WeightedMove :: wm.move.from == p ==> !LegalHallwayMove(b, roomSize, wm);
      }
    }
  }

  /** The moves of a list of cells are the legal moves out of those cells. */
  lemma {:induction false} MovesOfLegal(b: Board, roomSize: nat, cells: seq<Point>)
    requires forall i :: 0 <= i < |cells| ==> IsCell(cells[i], roomSize)
    ensures forall wm :: wm in MovesOf(b, roomSize, cells) <==> wm.move.from in cells && LegalMove(b, roomSize, wm)
  {
    if cells != [] {
      var init, last := cells[..|cells| - 1], cells[|cells| - 1];
      MovesOfLegal(b, roomSize, init);
      CellMovesLegal(b, roomSize, last);
      assert forall q :: q in cells <==> q in init || q == last by {
        assert cells == init + [last];
      }
    }
  }

  /** FindValidMoves generates exactly the legal moves of the board. */
  lemma ValidMovesLegal(b: Board, roomSize: nat)
    ensures forall wm :: wm in ValidMoves(b, roomSize) <==> LegalMove(b, roomSize, wm)
  {
    CellsExact(roomSize);
    MovesOfLegal(b, roomSize, Cells(roomSize));
  }

  /** A legal move takes an amphipod into an empty cell of the burrow,
      never from the hallway to the hallway, at a positive cost. */
  lemma LegalMoveFacts(b: Board, roomSize: nat, wm: WeightedMove)
    requires LegalMove(b, roomSize, wm)
    ensures IsCell(wm.move.to, roomSize) && At(b, wm.move.to) == '.'
    ensures wm.move.from.y == HallwayRow ==> wm.move.to.y != HallwayRow
    ensures wm.cost >= 1
  {
    var from, to := wm.move.from, wm.move.to;
    var w := Weight(At(b, from));
    if LegalHallwayMove(b, roomSize, wm) {
      AtLeastOne(Abs(from.x - to.x) + (to.y - HallwayRow), w);
    } else {
      AtLeastOne(w, Abs(from.x - to.x) + (from.y - HallwayRow));
    }
  }

  lemma AtLeastOne(a: int, b: int)
    requires a >= 1 && b >= 1
    ensures a * b >= 1
  {
  }

  /** Every generated move keeps the board a board of the burrow and the
      number of each kind of amphipod. */
  lemma ValidMoveConserves(b: Board, roomSize: nat, wm: WeightedMove, c: char)
    requires WellFormed(b, roomSize) && wm in ValidMoves(b, roomSize)
    ensures wm.move.from in b && wm.move.to in b
    ensures WellFormed(AfterMove(b, wm.move), roomSize)
    ensures Count(AfterMove(b, wm.move), c) == Count(b, c)
    ensures wm.cost >= 1
  {
    ValidMovesLegal(b, roomSize);
    LegalMoveFacts(b, roomSize, wm);
    MovedWellFormed(b, roomSize, wm.move);
    MovedConserves(b, wm.move, c);
  }
}
