/** Bingo as the program plays it: each board is an object over a
    two-dimensional array of entries that its methods scan and mark in
    place, and the two games loop over the called numbers and the boards.
    Every method is proved to compute the value functions of module DayFour. */
module DayFourGame {
  import opened Common
  import opened DayFour

  /** BingoBoard: Numbers[row, column] holds the board's entries. The ghost
      field Cells is the same grid as a value. */
  class BingoBoard {
    const width: nat
    const height: nat
    const numbers: array2<Entry>
    ghost var Cells: seq<seq<Entry>>

    ghost function Model(): Board
      reads this
    {
      Board(height, width, Cells)
    }

    ghost predicate Valid()
      reads this, numbers
    {
      numbers.Length0 == height && numbers.Length1 == width && Shaped(Model()) &&
      forall h, w :: 0 <= h < height && 0 <= w < width ==> numbers[h, w] == Cells[h][w]
    }

    /** A board of the given size with every number 0 and nothing marked. */
    constructor (width: nat, height: nat)
      ensures Valid() && fresh(numbers)
      ensures Model() == Fresh(height, width)
    {
      this.width := width;
      this.height := height;
      numbers := new Entry[height, width]((h, w) => Entry(0, false));
      Cells := Fresh(height, width).cells;
    }

    /** The setter of an entry's Number, as the board reader fills a board. */
    method SetNumber(h: nat, w: nat, value: int)
      requires Valid() && h < height && w < width
      modifies this, numbers
      ensures Valid()
      ensures Model() == old(Model()).(cells := old(Cells)[h := old(Cells)[h][w := old(Cells)[h][w].(number := value)]])
    {
      numbers[h, w] := numbers[h, w].(number := value);
      Cells := Cells[h := Cells[h][w := Cells[h][w].(number := value)]];
    }

    /** MarkNumber: scan every entry and mark those holding number. */
    method MarkNumber(number: int)
      requires Valid()
      modifies this, numbers
      ensures Valid()
      ensures Model() == Mark(old(Model()), number)
    {
      ghost var before := Model();
      for h := 0 to height
        invariant Cells == before.cells
        invariant forall i, j :: 0 <= i < height && 0 <= j < width ==>
          numbers[i, j] == if i < h then MarkEntry(Cells[i][j], number) else Cells[i][j]
      {
        for w := 0 to width
          invariant Cells == before.cells
          invariant forall i, j :: 0 <= i < height && 0 <= j < width ==>
            numbers[i, j] == if i < h || (i == h && j < w) then MarkEntry(Cells[i][j], number) else Cells[i][j]
        {
          if numbers[h, w].number == number {
            numbers[h, w] := numbers[h, w].(marked := true);
          }
        }
      }
      Cells := Mark(before, number).cells;
    }

    /** UnmarkedSum: the numbers of the unmarked entries, row by row. */
    method UnmarkedSum() returns (sum: int)
      requires Valid()
      ensures sum == Unmarked(Model())
    {
      sum := 0;
      for h := 0 to height
        invariant sum == UnmarkedRows(Model(), h)
      {
        var row := 0;
        for w := 0 to width
          invariant row == RowUnmarked(Cells[h], w)
        {
          if !numbers[h, w].marked {
            row := row + numbers[h, w].number;
          }
        }
        sum := sum + row;
      }
    }

    /** IsWon: first every row, then every column, is checked for an entry
        that is not marked. */
    method IsWon() returns (r: bool)
      requires Valid()
      ensures r == Won(Model())
    {
      for h := 0 to height
        invariant !SomeRow(Model(), h)
      {
        var isWin := true;
        for w := 0 to width
          invariant isWin == RowMarked(Model(), h, w)
        {
          if !numbers[h, w].marked {
            isWin := false;
          }
        }
        if isWin {
          SomeRowUp(Model(), h + 1, height);
          return true;
        }
      }
      for w := 0 to width
        invariant !SomeColumn(Model(), w)
      {
        var isWin := true;
        for h := 0 to height
          invariant isWin == ColumnMarked(Model(), w, h)
        {
          if !numbers[h, w].marked {
            isWin := false;
          }
        }
        if isWin {
          SomeColumnUp(Model(), w + 1, width);
          return true;
        }
      }
      return false;
    }
  }

  /** The result records of both games: a board and the number that
      completed it. */
  datatype WinningBoard = WinningBoard(board: BingoBoard, winningNumber: int)

  /** BingoData: the called numbers, in order, and the boards. */
  datatype BingoData = BingoData(gameNumbers: seq<int>, boards: seq<BingoBoard>)

  /** The boards are valid and no two share their entries. */
  ghost predicate Separate(boards: seq<BingoBoard>)
    reads boards, set b | b in boards :: b.numbers
  {
    (forall i :: 0 <= i < |boards| ==> boards[i].Valid()) &&
    forall i, j :: 0 <= i < |boards| && 0 <= j < |boards| && i != j ==> boards[i].numbers != boards[j].numbers
  }

  /** The objects the games change: the boards and their arrays. */
  ghost function Footprint(boards: seq<BingoBoard>): (fp: set<object>)
    ensures forall i :: 0 <= i < |boards| ==> boards[i] in fp && boards[i].numbers in fp
  {
    if boards == [] then {}
    else Footprint(boards[..|boards| - 1]) + {boards[|boards| - 1], boards[|boards| - 1].numbers}
  }

  /** The boards' values. */
  ghost function Models(boards: seq<BingoBoard>): (ms: seq<Board>)
    reads boards
    ensures |ms| == |boards| && forall i :: 0 <= i < |boards| ==> ms[i] == boards[i].Model()
  {
    seq(|boards|, i requires 0 <= i < |boards| reads boards => boards[i].Model())
  }

  /** The result records of a list of (board index, number) pairs. */
  function Report(boards: seq<BingoBoard>, ws: seq<(nat, int)>): (r: seq<WinningBoard>)
    requires forall t :: 0 <= t < |ws| ==> ws[t].0 < |boards|
    ensures |r| == |ws| && forall t :: 0 <= t < |ws| ==> r[t] == WinningBoard(boards[ws[t].0], ws[t].1)
  {
    if ws == [] then [] else Report(boards, ws[..|ws| - 1]) + [WinningBoard(boards[ws[|ws| - 1].0], ws[|ws| - 1].1)]
  }

  /** Recording one more winner. */
  lemma ReportAppend(boards: seq<BingoBoard>, ws: seq<(nat, int)>, p: (nat, int))
    requires forall t :: 0 <= t < |ws| ==> ws[t].0 < |boards|
    requires p.0 < |boards|
    ensures Report(boards, ws + [p]) == Report(boards, ws) + [WinningBoard(boards[p.0], p.1)]
  {
    assert (ws + [p])[..|ws|] == ws;
  }

  /** Whether every board is won, on boards whose values are ms. */
  method AllWon(boards: seq<BingoBoard>, ghost ms: seq<Board>) returns (r: bool)
    requires Separate(boards) && Models(boards) == ms
    ensures r <==> forall i :: 0 <= i < |boards| ==> Won(ms[i])
  {
    for i := 0 to |boards|
      invariant forall j :: 0 <= j < i ==> Won(ms[j])
    {
      assert boards[i].Model() == ms[i];
      var won := boards[i].IsWon();
      if !won {
        return false;
      }
    }
    return true;
  }

  /** A board's turn in FindWinningBoards: marked unless it is won, and
      won says that this turn won it. */
  method TakeTurn(boards: seq<BingoBoard>, j: nat, number: int) returns (won: bool)
    requires Separate(boards) && j < |boards|
    modifies boards[j], boards[j].numbers
    ensures Separate(boards)
    ensures var s := old(boards[j].Model());
      Models(boards) == old(Models(boards))[j := if Won(s) then s else Mark(s, number)]
    ensures won <==> !Won(old(boards[j].Model())) && Won(boards[j].Model())
  {
    var wasWon := boards[j].IsWon();
    won := false;
    if !wasWon {
      MarkOne(boards, j, number);
      won := boards[j].IsWon();
    } else {
      assert Models(boards) == Models(boards)[j := boards[j].Model()];
    }
  }

  /** MarkNumber on board j of a list: the other boards are untouched. */
  method MarkOne(boards: seq<BingoBoard>, j: nat, number: int)
    requires Separate(boards) && j < |boards|
    modifies boards[j], boards[j].numbers
    ensures Separate(boards)
    ensures Models(boards) == old(Models(boards))[j := Mark(old(boards[j].Model()), number)]
  {
    boards[j].MarkNumber(number);
  }

  /** FindWinningBoards after k rounds, with winners the records of every
      board won in those rounds, in order. */
  ghost predicate AfterRounds(boards: seq<BingoBoard>, draws: seq<int>, k: nat, winners: seq<WinningBoard>,
                              init: seq<Board>, rounds: seq<Option<nat>>)
    reads boards, set b | b in boards :: b.numbers
  {
    Separate(boards) && |init| == |boards| && AfterRoundsOf(draws, init, rounds, k, Models(boards)) &&
    winners == Report(boards, WinnersBefore(draws, rounds, k))
  }

  /** FindWinningBoards in round k, after the turns of the first j boards. */
  ghost predicate InRound(boards: seq<BingoBoard>, draws: seq<int>, k: nat, j: nat, winners: seq<WinningBoard>,
                          init: seq<Board>, rounds: seq<Option<nat>>)
    reads boards, set b | b in boards :: b.numbers
  {
    Separate(boards) && |init| == |boards| && InRoundOf(draws, init, rounds, k, j, Models(boards)) &&
    winners == Report(boards, WinnersBefore(draws, rounds, k) + RoundWinners(draws, rounds, k, j))
  }

  /** Play after k rounds without a winner. */
  ghost predicate Called(boards: seq<BingoBoard>, draws: seq<int>, k: nat, init: seq<Board>)
    reads boards, set b | b in boards :: b.numbers
  {
    Separate(boards) && |init| == |boards| && CalledOf(draws, init, k, Models(boards))
  }

  /** Play in round k, after the turns of the first j boards. */
  ghost predicate Calling(boards: seq<BingoBoard>, draws: seq<int>, k: nat, j: nat, init: seq<Board>)
    reads boards, set b | b in boards :: b.numbers
  {
    Separate(boards) && |init| == |boards| && CallingOf(draws, init, k, j, Models(boards))
  }

  /** Play after round k, which winner ended. */
  ghost predicate RoundOutcome(boards: seq<BingoBoard>, draws: seq<int>, k: nat, winner: Option<nat>, init: seq<Board>)
    reads boards, set b | b in boards :: b.numbers
  {
    Separate(boards) && |init| == |boards| && RoundOutcomeOf(draws, init, k, winner, Models(boards))
  }

  /** Play after board j's turn in round k, which won ended or not. */
  ghost predicate TurnOutcome(boards: seq<BingoBoard>, draws: seq<int>, k: nat, j: nat, won: bool, init: seq<Board>)
    reads boards, set b | b in boards :: b.numbers
  {
    Separate(boards) && |init| == |boards| && TurnOutcomeOf(draws, init, k, j, won, Models(boards))
  }
}
