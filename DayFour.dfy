/** Giant squid bingo, on values: a board is a grid of entries, a called
    number marks every entry that holds it, and a board is won once a whole
    row or a whole column is marked. The game functions say which boards
    win, in which round and in which order. */
module DayFour {
  import opened Common

  /** BingoEntry: a number on a board and whether it has been called. */
  datatype Entry = Entry(number: int, marked: bool)

  /** A board's entries row by row (cells[row][column]). */
  datatype Board = Board(height: nat, width: nat, cells: seq<seq<Entry>>)

  /** The cells form height rows of width entries. */
  ghost predicate Shaped(b: Board)
  {
    |b.cells| == b.height && forall h :: 0 <= h < b.height ==> |b.cells[h]| == b.width
  }

  /** The board the constructor builds: every number 0, nothing marked. */
  function Fresh(height: nat, width: nat): (b: Board)
    ensures Shaped(b) && b.height == height && b.width == width
    ensures forall h, w :: 0 <= h < height && 0 <= w < width ==> b.cells[h][w] == Entry(0, false)
  {
    Board(height, width, seq(height, h => seq(width, w => Entry(0, false))))
  }

  /** Two boards of the same shape holding the same numbers. */
  ghost predicate SameNumbers(b: Board, c: Board)
  {
    Shaped(b) && Shaped(c) && b.height == c.height && b.width == c.width &&
    forall h, w :: 0 <= h < b.height && 0 <= w < b.width ==> c.cells[h][w].number == b.cells[h][w].number
  }

  // ---------------------------------------------------------------------
  // Marking

  function MarkEntry(e: Entry, n: int): Entry
  {
    if e.number == n then e.(marked := true) else e
  }

  /** One row with n called. */
  function MarkRow(row: seq<Entry>, n: int): (r: seq<Entry>)
    ensures |r| == |row|
  {
    seq(|row|, w requires 0 <= w < |row| => MarkEntry(row[w], n))
  }

  /** MarkNumber: every row with n called. */
  function Mark(b: Board, n: int): (r: Board)
    requires Shaped(b)
    ensures Shaped(r) && r.height == b.height && r.width == b.width
  {
    Board(b.height, b.width, seq(b.height, h requires 0 <= h < b.height => MarkRow(b.cells[h], n)))
  }

  /** Calling n marks exactly the entries holding n, unmarks nothing and
      changes no number. */
  lemma MarkSpec(b: Board, n: int)
    requires Shaped(b)
    ensures SameNumbers(b, Mark(b, n))
    ensures forall h, w :: 0 <= h < b.height && 0 <= w < b.width ==>
      (Mark(b, n).cells[h][w].marked <==> b.cells[h][w].marked || b.cells[h][w].number == n)
  {
  }

  /** Marking the called numbers one after the other. */
  function MarkAll(b: Board, draws: seq<int>): (r: Board)
    requires Shaped(b)
    ensures Shaped(r) && r.height == b.height && r.width == b.width
    decreases |draws|
  {
    if draws == [] then b else Mark(MarkAll(b, draws[..|draws| - 1]), draws[|draws| - 1])
  }

  /** After the called numbers an entry is marked iff it was marked
      already or its number was called. */
  lemma {:induction false} MarkAllSpec(b: Board, draws: seq<int>)
    requires Shaped(b)
    ensures SameNumbers(b, MarkAll(b, draws))
    ensures forall h, w :: 0 <= h < b.height && 0 <= w < b.width ==>
      (MarkAll(b, draws).cells[h][w].marked <==> b.cells[h][w].marked || b.cells[h][w].number in draws)
    decreases |draws|
  {
    if draws != [] {
      var init, last := draws[..|draws| - 1], draws[|draws| - 1];
      MarkAllSpec(b, init);
      MarkSpec(MarkAll(b, init), last);
      assert draws == init + [last];
    }
  }

  /** Marking one more called number. */
  lemma MarkAllStep(b: Board, draws: seq<int>, r: nat)
    requires Shaped(b) && r < |draws|
    ensures Mark(MarkAll(b, draws[..r]), draws[r]) == MarkAll(b, draws[..r + 1])
  {
    assert draws[..r + 1][..r] == draws[..r];
  }

  lemma MarkAllNone(b: Board, draws: seq<int>)
    requires Shaped(b)
    ensures MarkAll(b, draws[..0]) == b
  {
    assert draws[..0] == [];
  }

  // ---------------------------------------------------------------------
  // Winning

  /** The first w entries of row h are marked. */
  predicate RowMarked(b: Board, h: nat, w: nat)
    requires Shaped(b) && h < b.height && w <= b.width
  {
    w == 0 || (b.cells[h][w - 1].marked && RowMarked(b, h, w - 1))
  }

  /** The first h entries of column w are marked. */
  predicate ColumnMarked(b: Board, w: nat, h: nat)
    requires Shaped(b) && w < b.width && h <= b.height
  {
    h == 0 || (b.cells[h - 1][w].marked && ColumnMarked(b, w, h - 1))
  }

  /** One of the first h rows is marked throughout. */
  predicate SomeRow(b: Board, h: nat)
    requires Shaped(b) && h <= b.height
  {
    h > 0 && (RowMarked(b, h - 1, b.width) || SomeRow(b, h - 1))
  }

  /** One of the first w columns is marked throughout. */
  predicate SomeColumn(b: Board, w: nat)
    requires Shaped(b) && w <= b.width
  {
    w > 0 && (ColumnMarked(b, w - 1, b.height) || SomeColumn(b, w - 1))
  }

  /** IsWon: the rows are checked, then the columns. */
  predicate Won(b: Board)
    requires Shaped(b)
  {
    SomeRow(b, b.height) || SomeColumn(b, b.width)
  }

  /** Every entry of row i is marked. */
  ghost predicate FullRow(b: Board, i: nat)
    requires Shaped(b) && i < b.height
  {
    forall j :: 0 <= j < b.width ==> b.cells[i][j].marked
  }

  /** Every entry of column j is marked. */
  ghost predicate FullColumn(b: Board, j: nat)
    requires Shaped(b) && j < b.width
  {
    forall i :: 0 <= i < b.height ==> b.cells[i][j].marked
  }

  lemma {:induction false} RowMarkedSpec(b: Board, h: nat, w: nat)
    requires Shaped(b) && h < b.height && w <= b.width
    ensures RowMarked(b, h, w) <==> forall j :: 0 <= j < w ==> b.cells[h][j].marked
  {
    if w > 0 {
      RowMarkedSpec(b, h, w - 1);
    }
  }

  lemma {:induction false} ColumnMarkedSpec(b: Board, w: nat, h: nat)
    requires Shaped(b) && w < b.width && h <= b.height
    ensures ColumnMarked(b, w, h) <==> forall i :: 0 <= i < h ==> b.cells[i][w].marked
  {
    if h > 0 {
      ColumnMarkedSpec(b, w, h - 1);
    }
  }

  lemma {:induction false} SomeRowSpec(b: Board, h: nat)
    requires Shaped(b) && h <= b.height
    ensures SomeRow(b, h) <==> exists i :: 0 <= i < h && FullRow(b, i)
  {
    if h > 0 {
      SomeRowSpec(b, h - 1);
      RowMarkedSpec(b, h - 1, b.width);
      assert RowMarked(b, h - 1, b.width) <==> FullRow(b, h - 1);
      if i :| 0 <= i < h && FullRow(b, i) {
        if i < h - 1 {
          assert SomeRow(b, h - 1);
        }
      }
    }
  }

  lemma {:induction false} SomeColumnSpec(b: Board, w: nat)
    requires Shaped(b) && w <= b.width
    ensures SomeColumn(b, w) <==> exists j :: 0 <= j < w && FullColumn(b, j)
  {
    if w > 0 {
      SomeColumnSpec(b, w - 1);
      ColumnMarkedSpec(b, w - 1, b.height);
      assert ColumnMarked(b, w - 1, b.height) <==> FullColumn(b, w - 1);
      if j :| 0 <= j < w && FullColumn(b, j) {
        if j < w - 1 {
          assert SomeColumn(b, w - 1);
        }
      }
    }
  }

  /** A complete row among the first h is one among the first H >= h. */
  lemma {:induction false} SomeRowUp(b: Board, h: nat, H: nat)
    requires Shaped(b) && h <= H <= b.height && SomeRow(b, h)
    ensures SomeRow(b, H)
    decreases H
  {
    if H > h {
      SomeRowUp(b, h, H - 1);
    }
  }

  lemma {:induction false} SomeColumnUp(b: Board, w: nat, W: nat)
    requires Shaped(b) && w <= W <= b.width && SomeColumn(b, w)
    ensures SomeColumn(b, W)
    decreases W
  {
    if W > w {
      SomeColumnUp(b, w, W - 1);
    }
  }

  /** A board is won iff some row or some column has every entry marked. */
  lemma WonSpec(b: Board)
    requires Shaped(b)
    ensures Won(b) <==>
      (exists i :: 0 <= i < b.height && FullRow(b, i)) ||
      (exists j :: 0 <= j < b.width && FullColumn(b, j))
  {
    SomeRowSpec(b, b.height);
    SomeColumnSpec(b, b.width);
  }

  /** A board whose marks include those of a won board is won. */
  lemma WonGrows(b: Board, c: Board)
    requires SameNumbers(b, c) && Won(b)
    requires forall h, w :: 0 <= h < b.height && 0 <= w < b.width && b.cells[h][w].marked ==> c.cells[h][w].marked
    ensures Won(c)
  {
    WonSpec(b);
    WonSpec(c);
    if i :| 0 <= i < b.height && FullRow(b, i) {
      assert FullRow(c, i);
    } else {
      var j :| 0 <= j < b.width && FullColumn(b, j);
      assert FullColumn(c, j);
    }
  }

  /** A won board stays won when more numbers are called. */
  lemma MarkKeepsWon(b: Board, n: int)
    requires Shaped(b) && Won(b)
    ensures Won(Mark(b, n))
  {
    MarkSpec(b, n);
    WonGrows(b, Mark(b, n));
  }

  // ---------------------------------------------------------------------
  // The unmarked sum

  /** The unmarked numbers among the first w entries of a row. */
  function RowUnmarked(row: seq<Entry>, w: nat): int
    requires w <= |row|
  {
    if w == 0 then 0
    else RowUnmarked(row, w - 1) + (if row[w - 1].marked then 0 else row[w - 1].number)
  }

  /** The unmarked numbers of the first h rows. */
  function UnmarkedRows(b: Board, h: nat): int
    requires Shaped(b) && h <= b.height
  {
    if h == 0 then 0 else UnmarkedRows(b, h - 1) + RowUnmarked(b.cells[h - 1], b.width)
  }

  /** UnmarkedSum: the sum of the numbers not yet marked. */
  function Unmarked(b: Board): int
    requires Shaped(b)
  {
    UnmarkedRows(b, b.height)
  }

  /** How many unmarked entries among the first w of a row hold n. */
  function RowNewly(row: seq<Entry>, n: int, w: nat): nat
    requires w <= |row|
  {
    if w == 0 then 0
    else RowNewly(row, n, w - 1) + (if !row[w - 1].marked && row[w - 1].number == n then 1 else 0)
  }

  function NewlyRows(b: Board, n: int, h: nat): nat
    requires Shaped(b) && h <= b.height
  {
    if h == 0 then 0 else NewlyRows(b, n, h - 1) + RowNewly(b.cells[h - 1], n, b.width)
  }

  /** The entries that calling n newly marks. */
  function NewlyMarked(b: Board, n: int): nat
    requires Shaped(b)
  {
    NewlyRows(b, n, b.height)
  }

  lemma MulAdd(n: int, a: int, d: int)
    ensures n * (a + d) == n * a + n * d
  {
  }

  lemma {:induction false} RowUnmarkedAfterMark(row: seq<Entry>, n: int, w: nat)
    requires w <= |row|
    ensures RowUnmarked(MarkRow(row, n), w) == RowUnmarked(row, w) - n * RowNewly(row, n, w)
  {
    if w > 0 {
      RowUnmarkedAfterMark(row, n, w - 1);
      var a, d := RowNewly(row, n, w - 1), if !row[w - 1].marked && row[w - 1].number == n then 1 else 0;
      assert RowNewly(row, n, w) == a + d;
      MulAdd(n, a, d);
    }
  }

  lemma {:induction false} UnmarkedRowsAfterMark(b: Board, c: Board, n: int, h: nat)
    requires Shaped(b) && Shaped(c) && c.height == b.height && c.width == b.width && h <= b.height
    requires forall i :: 0 <= i < b.height ==> c.cells[i] == MarkRow(b.cells[i], n)
    ensures UnmarkedRows(c, h) == UnmarkedRows(b, h) - n * NewlyRows(b, n, h)
  {
    if h > 0 {
      UnmarkedRowsAfterMark(b, c, n, h - 1);
      RowUnmarkedAfterMark(b.cells[h - 1], n, b.width);
      var a, d := NewlyRows(b, n, h - 1), RowNewly(b.cells[h - 1], n, b.width);
      assert NewlyRows(b, n, h) == a + d;
      MulAdd(n, a, d);
    }
  }

  /** Calling n lowers the unmarked sum by n for every entry it marks. */
  lemma UnmarkedAfterMark(b: Board, n: int)
    requires Shaped(b)
    ensures Unmarked(Mark(b, n)) == Unmarked(b) - n * NewlyMarked(b, n)
  {
    UnmarkedRowsAfterMark(b, Mark(b, n), n, b.height);
  }

  // ---------------------------------------------------------------------
  // When a board wins

  /** The board is won once the numbers of rounds 0..k have been called. */
  predicate WonAfter(b: Board, draws: seq<int>, k: nat)
    requires Shaped(b) && k < |draws|
  {
    Won(MarkAll(b, draws[..k + 1]))
  }

  /** The first round k >= from after whose number the board is won. */
  function FirstWin(b: Board, draws: seq<int>, from: nat): (r: Option<nat>)
    requires Shaped(b)
    ensures r.Some? ==> from <= r.value < |draws| && WonAfter(b, draws, r.value)
    ensures r.Some? ==> forall k :: from <= k < r.value ==> !WonAfter(b, draws, k)
    ensures r.None? ==> forall k :: from <= k < |draws| ==> !WonAfter(b, draws, k)
    decreases |draws| - from
  {
    if from >= |draws| then None
    else if WonAfter(b, draws, from) then Some(from)
    else FirstWin(b, draws, from + 1)
  }

  /** The round in which a board that has not won yet becomes won; a board
      won before the game starts never wins a round. */
  function WinRound(b: Board, draws: seq<int>): (r: Option<nat>)
    requires Shaped(b)
    ensures r.Some? ==> r.value < |draws|
  {
    if Won(b) then None else FirstWin(b, draws, 0)
  }

  /** A board wins in round k iff it was not won, is won after the k-th
      number and not after any earlier one. */
  lemma WinRoundSpec(b: Board, draws: seq<int>, k: nat)
    requires Shaped(b)
    ensures WinRound(b, draws) == Some(k) <==>
      !Won(b) && k < |draws| && WonAfter(b, draws, k) &&
      forall k' :: 0 <= k' < k ==> !WonAfter(b, draws, k')
  {
    if !Won(b) && k < |draws| && WonAfter(b, draws, k) &&
       (forall k' :: 0 <= k' < k ==> !WonAfter(b, draws, k')) {
      var r := FirstWin(b, draws, 0);
      assert r.Some?;
      assert !(r.value < k);
      assert !(k < r.value);
    }
  }

  /** What FindWinningBoards has made of a board after r rounds: a board
      is marked with each round's number until it is won. */
  function StateAfter(b: Board, draws: seq<int>, r: nat): (s: Board)
    requires Shaped(b) && r <= |draws|
    ensures Shaped(s) && s.height == b.height && s.width == b.width
  {
    if r == 0 then b
    else
      var s := StateAfter(b, draws, r - 1);
      if Won(s) then s else Mark(s, draws[r - 1])
  }

  /** The state after r rounds in closed form: the board itself if it was
      won from the start, the board as it was when it won, or the board
      with every number called so far. */
  lemma {:induction false} StateAfterClosed(b: Board, draws: seq<int>, r: nat)
    requires Shaped(b) && r <= |draws|
    ensures StateAfter(b, draws, r) ==
      if Won(b) then b
      else if WinRound(b, draws).Some? && WinRound(b, draws).value < r then MarkAll(b, draws[..WinRound(b, draws).value + 1])
      else MarkAll(b, draws[..r])
  {
    if r == 0 {
      MarkAllNone(b, draws);
    } else {
      StateAfterClosed(b, draws, r - 1);
      var w := WinRound(b, draws);
      if Won(b) {
      } else if w.Some? && w.value < r - 1 {
        assert WonAfter(b, draws, w.value);
      } else {
        NotYetWon(b, draws, r - 1);
      }
    }
  }

  /** A board that has not won in the first r rounds is not won after them,
      and the next number wins it exactly when r is its winning round. */
  lemma NotYetWon(b: Board, draws: seq<int>, r: nat)
    requires Shaped(b) && r < |draws| && !Won(b)
    requires !(WinRound(b, draws).Some? && WinRound(b, draws).value < r)
    ensures !Won(MarkAll(b, draws[..r]))
    ensures Mark(MarkAll(b, draws[..r]), draws[r]) == MarkAll(b, draws[..r + 1])
    ensures Won(MarkAll(b, draws[..r + 1])) <==> WinRound(b, draws) == Some(r)
  {
    MarkAllStep(b, draws, r);
    if r > 0 {
      assert !WonAfter(b, draws, r - 1);
      assert draws[..r - 1 + 1] == draws[..r];
    } else {
      MarkAllNone(b, draws);
    }
    assert Won(MarkAll(b, draws[..r + 1])) <==> WonAfter(b, draws, r);
  }

  /** After r rounds a board is won iff it was won from the start or won
      in an earlier round. */
  lemma StateAfterWon(b: Board, draws: seq<int>, r: nat)
    requires Shaped(b) && r <= |draws|
    ensures Won(StateAfter(b, draws, r)) <==>
      Won(b) || (WinRound(b, draws).Some? && WinRound(b, draws).value < r)
  {
    StateAfterClosed(b, draws, r);
    var w := WinRound(b, draws);
    if !Won(b) && !(w.Some? && w.value < r) {
      if r > 0 {
        assert !WonAfter(b, draws, r - 1);
      } else {
        MarkAllNone(b, draws);
      }
    }
  }

  lemma StateAfterStart(b: Board, draws: seq<int>)
    requires Shaped(b)
    ensures StateAfter(b, draws, 0) == b
  {
  }

  /** A board that is not won after r rounds is won after round r iff r is
      its winning round. */
  lemma StateAfterStep(b: Board, draws: seq<int>, r: nat)
    requires Shaped(b) && r < |draws|
    ensures !Won(StateAfter(b, draws, r)) ==>
      (Won(StateAfter(b, draws, r + 1)) <==> WinRound(b, draws) == Some(r))
  {
    StateAfterWon(b, draws, r);
    StateAfterWon(b, draws, r + 1);
  }

  /** A won board is not marked again, so its state is final. */
  lemma {:induction false} StateAfterSettled(b: Board, draws: seq<int>, r: nat, R: nat)
    requires Shaped(b) && r <= R <= |draws| && Won(StateAfter(b, draws, r))
    ensures StateAfter(b, draws, R) == StateAfter(b, draws, r)
    decreases R
  {
    if R > r {
      StateAfterSettled(b, draws, r, R - 1);
    }
  }

  // ---------------------------------------------------------------------
  // The order in which boards win

  ghost predicate AllShaped(boards: seq<Board>)
  {
    forall i :: 0 <= i < |boards| ==> Shaped(boards[i])
  }

  /** The winning round of every board. */
  function Rounds(draws: seq<int>, boards: seq<Board>): (rounds: seq<Option<nat>>)
    requires AllShaped(boards)
    ensures |rounds| == |boards|
    ensures forall i :: 0 <= i < |boards| ==> rounds[i] == WinRound(boards[i], draws)
  {
    seq(|boards|, i requires 0 <= i < |boards| => WinRound(boards[i], draws))
  }

  /** Every board after r rounds of FindWinningBoards. Like the boards'
      other lists below, it is defined board by board, so that its
      elements are exposed only through the index lemmas. */
  function StatesAfter(init: seq<Board>, draws: seq<int>, r: nat): (ps: seq<Board>)
    requires AllShaped(init) && r <= |draws|
    ensures |ps| == |init|
  {
    if init == [] then []
    else StatesAfter(init[..|init| - 1], draws, r) + [StateAfter(init[|init| - 1], draws, r)]
  }

  lemma {:induction false} StatesAfterIndex(init: seq<Board>, draws: seq<int>, r: nat)
    requires AllShaped(init) && r <= |draws|
    ensures forall i :: 0 <= i < |init| ==> StatesAfter(init, draws, r)[i] == StateAfter(init[i], draws, r)
    decreases |init|
  {
    if init != [] {
      StatesAfterIndex(init[..|init| - 1], draws, r);
    }
  }

  /** The boards in the middle of round k: each of the first j has had
      its turn, in which number draws[k] is called on it unless it is won. */
  function Played(init: seq<Board>, draws: seq<int>, k: nat, j: nat): (ps: seq<Board>)
    requires AllShaped(init) && k < |draws| && j <= |init|
    ensures |ps| == |init|
  {
    if j == 0 then StatesAfter(init, draws, k)
    else Played(init, draws, k, j - 1)[j - 1 := StateAfter(init[j - 1], draws, k + 1)]
  }

  lemma {:induction false} PlayedIndex(init: seq<Board>, draws: seq<int>, k: nat, j: nat)
    requires AllShaped(init) && k < |draws| && j <= |init|
    ensures forall i :: 0 <= i < |init| ==>
      Played(init, draws, k, j)[i] == StateAfter(init[i], draws, if i < j then k + 1 else k)
  {
    if j == 0 {
      StatesAfterIndex(init, draws, k);
    } else {
      PlayedIndex(init, draws, k, j - 1);
    }
  }

  /** Board j's turn in round k: number draws[k] is called on it unless it
      is won already, and it is a new winner exactly if it wins round k. */
  lemma PlayedTurn(init: seq<Board>, draws: seq<int>, k: nat, j: nat)
    requires AllShaped(init) && k < |draws| && j < |init|
    ensures var s := StateAfter(init[j], draws, k);
      Played(init, draws, k, j)[j] == s &&
      Played(init, draws, k, j + 1) == Played(init, draws, k, j)[j := if Won(s) then s else Mark(s, draws[k])]
    ensures Played(init, draws, k, j + 1)[j] == StateAfter(init[j], draws, k + 1)
    ensures (!Won(StateAfter(init[j], draws, k)) && Won(StateAfter(init[j], draws, k + 1))) <==>
      Rounds(draws, init)[j] == Some(k)
  {
    PlayedIndex(init, draws, k, j);
    StateAfterStep(init[j], draws, k);
    StateAfterWon(init[j], draws, k);
  }

  /** A round ends with the states after it. */
  lemma PlayedEnds(init: seq<Board>, draws: seq<int>, k: nat)
    requires AllShaped(init) && k < |draws|
    ensures Played(init, draws, k, |init|) == StatesAfter(init, draws, k + 1)
  {
    PlayedIndex(init, draws, k, |init|);
    StatesAfterIndex(init, draws, k + 1);
  }

  /** The boards before the game starts. */
  lemma StatesAtStart(init: seq<Board>, draws: seq<int>)
    requires AllShaped(init)
    ensures StatesAfter(init, draws, 0) == init
  {
    StatesAfterIndex(init, draws, 0);
  }

  /** Every board with the first r numbers called. */
  function MarkedAll(init: seq<Board>, draws: seq<int>, r: nat): (ps: seq<Board>)
    requires AllShaped(init) && r <= |draws|
    ensures |ps| == |init|
  {
    if init == [] then []
    else MarkedAll(init[..|init| - 1], draws, r) + [MarkAll(init[|init| - 1], draws[..r])]
  }

  lemma {:induction false} MarkedAllIndex(init: seq<Board>, draws: seq<int>, r: nat)
    requires AllShaped(init) && r <= |draws|
    ensures forall i :: 0 <= i < |init| ==> MarkedAll(init, draws, r)[i] == MarkAll(init[i], draws[..r])
    decreases |init|
  {
    if init != [] {
      MarkedAllIndex(init[..|init| - 1], draws, r);
    }
  }

  /** Every board with the numbers of rounds 0..k-1 called, and round k
      called on the first j: the boards as Play leaves them. */
  function MarkedUpTo(init: seq<Board>, draws: seq<int>, k: nat, j: nat): (ps: seq<Board>)
    requires AllShaped(init) && k < |draws| && j <= |init|
    ensures |ps| == |init|
  {
    if j == 0 then MarkedAll(init, draws, k)
    else MarkedUpTo(init, draws, k, j - 1)[j - 1 := MarkAll(init[j - 1], draws[..k + 1])]
  }

  lemma {:induction false} MarkedUpToIndex(init: seq<Board>, draws: seq<int>, k: nat, j: nat)
    requires AllShaped(init) && k < |draws| && j <= |init|
    ensures forall i :: 0 <= i < |init| ==>
      MarkedUpTo(init, draws, k, j)[i] == MarkAll(init[i], draws[..if i < j then k + 1 else k])
  {
    if j == 0 {
      MarkedAllIndex(init, draws, k);
    } else {
      MarkedUpToIndex(init, draws, k, j - 1);
    }
  }

  /** Board j's turn in round k of Play: number draws[k] is called on it,
      and it wins exactly if it is won after round k. */
  lemma MarkedTurn(init: seq<Board>, draws: seq<int>, k: nat, j: nat)
    requires AllShaped(init) && k < |draws| && j < |init|
    ensures var s := MarkAll(init[j], draws[..k]);
      MarkedUpTo(init, draws, k, j)[j] == s &&
      MarkedUpTo(init, draws, k, j + 1) == MarkedUpTo(init, draws, k, j)[j := Mark(s, draws[k])] &&
      (Won(Mark(s, draws[k])) <==> WonAfter(init[j], draws, k))
  {
    MarkedUpToIndex(init, draws, k, j);
    MarkAllStep(init[j], draws, k);
  }

  /** A round of Play ends with the next number called on every board. */
  lemma MarkedEnds(init: seq<Board>, draws: seq<int>, k: nat)
    requires AllShaped(init) && k < |draws|
    ensures MarkedUpTo(init, draws, k, |init|) == MarkedAll(init, draws, k + 1)
  {
    MarkedUpToIndex(init, draws, k, |init|);
    MarkedAllIndex(init, draws, k + 1);
  }

  lemma MarkedAtStart(init: seq<Board>, draws: seq<int>)
    requires AllShaped(init)
    ensures MarkedAll(init, draws, 0) == init
  {
    MarkedAllIndex(init, draws, 0);
    forall i | 0 <= i < |init| ensures MarkAll(init[i], draws[..0]) == init[i] {
      MarkAllNone(init[i], draws);
    }
  }

  /** Every winning round is a round of the game. */
  ghost predicate RoundsIn(rounds: seq<Option<nat>>, n: nat)
  {
    forall i :: 0 <= i < |rounds| && rounds[i].Some? ==> rounds[i].value < n
  }

  /** The boards among the first j that win in round k, by board order,
      each with the number called in that round. */
  function RoundWinners(draws: seq<int>, rounds: seq<Option<nat>>, k: nat, j: nat): (r: seq<(nat, int)>)
    requires k < |draws| && j <= |rounds|
    ensures forall t :: 0 <= t < |r| ==> r[t].0 < j
    decreases j
  {
    if j == 0 then []
    else
      RoundWinners(draws, rounds, k, j - 1) +
      (if rounds[j - 1] == Some(k) then [(j - 1, draws[k])] else [])
  }

  /** The winners of the first k rounds, round by round. */
  function WinnersBefore(draws: seq<int>, rounds: seq<Option<nat>>, k: nat): (r: seq<(nat, int)>)
    requires k <= |draws|
    ensures forall t :: 0 <= t < |r| ==> r[t].0 < |rounds|
  {
    if k == 0 then [] else WinnersBefore(draws, rounds, k - 1) + RoundWinners(draws, rounds, k - 1, |rounds|)
  }

  /** Every board that wins in some round, by round and then by board. */
  function Winners(draws: seq<int>, boards: seq<Board>): seq<(nat, int)>
    requires AllShaped(boards)
  {
    WinnersBefore(draws, Rounds(draws, boards), |draws|)
  }

  /** Board p.0 wins, in the round that called p.1. */
  ghost predicate Listed(draws: seq<int>, rounds: seq<Option<nat>>, p: (nat, int))
  {
    p.0 < |rounds| && rounds[p.0].Some? && rounds[p.0].value < |draws| && p.1 == draws[rounds[p.0].value]
  }

  /** Every entry is a board with its winning number, ordered by the round
      it won in and then by its place among the boards. */
  ghost predicate InWinningOrder(draws: seq<int>, rounds: seq<Option<nat>>, ws: seq<(nat, int)>)
  {
    (forall t :: 0 <= t < |ws| ==> Listed(draws, rounds, ws[t])) &&
    forall s, t :: 0 <= s < t < |ws| ==>
      rounds[ws[s].0].value < rounds[ws[t].0].value ||
      (rounds[ws[s].0].value == rounds[ws[t].0].value && ws[s].0 < ws[t].0)
  }

  lemma {:induction false} RoundWinnersOrder(draws: seq<int>, rounds: seq<Option<nat>>, k: nat, j: nat)
    requires k < |draws| && j <= |rounds|
    ensures InWinningOrder(draws, rounds, RoundWinners(draws, rounds, k, j))
    ensures forall t :: 0 <= t < |RoundWinners(draws, rounds, k, j)| ==>
      rounds[RoundWinners(draws, rounds, k, j)[t].0] == Some(k) && RoundWinners(draws, rounds, k, j)[t].0 < j
  {
    if j > 0 {
      RoundWinnersOrder(draws, rounds, k, j - 1);
    }
  }

  lemma {:induction false} WinnersBeforeOrder(draws: seq<int>, rounds: seq<Option<nat>>, k: nat)
    requires k <= |draws|
    ensures InWinningOrder(draws, rounds, WinnersBefore(draws, rounds, k))
    ensures forall t :: 0 <= t < |WinnersBefore(draws, rounds, k)| ==>
      rounds[WinnersBefore(draws, rounds, k)[t].0].value < k
  {
    if k > 0 {
      var before, now := WinnersBefore(draws, rounds, k - 1), RoundWinners(draws, rounds, k - 1, |rounds|);
      WinnersBeforeOrder(draws, rounds, k - 1);
      RoundWinnersOrder(draws, rounds, k - 1, |rounds|);
      OrderAppend(draws, rounds, before, now, k - 1);
    }
  }

  /** The winners of the rounds before k followed by those of round k are
      still in winning order. */
  lemma OrderAppend(draws: seq<int>, rounds: seq<Option<nat>>, before: seq<(nat, int)>, now: seq<(nat, int)>, k: nat)
    requires InWinningOrder(draws, rounds, before) && InWinningOrder(draws, rounds, now)
    requires forall t :: 0 <= t < |before| ==> rounds[before[t].0].value < k
    requires forall t :: 0 <= t < |now| ==> rounds[now[t].0] == Some(k)
    ensures InWinningOrder(draws, rounds, before + now)
    ensures forall t :: 0 <= t < |before + now| ==> rounds[(before + now)[t].0].value < k + 1
  {
    var ws := before + now;
    forall t | 0 <= t < |ws|
      ensures Listed(draws, rounds, ws[t]) && rounds[ws[t].0].value <= k
      ensures t < |before| ==> ws[t] == before[t] && rounds[ws[t].0].value < k
      ensures t >= |before| ==> ws[t] == now[t - |before|] && rounds[ws[t].0].value == k
    {
    }
  }

  /** The winners are listed in winning order, so no board twice. */
  lemma WinnersInOrder(draws: seq<int>, boards: seq<Board>)
    requires AllShaped(boards)
    ensures InWinningOrder(draws, Rounds(draws, boards), Winners(draws, boards))
    ensures forall s, t :: 0 <= s < t < |Winners(draws, boards)| ==>
      Winners(draws, boards)[s].0 != Winners(draws, boards)[t].0
  {
    WinnersBeforeOrder(draws, Rounds(draws, boards), |draws|);
  }

  lemma {:induction false} RoundWinnersComplete(draws: seq<int>, rounds: seq<Option<nat>>, k: nat, j: nat, i: nat)
    requires k < |draws| && i < j <= |rounds| && rounds[i] == Some(k)
    ensures (i, draws[k]) in RoundWinners(draws, rounds, k, j)
  {
    if i < j - 1 {
      RoundWinnersComplete(draws, rounds, k, j - 1, i);
    }
  }

  lemma {:induction false} WinnersBeforeComplete(draws: seq<int>, rounds: seq<Option<nat>>, k: nat, i: nat)
    requires k <= |draws| && i < |rounds| && rounds[i].Some? && rounds[i].value < k
    ensures (i, draws[rounds[i].value]) in WinnersBefore(draws, rounds, k)
  {
    if rounds[i].value == k - 1 {
      RoundWinnersComplete(draws, rounds, k - 1, |rounds|, i);
    } else {
      WinnersBeforeComplete(draws, rounds, k - 1, i);
    }
  }

  /** Every board that wins some round is among the winners, with the
      number that completed it. */
  lemma WinnersComplete(draws: seq<int>, boards: seq<Board>, i: nat)
    requires AllShaped(boards) && i < |boards| && WinRound(boards[i], draws).Some?
    ensures (i, draws[WinRound(boards[i], draws).value]) in Winners(draws, boards)
  {
    WinnersBeforeComplete(draws, Rounds(draws, boards), |draws|, i);
  }

  /** No board among j..J-1 wins round k. */
  lemma {:induction false} RoundWinnersTail(draws: seq<int>, rounds: seq<Option<nat>>, k: nat, j: nat, J: nat)
    requires k < |draws| && j <= J <= |rounds|
    requires forall i :: j <= i < J ==> rounds[i] != Some(k)
    ensures RoundWinners(draws, rounds, k, J) == RoundWinners(draws, rounds, k, j)
    decreases J
  {
    if J > j {
      RoundWinnersTail(draws, rounds, k, j, J - 1);
    }
  }

  /** No board wins any of the rounds k..K-1. */
  lemma {:induction false} WinnersBeforeTail(draws: seq<int>, rounds: seq<Option<nat>>, k: nat, K: nat)
    requires k <= K <= |draws|
    requires RoundsIn(rounds, k)
    ensures WinnersBefore(draws, rounds, K) == WinnersBefore(draws, rounds, k)
    decreases K - k
  {
    if K > k {
      WinnersBeforeTail(draws, rounds, k + 1, K);
      WinnersBeforeSkip(draws, rounds, k);
    }
  }

  /** A round in which no board wins adds no winner. */
  lemma WinnersBeforeSkip(draws: seq<int>, rounds: seq<Option<nat>>, k: nat)
    requires k < |draws| && RoundsIn(rounds, k)
    ensures WinnersBefore(draws, rounds, k + 1) == WinnersBefore(draws, rounds, k)
  {
    RoundWinnersTail(draws, rounds, k, 0, |rounds|);
    assert WinnersBefore(draws, rounds, k) + [] == WinnersBefore(draws, rounds, k);
  }

  /** Once every board is won in the middle of round k, no board wins a
      later round and each state is final. */
  lemma Settled(draws: seq<int>, init: seq<Board>, k: nat, j: nat)
    requires AllShaped(init) && k < |draws| && j <= |init|
    requires forall i :: 0 <= i < |init| ==> Won(StateAfter(init[i], draws, if i < j then k + 1 else k))
    ensures forall i :: 0 <= i < |init| ==>
      Rounds(draws, init)[i].None? || Rounds(draws, init)[i].value < (if i < j then k + 1 else k)
    ensures Played(init, draws, k, j) == StatesAfter(init, draws, |draws|)
  {
    PlayedIndex(init, draws, k, j);
    StatesAfterIndex(init, draws, |draws|);
    forall i | 0 <= i < |init|
      ensures WinRound(init[i], draws).None? || WinRound(init[i], draws).value < (if i < j then k + 1 else k)
      ensures StateAfter(init[i], draws, |draws|) == Played(init, draws, k, j)[i]
    {
      StateAfterWon(init[i], draws, if i < j then k + 1 else k);
      StateAfterSettled(init[i], draws, if i < j then k + 1 else k, |draws|);
    }
  }

  /** Once no board can win round k after board j - 1 or any later round,
      no later board or round adds a winner. */
  lemma WinnersSettled(draws: seq<int>, rounds: seq<Option<nat>>, k: nat, j: nat)
    requires k < |draws| && j <= |rounds|
    requires forall i :: 0 <= i < |rounds| ==> rounds[i].None? || rounds[i].value < (if i < j then k + 1 else k)
    ensures WinnersBefore(draws, rounds, |draws|) ==
      WinnersBefore(draws, rounds, k) + RoundWinners(draws, rounds, k, j)
  {
    WinnersBeforeTail(draws, rounds, k + 1, |draws|);
    RoundWinnersTail(draws, rounds, k, j, |rounds|);
  }

  // ---------------------------------------------------------------------
  // Play

  /** No board is won after any of the rounds before k. */
  ghost predicate NoneWonBefore(draws: seq<int>, boards: seq<Board>, k: nat)
    requires AllShaped(boards) && k <= |draws|
  {
    forall k', i :: 0 <= k' < k && 0 <= i < |boards| ==> !WonAfter(boards[i], draws, k')
  }

  /** None of the first i boards is won after round k. */
  ghost predicate NoneWonIn(draws: seq<int>, boards: seq<Board>, k: nat, i: nat)
    requires AllShaped(boards) && k < |draws| && i <= |boards|
  {
    forall i' :: 0 <= i' < i ==> !WonAfter(boards[i'], draws, k)
  }

  /** Board i in round k is the first win when every number is marked on
      every board, by round and then by board. */
  ghost predicate FirstToWin(draws: seq<int>, boards: seq<Board>, k: nat, i: nat)
    requires AllShaped(boards)
  {
    k < |draws| && i < |boards| && WonAfter(boards[i], draws, k) &&
    NoneWonBefore(draws, boards, k) && NoneWonIn(draws, boards, k, i)
  }

  /** A round in which no board is won adds to the rounds without a win. */
  lemma NoneWonNext(draws: seq<int>, boards: seq<Board>, k: nat)
    requires AllShaped(boards) && k < |draws|
    requires NoneWonBefore(draws, boards, k) && NoneWonIn(draws, boards, k, |boards|)
    ensures NoneWonBefore(draws, boards, k + 1)
  {
  }

  // ---------------------------------------------------------------------
  // The games' progress, on the boards' values

  /** FindWinningBoards after k rounds: board i is in state
      StateAfter(init[i], draws, k); rounds holds the round in which each
      board wins. */
  ghost predicate AfterRoundsOf(draws: seq<int>, init: seq<Board>, rounds: seq<Option<nat>>, k: nat, ms: seq<Board>)
  {
    AllShaped(init) && k <= |draws| && rounds == Rounds(draws, init) && ms == StatesAfter(init, draws, k)
  }

  /** FindWinningBoards in round k, after the turns of the first j boards. */
  ghost predicate InRoundOf(draws: seq<int>, init: seq<Board>, rounds: seq<Option<nat>>, k: nat, j: nat, ms: seq<Board>)
  {
    AllShaped(init) && k < |draws| && j <= |init| && rounds == Rounds(draws, init) && ms == Played(init, draws, k, j)
  }

  /** Play after k rounds without a winner: every board has the first k
      numbers called. */
  ghost predicate CalledOf(draws: seq<int>, init: seq<Board>, k: nat, ms: seq<Board>)
  {
    AllShaped(init) && k <= |draws| && ms == MarkedAll(init, draws, k) && NoneWonBefore(draws, init, k)
  }

  /** Play in round k, after the turns of the first j boards, none of
      which won. */
  ghost predicate CallingOf(draws: seq<int>, init: seq<Board>, k: nat, j: nat, ms: seq<Board>)
  {
    AllShaped(init) && k < |draws| && j <= |init| && ms == MarkedUpTo(init, draws, k, j) &&
    NoneWonBefore(draws, init, k) && NoneWonIn(draws, init, k, j)
  }

  /** How a round of Play ends: with the first win, or with none and every
      board marked with the round's number. */
  ghost predicate RoundOutcomeOf(draws: seq<int>, init: seq<Board>, k: nat, winner: Option<nat>, ms: seq<Board>)
  {
    AllShaped(init) &&
    if winner.Some? then
      FirstToWin(draws, init, k, winner.value) && ms == MarkedUpTo(init, draws, k, winner.value + 1)
    else CalledOf(draws, init, k + 1, ms)
  }

  /** How board j's turn in round k of Play ends: with the first win, or
      with none and the turn taken. */
  ghost predicate TurnOutcomeOf(draws: seq<int>, init: seq<Board>, k: nat, j: nat, won: bool, ms: seq<Board>)
  {
    AllShaped(init) &&
    if won then FirstToWin(draws, init, k, j) && ms == MarkedUpTo(init, draws, k, j + 1)
    else CallingOf(draws, init, k, j + 1, ms)
  }

  /** Board j's turn in round k of FindWinningBoards, on the values. */
  lemma InRoundTurn(draws: seq<int>, init: seq<Board>, rounds: seq<Option<nat>>, k: nat, j: nat, ms: seq<Board>)
    requires InRoundOf(draws, init, rounds, k, j, ms) && j < |init|
    ensures Shaped(ms[j])
    ensures var s := ms[j]; var t := if Won(s) then s else Mark(s, draws[k]);
      InRoundOf(draws, init, rounds, k, j + 1, ms[j := t]) &&
      ((!Won(s) && Won(t)) <==> rounds[j] == Some(k))
  {
    PlayedTurn(init, draws, k, j);
  }

  /** Board j's turn in round k of Play, on the values: a win is the
      first one, and otherwise the game goes on. */
  lemma CallingTurn(draws: seq<int>, init: seq<Board>, k: nat, j: nat, ms: seq<Board>)
    requires CallingOf(draws, init, k, j, ms) && j < |init|
    ensures Shaped(ms[j])
    ensures ms[j := Mark(ms[j], draws[k])] == MarkedUpTo(init, draws, k, j + 1)
    ensures Won(Mark(ms[j], draws[k])) ==> FirstToWin(draws, init, k, j)
    ensures !Won(Mark(ms[j], draws[k])) ==> CallingOf(draws, init, k, j + 1, ms[j := Mark(ms[j], draws[k])])
  {
    MarkedTurn(init, draws, k, j);
  }
}
