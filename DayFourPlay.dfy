/** The two bingo games over a list of boards, proved to list the winners
    that the value functions of module DayFour describe. Each loop of the
    games is a method of its own, and each keeps one of the predicates
    AfterRounds, InRound, Called and Calling of module DayFourGame. */
module DayFourPlay {
  import opened Common
  import opened DayFour
  import opened DayFourGame

  // ---------------------------------------------------------------------
  // FindWinningBoards

  /** FindWinningBoards: the numbers are called in order; each board not
      won yet is marked, a board that becomes won is recorded with the
      number, and the game stops as soon as every board is won. */
  method FindWinningBoards(data: BingoData) returns (winners: seq<WinningBoard>)
    requires Separate(data.boards)
    modifies Footprint(data.boards)
    ensures Separate(data.boards)
    ensures winners == Report(data.boards, Winners(data.gameNumbers, old(Models(data.boards))))
    ensures Models(data.boards) == StatesAfter(old(Models(data.boards)), data.gameNumbers, |data.gameNumbers|)
  {
    var draws, boards := data.gameNumbers, data.boards;
    ghost var init := Models(boards);
    ghost var rounds := Rounds(draws, init);
    winners := [];
    StatesAtStart(init, draws);
    assert AfterRounds(boards, draws, 0, winners, init, rounds);
    for k := 0 to |draws|
      invariant AfterRounds(boards, draws, k, winners, init, rounds)
    {
      var done;
      winners, done := FindRound(boards, draws, k, winners, init, rounds);
      if done {
        return;
      }
    }
  }

  /** One round of FindWinningBoards: number draws[k] is called on every
      board not won yet; done says that every board was won, at which point
      the game ends. */
  method FindRound(boards: seq<BingoBoard>, draws: seq<int>, k: nat, winners0: seq<WinningBoard>,
                   ghost init: seq<Board>, ghost rounds: seq<Option<nat>>)
    returns (winners: seq<WinningBoard>, done: bool)
    requires AfterRounds(boards, draws, k, winners0, init, rounds) && k < |draws|
    modifies Footprint(boards)
    ensures AfterRounds(boards, draws, if done then |draws| else k + 1, winners, init, rounds)
  {
    winners, done := winners0, false;
    RoundStarts(boards, draws, k, winners, init, rounds);
    for j := 0 to |boards|
      invariant InRound(boards, draws, k, j, winners, init, rounds)
    {
      var won;
      won, winners := FindStep(boards, draws, k, j, winners, init, rounds);
      if won {
        done := AllDone(boards, draws, k, j + 1, winners, init, rounds);
        if done {
          return;
        }
      }
    }
    RoundEnds(boards, draws, k, winners, init, rounds);
  }

  /** Board j in round k of FindWinningBoards: marked if not won yet, and
      recorded if that wins it. */
  method FindStep(boards: seq<BingoBoard>, draws: seq<int>, k: nat, j: nat, winners0: seq<WinningBoard>,
                  ghost init: seq<Board>, ghost rounds: seq<Option<nat>>)
    returns (won: bool, winners: seq<WinningBoard>)
    requires InRound(boards, draws, k, j, winners0, init, rounds) && j < |boards|
    modifies boards[j], boards[j].numbers
    ensures InRound(boards, draws, k, j + 1, winners, init, rounds)
  {
    InRoundTurn(draws, init, rounds, k, j, Models(boards));
    ReportStep(boards, draws, rounds, k, j);
    won := TakeTurn(boards, j, draws[k]);
    winners := if won then winners0 + [WinningBoard(boards[j], draws[k])] else winners0;
  }

  /** The test whether every board is won, after board j - 1 became won
      in round k: then no board wins a later turn and the game is over. */
  method AllDone(boards: seq<BingoBoard>, draws: seq<int>, k: nat, j: nat, winners: seq<WinningBoard>,
                 ghost init: seq<Board>, ghost rounds: seq<Option<nat>>) returns (all: bool)
    requires InRound(boards, draws, k, j, winners, init, rounds)
    ensures InRound(boards, draws, k, j, winners, init, rounds)
    ensures all ==> AfterRounds(boards, draws, |draws|, winners, init, rounds)
  {
    all := AllWon(boards, Played(init, draws, k, j));
    if all {
      PlayedIndex(init, draws, k, j);
      Settled(draws, init, k, j);
      WinnersSettled(draws, rounds, k, j);
    }
  }

  lemma RoundStarts(boards: seq<BingoBoard>, draws: seq<int>, k: nat, winners: seq<WinningBoard>,
                    init: seq<Board>, rounds: seq<Option<nat>>)
    requires AfterRounds(boards, draws, k, winners, init, rounds) && k < |draws|
    ensures InRound(boards, draws, k, 0, winners, init, rounds)
  {
    assert WinnersBefore(draws, rounds, k) + RoundWinners(draws, rounds, k, 0) == WinnersBefore(draws, rounds, k);
  }

  lemma RoundEnds(boards: seq<BingoBoard>, draws: seq<int>, k: nat, winners: seq<WinningBoard>,
                  init: seq<Board>, rounds: seq<Option<nat>>)
    requires InRound(boards, draws, k, |boards|, winners, init, rounds)
    ensures AfterRounds(boards, draws, k + 1, winners, init, rounds)
  {
    PlayedEnds(init, draws, k);
  }

  /** The records after board j's turn in round k. */
  lemma ReportStep(boards: seq<BingoBoard>, draws: seq<int>, rounds: seq<Option<nat>>, k: nat, j: nat)
    requires |rounds| == |boards| && k < |draws| && j < |boards|
    ensures Report(boards, WinnersBefore(draws, rounds, k) + RoundWinners(draws, rounds, k, j + 1)) ==
      Report(boards, WinnersBefore(draws, rounds, k) + RoundWinners(draws, rounds, k, j)) +
      (if rounds[j] == Some(k) then [WinningBoard(boards[j], draws[k])] else [])
  {
    var listed := WinnersBefore(draws, rounds, k) + RoundWinners(draws, rounds, k, j);
    if rounds[j] == Some(k) {
      assert listed + [(j, draws[k])] == WinnersBefore(draws, rounds, k) + RoundWinners(draws, rounds, k, j + 1);
      ReportAppend(boards, listed, (j, draws[k]));
    } else {
      assert listed + [] == listed;
    }
  }

  // ---------------------------------------------------------------------
  // Play

  /** Play: every board is marked with every called number until the first
      board that is won, which is returned with the number; null when no
      board ever wins. */
  method Play(data: BingoData) returns (r: Option<WinningBoard>)
    requires Separate(data.boards)
    modifies Footprint(data.boards)
    ensures Separate(data.boards)
    ensures r.Some? ==> exists k: nat, i: nat ::
      FirstToWin(data.gameNumbers, old(Models(data.boards)), k, i) &&
      r.value == WinningBoard(data.boards[i], data.gameNumbers[k]) &&
      Models(data.boards) == MarkedUpTo(old(Models(data.boards)), data.gameNumbers, k, i + 1)
    ensures r.None? ==> NoneWonBefore(data.gameNumbers, old(Models(data.boards)), |data.gameNumbers|)
    ensures r.None? ==> Models(data.boards) == MarkedAll(old(Models(data.boards)), data.gameNumbers, |data.gameNumbers|)
  {
    var draws, boards := data.gameNumbers, data.boards;
    ghost var init := Models(boards);
    MarkedAtStart(init, draws);
    assert Called(boards, draws, 0, init);
    for k := 0 to |draws|
      invariant Called(boards, draws, k, init)
    {
      var winner := PlayRound(boards, draws, k, init);
      if winner.Some? {
        return Some(WinningBoard(boards[winner.value], draws[k]));
      }
    }
    return None;
  }

  /** One round of Play: draws[k] is called on every board in turn until
      one of them is won. */
  method PlayRound(boards: seq<BingoBoard>, draws: seq<int>, k: nat, ghost init: seq<Board>)
    returns (winner: Option<nat>)
    requires Called(boards, draws, k, init) && k < |draws|
    modifies Footprint(boards)
    ensures RoundOutcome(boards, draws, k, winner, init)
  {
    for j := 0 to |boards|
      invariant Calling(boards, draws, k, j, init)
    {
      var won := PlayTurn(boards, draws, k, j, init);
      if won {
        return Some(j);
      }
    }
    CallEnds(boards, draws, k, init);
    return None;
  }

  /** Board j's turn in round k of Play. */
  method PlayTurn(boards: seq<BingoBoard>, draws: seq<int>, k: nat, j: nat, ghost init: seq<Board>)
    returns (won: bool)
    requires Calling(boards, draws, k, j, init) && j < |boards|
    modifies boards[j], boards[j].numbers
    ensures TurnOutcome(boards, draws, k, j, won, init)
  {
    CallingTurn(draws, init, k, j, Models(boards));
    MarkOne(boards, j, draws[k]);
    won := boards[j].IsWon();
  }

  lemma CallEnds(boards: seq<BingoBoard>, draws: seq<int>, k: nat, init: seq<Board>)
    requires Calling(boards, draws, k, |boards|, init)
    ensures Called(boards, draws, k + 1, init)
  {
    MarkedEnds(init, draws, k);
    NoneWonNext(draws, init, k);
  }
}
