/** Dirac Dice: two pawns go round a ring of ten spaces, each turn the
    player to move rolls three times, advances by the sum and scores the
    number of the space it lands on. Part one plays with a deterministic
    hundred-sided die; part two counts the universes each player wins in
    when every roll splits the world into three, with a memo of known
    outcomes keyed by the game state. */
module Day21 {
  import opened Common

  const BoardSpots := 10
  const DiceSides := 100
  const PlayerCount := 2
  const DiceRolls := 3
  const WinningPoints := 21

  /** GameState: positions 0..9 (the board's space minus one), scores, whose
      turn it is and how many times the die has been rolled. */
  datatype GameState = GameState(
    p1Position: int, p2Position: int,
    p1Score: int, p2Score: int,
    currentTurn: int, rollCount: int)

  /** The state Process starts from, for starting spaces 1..10. */
  function Start(p1Space: int, p2Space: int): (s: GameState)
    ensures s.p1Score == 0 && s.p2Score == 0 && s.currentTurn == 0 && s.rollCount == 0
    ensures 1 <= p1Space <= BoardSpots && 1 <= p2Space <= BoardSpots ==> OnBoard(s)
  {
    GameState(p1Space - 1, p2Space - 1, 0, 0, 0, 0)
  }

  predicate OnBoard(s: GameState)
  {
    0 <= s.p1Position < BoardSpots && 0 <= s.p2Position < BoardSpots
  }

  /** One turn, as TakeTurn and DoNdRollsComplete both compute it: the
      player whose turn it is (player 1 when CurrentTurn is 0) advances by
      rollsSum, wrapping with C#'s remainder, and scores the space landed
      on; the turn passes on and the roll count is set to rollCount. */
  function Advance(s: GameState, rollsSum: int, rollCount: int): GameState
  {
    var nextTurn := TruncRem(s.currentTurn + 1, PlayerCount);
    if s.currentTurn == 0 then
      var pos := TruncRem(s.p1Position + rollsSum, BoardSpots);
      GameState(pos, s.p2Position, s.p1Score + pos + 1, s.p2Score, nextTurn, rollCount)
    else
      var pos := TruncRem(s.p2Position + rollsSum, BoardSpots);
      GameState(s.p1Position, pos, s.p1Score, s.p2Score + pos + 1, nextTurn, rollCount)
  }

  /** A turn moves only the player whose turn it is, by rollsSum spaces
      round the ring, and adds the new space's number to that player's
      score; the turn alternates between 0 and 1. */
  lemma AdvanceMovesMover(s: GameState, rollsSum: int, rollCount: int)
    requires OnBoard(s) && rollsSum >= 0
    ensures var r := Advance(s, rollsSum, rollCount);
      OnBoard(r) && r.rollCount == rollCount &&
      (s.currentTurn == 0 ==>
        r.p1Position == (s.p1Position + rollsSum) % BoardSpots &&
        r.p1Score == s.p1Score + r.p1Position + 1 &&
        r.p2Position == s.p2Position && r.p2Score == s.p2Score) &&
      (s.currentTurn != 0 ==>
        r.p2Position == (s.p2Position + rollsSum) % BoardSpots &&
        r.p2Score == s.p2Score + r.p2Position + 1 &&
        r.p1Position == s.p1Position && r.p1Score == s.p1Score) &&
      (s.currentTurn == 0 ==> r.currentTurn == 1) &&
      (s.currentTurn == 1 ==> r.currentTurn == 0)
  {
    TruncAgreesOnNonNegative(s.p1Position + rollsSum, BoardSpots);
    TruncAgreesOnNonNegative(s.p2Position + rollsSum, BoardSpots);
    if s.currentTurn >= 0 {
      TruncAgreesOnNonNegative(s.currentTurn + 1, PlayerCount);
    }
  }

  /** Each turn on the board raises the mover's score by 1 to 10 and leaves
      the other score alone, so the scores never fall. */
  lemma AdvanceScores(s: GameState, rollsSum: int, rollCount: int)
    requires OnBoard(s) && rollsSum >= 0
    ensures var r := Advance(s, rollsSum, rollCount);
      s.p1Score <= r.p1Score && s.p2Score <= r.p2Score &&
      1 <= (r.p1Score - s.p1Score) + (r.p2Score - s.p2Score) <= BoardSpots
  {
    AdvanceMovesMover(s, rollsSum, rollCount);
  }

  predicate IsGameOver(s: GameState)
  {
    s.p1Score >= WinningPoints || s.p2Score >= WinningPoints
  }

  /** GetWinner: (score, player) of the player with the strictly higher
      score; a tie goes to player 2 (index 1). */
  function GetWinner(s: GameState): (w: (int, int))
    ensures w.1 == 0 <==> s.p1Score > s.p2Score
    ensures w.1 == 1 <==> s.p1Score <= s.p2Score
    ensures w.0 == (if w.1 == 0 then s.p1Score else s.p2Score)
    ensures w.0 >= s.p1Score && w.0 >= s.p2Score
  {
    if s.p1Score > s.p2Score then (s.p1Score, 0) else (s.p2Score, 1)
  }

  /** GetLoser as written: on a strictly lower first score it pairs
      player 1's score with index 1, and otherwise player 2's score with
      index 0, so the index is that of the other player. */
  function GetLoser(s: GameState): (l: (int, int))
    ensures l.0 == (if l.1 == 1 then s.p1Score else s.p2Score)
    ensures l.0 <= s.p1Score && l.0 <= s.p2Score
  {
    if s.p1Score < s.p2Score then (s.p1Score, 1) else (s.p2Score, 0)
  }

  /** With 5 points to 21 GetLoser names player 2, the winner. */
  lemma LoserIsWinner()
    ensures var s := GameState(0, 0, 5, 21, 0, 0);
      GetLoser(s) == (5, 1) && GetWinner(s) == (21, 1) && GetLoser(s).1 == GetWinner(s).1
  {
  }

  /** The loser as GetWinner's tie rule implies: player 1 (index 0) unless
      player 1's score is strictly higher. */
  function ScoreOfLoser(s: GameState): (l: (int, int))
    ensures l.1 == 0 <==> s.p1Score <= s.p2Score
    ensures l.0 == (if l.1 == 0 then s.p1Score else s.p2Score)
  {
    if s.p1Score <= s.p2Score then (s.p1Score, 0) else (s.p2Score, 1)
  }

  /** The corrected loser is always the other player than the winner, with
      a score no higher than the winner's. */
  lemma WinnerIsNotLoser(s: GameState)
    ensures GetWinner(s).1 != ScoreOfLoser(s).1
    ensures ScoreOfLoser(s).0 <= GetWinner(s).0
    ensures ScoreOfLoser(s).0 == if s.p1Score <= s.p2Score then s.p1Score else s.p2Score
  {
  }

  // ---------------------------------------------------------------------
  // Part one: the deterministic die

  /** The value shown by the k-th roll (from 0) of a die with the given
      number of sides: it starts at 1, goes up by one and comes back to 1
      after the last side. */
  function RollAt(sides: int, k: nat): int
  {
    if k == 0 then 1
    else if RollAt(sides, k - 1) + 1 > sides then 1
    else RollAt(sides, k - 1) + 1
  }

  /** The first round shows 1, 2, ..., sides; a die with fewer than one
      side always shows 1. */
  lemma {:induction false} RollAtFirstRound(sides: int, k: nat)
    ensures k < sides ==> RollAt(sides, k) == k + 1
    ensures sides <= 1 ==> RollAt(sides, k) == 1
    ensures 1 <= RollAt(sides, k) && (sides >= 1 ==> RollAt(sides, k) <= sides)
  {
    if k > 0 {
      RollAtFirstRound(sides, k - 1);
    }
  }

  /** After a full round of sides rolls the die shows the same again. */
  lemma {:induction false} RollAtPeriodic(sides: int, k: nat)
    requires sides >= 1
    ensures RollAt(sides, k + sides) == RollAt(sides, k)
  {
    if k == 0 {
      RollAtFirstRound(sides, sides - 1);
    } else {
      RollAtPeriodic(sides, k - 1);
    }
  }

  /** DeterministicDice: the next value to show and how many rolls so far. */
  class DeterministicDice {
    var nextRoll: int
    const sides: int
    ghost var rolled: nat

    ghost predicate Valid()
      reads this
    {
      nextRoll == RollAt(sides, rolled)
    }

    constructor (sides: int)
      ensures Valid() && this.sides == sides && rolled == 0
    {
      this.sides := sides;
      nextRoll := 1;
      rolled := 0;
    }

    /** Roll: shows the next value of the sequence 1, 2, ..., sides, 1, ... */
    method Roll() returns (v: int)
      requires Valid()
      modifies this
      ensures Valid() && rolled == old(rolled) + 1
      ensures v == RollAt(sides, old(rolled))
    {
      v := nextRoll;
      nextRoll := nextRoll + 1;
      if nextRoll > sides {
        nextRoll := 1;
      }
      rolled := rolled + 1;
    }
  }

  /** GameRoll: three rolls of the die, in order. */
  method GameRoll(dice: DeterministicDice) returns (rolls: seq<int>)
    requires dice.Valid()
    modifies dice
    ensures dice.Valid() && dice.rolled == old(dice.rolled) + DiceRolls
    ensures |rolls| == DiceRolls
    ensures forall i :: 0 <= i < |rolls| ==> rolls[i] == RollAt(dice.sides, old(dice.rolled) + i)
  {
    rolls := [];
    for i := 0 to DiceRolls
      invariant dice.Valid() && dice.rolled == old(dice.rolled) + i
      invariant |rolls| == i
      invariant forall j :: 0 <= j < i ==> rolls[j] == RollAt(dice.sides, old(dice.rolled) + j)
    {
      var v := dice.Roll();
      rolls := rolls + [v];
    }
  }

  /** The sum of three consecutive rolls from the k-th. */
  function ThreeRolls(sides: int, k: nat): int
  {
    RollAt(sides, k) + RollAt(sides, k + 1) + RollAt(sides, k + 2)
  }

  /** TakeTurn: one turn of part one with the next three rolls of the die,
      adding the three rolls to the roll count. */
  method TakeTurn(s: GameState, dice: DeterministicDice) returns (r: GameState)
    requires dice.Valid()
    modifies dice
    ensures dice.Valid() && dice.rolled == old(dice.rolled) + DiceRolls
    ensures r == Advance(s, ThreeRolls(dice.sides, old(dice.rolled)), s.rollCount + DiceRolls)
  {
    var rolls := GameRoll(dice);
    ThreeRollsSum(rolls);
    r := Advance(s, Sum(rolls), s.rollCount + DiceRolls);
  }

  // ---------------------------------------------------------------------
  // Part two: counting universes

  /** NonDeterministicGameOutcomes: in how many universes each player wins. */
  datatype Outcomes = Outcomes(p1Wins: int, p2Wins: int)

  /** A fresh NonDeterministicGameOutcomes. */
  const NoOutcomes := Outcomes(0, 0)

  /** Add, the static one and the instance one alike: componentwise sums. */
  function Add(first: Outcomes, second: Outcomes): Outcomes
  {
    Outcomes(first.p1Wins + second.p1Wins, first.p2Wins + second.p2Wins)
  }

  /** Adding outcomes is a commutative monoid with a fresh outcome as unit. */
  lemma AddMonoid(a: Outcomes, b: Outcomes, c: Outcomes)
    ensures Add(a, b) == Add(b, a)
    ensures Add(Add(a, b), c) == Add(a, Add(b, c))
    ensures Add(NoOutcomes, a) == a
  {
  }

  /** k copies of o added together. */
  function Times(k: nat, o: Outcomes): (r: Outcomes)
    ensures r.p1Wins == k * o.p1Wins && r.p2Wins == k * o.p2Wins
  {
    if k == 0 then NoOutcomes else Add(Times(k - 1, o), o)
  }

  /** The single universe a finished game counts: one win, to the winner. */
  function WinOf(s: GameState): Outcomes
  {
    if GetWinner(s).1 == 0 then Outcomes(1, 0) else Outcomes(0, 1)
  }

  /** How far from over a game is: the two scores' distance to 42 while
      neither has reached 21, and 0 once the game is over. */
  function Measure(s: GameState): nat
  {
    if IsGameOver(s) then 0 else 2 * WinningPoints - s.p1Score - s.p2Score
  }

  /** In how many of the 27 ways three rolls of a three-sided die can come
      up their sum is t. */
  function Ways(t: int): nat
  {
    if t == 3 || t == 9 then 1
    else if t == 4 || t == 8 then 3
    else if t == 5 || t == 7 then 6
    else if t == 6 then 7
    else 0
  }

  /** The winning universes from a state: for each roll sum t, the
      universes after the turn, weighted by the Ways(t) roll triples that
      give it. */
  function Universes(s: GameState): Outcomes
    requires OnBoard(s)
    decreases Measure(s), 2
  {
    Weighted(Table(s), 3)
  }

  /** The universes after a turn from s, by roll sum 0..9; the sums below
      3 cannot be rolled and count nothing. */
  function Table(s: GameState): (table: seq<Outcomes>)
    requires OnBoard(s)
    ensures |table| == 10
    decreases Measure(s), 1
  {
    seq(10, t requires 0 <= t < 10 => if t < 3 then NoOutcomes else AfterRolls(s, t))
  }

  /** The universes after three rolls summing to t: one win if the turn
      ends the game, the universes of the next state otherwise. */
  function AfterRolls(s: GameState, t: int): Outcomes
    requires OnBoard(s) && 3 <= t <= 9
    decreases Measure(s), 0
  {
    AdvanceMovesMover(s, t, 0);
    var next := Advance(s, t, 0);
    if IsGameOver(next) then WinOf(next) else Universes(next)
  }

  /** The outcomes for roll sums t..9 of a table, each weighted by Ways. */
  function Weighted(table: seq<Outcomes>, t: int): Outcomes
    requires |table| == 10 && 3 <= t <= 10
    decreases 10 - t
  {
    if t == 10 then NoOutcomes else Add(Times(Ways(t), table[t]), Weighted(table, t + 1))
  }

  /** The number of roll triples whose sum is t or more. */
  function WaysFrom(t: int): nat
    decreases 10 - t
  {
    if t >= 10 then 0 else Ways(t) + WaysFrom(t + 1)
  }

  /** A finished next state counts exactly one universe, won by the winner. */
  lemma FinishedCountsOnce(s: GameState, t: int)
    requires OnBoard(s) && 3 <= t <= 9 && IsGameOver(Advance(s, t, 0))
    ensures var o := AfterRolls(s, t);
      o.p1Wins + o.p2Wins == 1 &&
      (o.p1Wins == 1 <==> GetWinner(Advance(s, t, 0)).1 == 0)
  {
  }

  /** Every game ends in at least 27 universes (one per roll triple of the
      first turn), and the win counts are never negative. */
  lemma {:induction false} UniversesCount(s: GameState)
    requires OnBoard(s)
    ensures Universes(s).p1Wins >= 0 && Universes(s).p2Wins >= 0
    ensures Universes(s).p1Wins + Universes(s).p2Wins >= 27
    decreases Measure(s), 1
  {
    var table := Table(s);
    forall t | 3 <= t <= 9
      ensures table[t].p1Wins >= 0 && table[t].p2Wins >= 0 && table[t].p1Wins + table[t].p2Wins >= 1
    {
      AfterRollsCount(s, t);
    }
    WeightedCount(table, 3);
  }

  lemma {:induction false} AfterRollsCount(s: GameState, t: int)
    requires OnBoard(s) && 3 <= t <= 9
    ensures AfterRolls(s, t).p1Wins >= 0 && AfterRolls(s, t).p2Wins >= 0
    ensures AfterRolls(s, t).p1Wins + AfterRolls(s, t).p2Wins >= 1
    decreases Measure(s), 0
  {
    AdvanceMovesMover(s, t, 0);
    var next := Advance(s, t, 0);
    if !IsGameOver(next) {
      UniversesCount(next);
    }
  }

  /** Weighting a table whose entries each count one universe or more
      counts at least one per roll triple. */
  lemma {:induction false} WeightedCount(table: seq<Outcomes>, t: int)
    requires |table| == 10 && 3 <= t <= 10
    requires forall u :: 3 <= u <= 9 ==>
      table[u].p1Wins >= 0 && table[u].p2Wins >= 0 && table[u].p1Wins + table[u].p2Wins >= 1
    ensures Weighted(table, t).p1Wins >= 0 && Weighted(table, t).p2Wins >= 0
    ensures Weighted(table, t).p1Wins + Weighted(table, t).p2Wins >= WaysFrom(t)
    decreases 10 - t
  {
    if t < 10 {
      WeightedCount(table, t + 1);
      var a := table[t];
      assert Ways(t) * a.p1Wins + Ways(t) * a.p2Wins >= Ways(t) by {
        assert Ways(t) * (a.p1Wins + a.p2Wins) >= Ways(t) * 1;
      }
    }
  }

  // ---------------------------------------------------------------------
  // Part two as the program computes it

  /** Keyify: the memo key of a state, every field but the roll count. */
  type Key = (int, int, int, int, int)

  function Keyify(s: GameState): Key
  {
    (s.currentTurn, s.p1Score, s.p2Score, s.p1Position, s.p2Position)
  }

  /** The state a key stands for, with a roll count of 0. */
  function StateOf(k: Key): (s: GameState)
    ensures Keyify(s) == k
  {
    GameState(k.3, k.4, k.1, k.2, k.0, 0)
  }

  /** Keys tell states apart except for their roll counts. */
  lemma KeyifyInjective(a: GameState, b: GameState)
    ensures Keyify(a) == Keyify(b) <==> a.(rollCount := 0) == b.(rollCount := 0)
  {
  }

  /** The roll count plays no part in the universes counted from a state. */
  lemma UniversesIgnoreRollCount(s: GameState, n: int)
    requires OnBoard(s)
    ensures Universes(s) == Universes(s.(rollCount := n))
  {
    var s' := s.(rollCount := n);
    forall t | 3 <= t <= 9
      ensures AfterRolls(s, t) == AfterRolls(s', t)
    {
      TurnIgnoresRollCount(s, t, n);
    }
    assert Table(s) == Table(s');
  }

  lemma TurnIgnoresRollCount(s: GameState, t: int, n: int)
    requires OnBoard(s) && 3 <= t <= 9
    ensures AfterRolls(s, t) == AfterRolls(s.(rollCount := n), t)
  {
    assert Advance(s, t, 0) == Advance(s.(rollCount := n), t, 0);
  }

  /** What the memo must hold for a key: the single win of a finished
      game, or the universes of a game still going. */
  function Expected(k: Key): Outcomes
    requires OnBoard(StateOf(k))
  {
    var s := StateOf(k);
    if IsGameOver(s) then WinOf(s) else Universes(s)
  }

  ghost predicate Sound(known: map<Key, Outcomes>)
  {
    forall k :: k in known ==> OnBoard(StateOf(k)) && known[k] == Expected(k)
  }

  /** The knownOutcomes dictionary, shared by every call and only added to. */
  class KnownOutcomes {
    var entries: map<Key, Outcomes>

    constructor ()
      ensures entries == map[]
    {
      entries := map[];
    }
  }

  /** Rolls on the shared stack, each in 1..3. */
  predicate DiracRolls(rolls: seq<int>)
  {
    forall i :: 0 <= i < |rolls| ==> 1 <= rolls[i] <= 3
  }

  /** Three rolls sum to between 3 and 9. */
  lemma ThreeRollsSum(rolls: seq<int>)
    requires |rolls| == 3
    ensures Sum(rolls) == rolls[0] + rolls[1] + rolls[2]
    ensures DiracRolls(rolls) ==> 3 <= Sum(rolls) <= 9
  {
    assert rolls[..2][..1] == rolls[..1];
    assert rolls[..1][..0] == [];
    assert Sum(rolls[..1]) == rolls[0];
    assert Sum(rolls[..2]) == rolls[0] + rolls[1];
  }

  /** The outcomes DoNdRolls adds up for a stack of rolls, given the
      outcome of each roll sum: with three rolls, the outcome of their
      sum; with fewer, the outcomes for pushing 1, 2 and 3, added to a
      fresh outcome in that order. */
  function Branch(rolls: seq<int>, table: seq<Outcomes>): Outcomes
    requires |table| == 10 && DiracRolls(rolls) && |rolls| <= DiceRolls
    decreases DiceRolls - |rolls|
  {
    if |rolls| == DiceRolls then
      ThreeRollsSum(rolls);
      table[Sum(rolls)]
    else
      Add(Add(Add(NoOutcomes, Branch(rolls + [1], table)), Branch(rolls + [2], table)), Branch(rolls + [3], table))
  }

  /** The leaves below two rolls a and b. */
  lemma LastRoll(a: int, b: int, table: seq<Outcomes>)
    requires |table| == 10 && 1 <= a <= 3 && 1 <= b <= 3
    ensures Branch([a, b], table) ==
      Add(Add(Add(NoOutcomes, table[a + b + 1]), table[a + b + 2]), table[a + b + 3])
  {
    assert [a, b] + [1] == [a, b, 1] && [a, b] + [2] == [a, b, 2] && [a, b] + [3] == [a, b, 3];
    ThreeRollsSum([a, b, 1]);
    ThreeRollsSum([a, b, 2]);
    ThreeRollsSum([a, b, 3]);
  }

  /** The leaves below a first roll a, win counts of player 1 and 2. */
  lemma FirstRoll(a: int, table: seq<Outcomes>)
    requires |table| == 10 && 1 <= a <= 3
    ensures Branch([a], table).p1Wins ==
      table[a + 2].p1Wins + 2 * table[a + 3].p1Wins + 3 * table[a + 4].p1Wins +
      2 * table[a + 5].p1Wins + table[a + 6].p1Wins
    ensures Branch([a], table).p2Wins ==
      table[a + 2].p2Wins + 2 * table[a + 3].p2Wins + 3 * table[a + 4].p2Wins +
      2 * table[a + 5].p2Wins + table[a + 6].p2Wins
  {
    assert [a] + [1] == [a, 1] && [a] + [2] == [a, 2] && [a] + [3] == [a, 3];
    LastRoll(a, 1, table);
    LastRoll(a, 2, table);
    LastRoll(a, 3, table);
  }

  /** The explicit enumeration of DoNdRolls and the count by roll sums
      agree: branching three times over {1, 2, 3} reaches each sum t in
      Ways(t) of the 27 leaves. */
  lemma BranchCountsWays(table: seq<Outcomes>)
    requires |table| == 10
    ensures Branch([], table) == Weighted(table, 3)
  {
    assert [] + [1] == [1] && [] + [2] == [2] && [] + [3] == [3];
    FirstRoll(1, table);
    FirstRoll(2, table);
    FirstRoll(3, table);
    WeightedAll(table);
  }

  /** The weighted table written out. */
  lemma WeightedAll(table: seq<Outcomes>)
    requires |table| == 10
    ensures Weighted(table, 3).p1Wins ==
      table[3].p1Wins + 3 * table[4].p1Wins + 6 * table[5].p1Wins + 7 * table[6].p1Wins +
      6 * table[7].p1Wins + 3 * table[8].p1Wins + table[9].p1Wins
    ensures Weighted(table, 3).p2Wins ==
      table[3].p2Wins + 3 * table[4].p2Wins + 6 * table[5].p2Wins + 7 * table[6].p2Wins +
      6 * table[7].p2Wins + 3 * table[8].p2Wins + table[9].p2Wins
  {
    assert Weighted(table, 9) == Add(Times(1, table[9]), NoOutcomes);
    assert Weighted(table, 8) == Add(Times(3, table[8]), Weighted(table, 9));
    assert Weighted(table, 7) == Add(Times(6, table[7]), Weighted(table, 8));
    assert Weighted(table, 6) == Add(Times(7, table[6]), Weighted(table, 7));
    assert Weighted(table, 5) == Add(Times(6, table[5]), Weighted(table, 6));
    assert Weighted(table, 4) == Add(Times(3, table[4]), Weighted(table, 5));
    assert Weighted(table, 3) == Add(Times(1, table[3]), Weighted(table, 4));
  }

  /** A sound memo recalls the universes of a game still going. */
  lemma Recalled(known: map<Key, Outcomes>, s: GameState)
    requires OnBoard(s) && !IsGameOver(s) && Sound(known) && Keyify(s) in known
    ensures known[Keyify(s)] == Universes(s)
  {
    assert StateOf(Keyify(s)) == s.(rollCount := 0);
    UniversesIgnoreRollCount(s, 0);
  }

  /** Remembering the universes of a game still going keeps a memo sound. */
  lemma Remembered(known: map<Key, Outcomes>, s: GameState, r: Outcomes)
    requires OnBoard(s) && !IsGameOver(s) && Sound(known) && r == Universes(s)
    ensures Sound(known[Keyify(s) := r])
  {
    assert StateOf(Keyify(s)) == s.(rollCount := 0);
    UniversesIgnoreRollCount(s, 0);
  }

  /** TakeNdTurn: the universes from a state still being played, looked up
      in the memo or counted through DoNdRolls and then remembered. */
  method TakeNdTurn(s: GameState, known: KnownOutcomes) returns (r: Outcomes)
    requires OnBoard(s) && !IsGameOver(s) && Sound(known.entries)
    modifies known
    ensures Sound(known.entries) && Keyify(s) in known.entries
    ensures old(known.entries).Keys <= known.entries.Keys
    ensures r == Universes(s)
    decreases Measure(s), 2, 0
  {
    var stateKey := Keyify(s);
    if stateKey in known.entries {
      Recalled(known.entries, s);
      return known.entries[stateKey];
    }
    r := DoNdRolls([], s, known);
    BranchCountsWays(Table(s));
    if stateKey !in known.entries {
      Remembered(known.entries, s, r);
      known.entries := known.entries[stateKey := r];
    }
  }

  /** DoNdRollsComplete: the outcome of three rolls, from the memo, as a
      single win when the turn ends the game (remembered then too), or
      from the next turn. */
  method DoNdRollsComplete(rolls: seq<int>, s: GameState, known: KnownOutcomes) returns (r: Outcomes)
    requires OnBoard(s) && DiracRolls(rolls) && |rolls| == DiceRolls && Sound(known.entries)
    modifies known
    ensures Sound(known.entries) && old(known.entries).Keys <= known.entries.Keys
    ensures 3 <= Sum(rolls) <= 9 && r == AfterRolls(s, Sum(rolls))
    decreases Measure(s), 0, 0
  {
    ThreeRollsSum(rolls);
    var rollsSum := Sum(rolls);
    AdvanceMovesMover(s, rollsSum, 0);
    var nextState := Advance(s, rollsSum, 0);
    var stateKey := Keyify(nextState);
    if stateKey in known.entries {
      return known.entries[stateKey];
    }
    if IsGameOver(nextState) {
      var winner := GetWinner(nextState);
      if winner.1 == 0 {
        r := Outcomes(1, 0);
      } else {
        r := Outcomes(0, 1);
      }
      known.entries := known.entries[stateKey := r];
      return;
    }
    r := TakeNdTurn(nextState, known);
  }

  /** DoNdRolls: the outcomes of every way to complete the rolls on the
      stack to three. */
  method DoNdRolls(rolls: seq<int>, s: GameState, known: KnownOutcomes) returns (r: Outcomes)
    requires OnBoard(s) && DiracRolls(rolls) && |rolls| <= DiceRolls && Sound(known.entries)
    modifies known
    ensures Sound(known.entries) && old(known.entries).Keys <= known.entries.Keys
    ensures r == Branch(rolls, Table(s))
    decreases Measure(s), 1, DiceRolls - |rolls|
  {
    if |rolls| == DiceRolls {
      r := DoNdRollsComplete(rolls, s, known);
    } else {
      var outcomes := NoOutcomes;
      var o := DoNdRolls(rolls + [1], s, known);
      outcomes := Add(outcomes, o);
      o := DoNdRolls(rolls + [2], s, known);
      outcomes := Add(outcomes, o);
      o := DoNdRolls(rolls + [3], s, known);
      outcomes := Add(outcomes, o);
      r := outcomes;
    }
  }

  /** Process: the universes each player wins in from the starting spaces. */
  method Solve(p1Space: int, p2Space: int) returns (r: Outcomes)
    requires 1 <= p1Space <= BoardSpots && 1 <= p2Space <= BoardSpots
    ensures r == Universes(Start(p1Space, p2Space))
  {
    var known := new KnownOutcomes();
    r := TakeNdTurn(Start(p1Space, p2Space), known);
  }
}
