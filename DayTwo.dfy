/** Dive: a submarine position updated by forward/up/down commands, with and
    without an aim, and the parser for a command line. */
module DayTwo {
  import opened Common

  datatype Direction = Forward | Up | Down

  datatype MoveCommand = MoveCommand(direction: Direction, distance: int)

  /** The horizontal change a command asks for. */
  function ForwardPart(c: MoveCommand): int
  {
    if c.direction == Forward then c.distance else 0
  }

  /** The vertical change a command asks for: down is positive, up negative. */
  function VerticalPart(c: MoveCommand): int
  {
    match c.direction
    case Forward => 0
    case Up => -c.distance
    case Down => c.distance
  }

  datatype Position = Position(horizontalPosition: int, depth: int, aim: int)
  {
    /** Without aim: forward moves horizontally, up and down change depth. */
    function ApplyCommand(c: MoveCommand): (r: Position)
      ensures r.horizontalPosition == horizontalPosition + ForwardPart(c)
      ensures r.depth == depth + VerticalPart(c)
      ensures r.aim == aim
    {
      match c.direction
      case Forward => this.(horizontalPosition := horizontalPosition + c.distance)
      case Up => this.(depth := depth - c.distance)
      case Down => this.(depth := depth + c.distance)
    }

    /** With aim: up and down only turn the aim; forward moves horizontally
        and dives by distance times aim. */
    function ApplyCommandWithAim(c: MoveCommand): (r: Position)
      ensures r.horizontalPosition == horizontalPosition + ForwardPart(c)
      ensures r.aim == aim + VerticalPart(c)
      ensures r.depth == depth + ForwardPart(c) * aim
    {
      match c.direction
      case Forward => ForwardWithAim(c)
      case Up => this.(aim := aim - c.distance)
      case Down => this.(aim := aim + c.distance)
    }

    function ForwardWithAim(c: MoveCommand): Position
    {
      Position(horizontalPosition + c.distance, depth + c.distance * aim, aim)
    }
  }

  /** The static ApplyCommand of the DayTwo class. */
  function ApplyCommand(position: Position, command: MoveCommand): (r: Position)
    ensures r == position.ApplyCommand(command)
  {
    match command.direction
    case Forward => position.(horizontalPosition := position.horizontalPosition + command.distance)
    case Up => position.(depth := position.depth - command.distance)
    case Down => position.(depth := position.depth + command.distance)
  }

  function Fold(p: Position, cmds: seq<MoveCommand>, withAim: bool): Position
  {
    if cmds == [] then p
    else
      var last := cmds[|cmds| - 1];
      var q := Fold(p, cmds[..|cmds| - 1], withAim);
      if withAim then q.ApplyCommandWithAim(last) else q.ApplyCommand(last)
  }

  function ForwardTotal(cmds: seq<MoveCommand>): int
  {
    if cmds == [] then 0 else ForwardTotal(cmds[..|cmds| - 1]) + ForwardPart(cmds[|cmds| - 1])
  }

  function VerticalTotal(cmds: seq<MoveCommand>): int
  {
    if cmds == [] then 0 else VerticalTotal(cmds[..|cmds| - 1]) + VerticalPart(cmds[|cmds| - 1])
  }

  /** Under either rule the horizontal position moves by the sum of the
      forward distances; without aim the depth (with aim, the aim) moves by
      the net downward distance. */
  lemma {:induction false} FoldTotals(p: Position, cmds: seq<MoveCommand>)
    ensures Fold(p, cmds, false).horizontalPosition == p.horizontalPosition + ForwardTotal(cmds)
    ensures Fold(p, cmds, true).horizontalPosition == p.horizontalPosition + ForwardTotal(cmds)
    ensures Fold(p, cmds, false).depth == p.depth + VerticalTotal(cmds)
    ensures Fold(p, cmds, false).aim == p.aim
    ensures Fold(p, cmds, true).aim == p.aim + VerticalTotal(cmds)
  {
    if cmds != [] {
      FoldTotals(p, cmds[..|cmds| - 1]);
    }
  }

  /** The command loop of Process: fold ApplyCommandWithAim from the origin. */
  method Navigate(cmds: seq<MoveCommand>) returns (position: Position)
    ensures position == Fold(Position(0, 0, 0), cmds, true)
    ensures position.horizontalPosition == ForwardTotal(cmds)
    ensures position.aim == VerticalTotal(cmds)
  {
    position := Position(0, 0, 0);
    var i := 0;
    while i < |cmds|
      invariant 0 <= i <= |cmds|
      invariant position == Fold(Position(0, 0, 0), cmds[..i], true)
    {
      assert cmds[..i + 1][..i] == cmds[..i];
      position := position.ApplyCommandWithAim(cmds[i]);
      i := i + 1;
    }
    assert cmds[..i] == cmds;
    FoldTotals(Position(0, 0, 0), cmds);
  }

  // ---------------------------------------------------------------------
  // ParseCommand

  /** Index of the first space in s, or |s|. */
  function FirstSpace(s: string): (k: nat)
    ensures k <= |s|
    ensures forall i :: 0 <= i < k ==> s[i] != ' '
    ensures k < |s| ==> s[k] == ' '
  {
    if s == [] || s[0] == ' ' then 0 else 1 + FirstSpace(s[1..])
  }

  predicate Word(t: string) { |t| > 0 && forall i :: 0 <= i < |t| ==> t[i] != ' ' }

  /** string.Split(" ", RemoveEmptyEntries): the maximal runs of non-space
      characters, in order. */
  function Tokens(s: string): (r: seq<string>)
    ensures forall i :: 0 <= i < |r| ==> Word(r[i])
    decreases |s|
  {
    if s == [] then []
    else if s[0] == ' ' then Tokens(s[1..])
    else
      var k := FirstSpace(s);
      [s[..k]] + Tokens(s[k..])
  }

  lemma TokensOfWords(a: string, b: string)
    requires Word(a) && Word(b)
    ensures Tokens(a + " " + b) == [a, b]
  {
    var s := a + " " + b;
    assert s == a + (" " + b);
    FirstSpaceOfWord(a, " " + b);
    assert s[..|a|] == a && s[|a|..] == " " + b;
    assert (" " + b)[1..] == b;
    assert Tokens(s) == [a] + Tokens(b);
    FirstSpaceOfWord(b, "");
    assert b + "" == b && b[..|b|] == b && b[|b|..] == [];
    assert Tokens(b) == [b] + Tokens([]);
  }

  lemma {:induction false} FirstSpaceOfWord(a: string, rest: string)
    requires forall i :: 0 <= i < |a| ==> a[i] != ' '
    requires rest == [] || rest[0] == ' '
    ensures FirstSpace(a + rest) == |a|
  {
    if a != [] {
      assert (a + rest)[1..] == a[1..] + rest;
      FirstSpaceOfWord(a[1..], rest);
    } else {
      assert a + rest == rest;
    }
  }

  /** ASCII lower-casing; outside A-Z nothing changes. */
  function Lower(s: string): (r: string)
    ensures |r| == |s|
  {
    if s == [] then []
    else [if 'A' <= s[0] <= 'Z' then (s[0] as int + 32) as char else s[0]] + Lower(s[1..])
  }

  lemma {:induction false} LowerUnchanged(s: string)
    requires forall i :: 0 <= i < |s| ==> !('A' <= s[i] <= 'Z')
    ensures Lower(s) == s
  {
    if s != [] { LowerUnchanged(s[1..]); }
  }

  function DirectionName(d: Direction): string
  {
    match d
    case Forward => "forward"
    case Up => "up"
    case Down => "down"
  }

  function ParseDirection(word: string): (r: Result<Direction>)
    ensures r.Ok? <==> word in {"forward", "up", "down"}
    ensures r.Ok? ==> DirectionName(r.value) == word
  {
    if word == "forward" then Ok(Forward)
    else if word == "up" then Ok(Up)
    else if word == "down" then Ok(Down)
    else Err("ArgumentException: unrecognized direction")
  }

  /** ParseCommand: exactly two tokens, a direction matched after lower-casing
      and an int.Parse distance; anything else throws. */
  function ParseCommand(line: string): (r: Result<MoveCommand>)
    ensures |Tokens(line)| != 2 ==> r.Err?
    ensures r.Ok? <==> |Tokens(line)| == 2 && Lower(Tokens(line)[0]) in {"forward", "up", "down"}
                       && ParseInt(Tokens(line)[1]).Ok?
    ensures r.Ok? ==> var t := Tokens(line);
      DirectionName(r.value.direction) == Lower(t[0]) && ParseInt(t[1]) == Ok(r.value.distance)
  {
    var split := Tokens(line);
    if |split| != 2 then Err("ArgumentException: line without two tokens")
    else
      match ParseDirection(Lower(split[0]))
      case Err(e) => Err(e)
      case Ok(direction) =>
        match ParseInt(split[1])
        case Err(e) => Err(e)
        case Ok(distance) => Ok(MoveCommand(direction, distance))
  }

  function FormatCommand(c: MoveCommand): string
  {
    DirectionName(c.direction) + " " + IntToString(c.distance)
  }

  lemma IntToStringWord(i: int)
    ensures Word(IntToString(i))
  {
    var s := IntToString(i);
    if i < 0 {
      assert s == "-" + NatToString(-i);
      forall k | 0 <= k < |s| ensures s[k] != ' ' {
        if k > 0 { assert s[k] == NatToString(-i)[k - 1]; }
      }
    }
  }

  /** A formatted command with a 32-bit distance parses back to itself. */
  lemma ParseFormatRoundTrip(c: MoveCommand)
    requires IntMin <= c.distance <= IntMax
    ensures ParseCommand(FormatCommand(c)) == Ok(c)
  {
    var name := DirectionName(c.direction);
    var number := IntToString(c.distance);
    IntToStringWord(c.distance);
    TokensOfWords(name, number);
    assert Tokens(FormatCommand(c)) == [name, number];
    LowerUnchanged(name);
    ParseDirectionName(c.direction);
    ParseIntToString(c.distance);
  }

  /** Every direction's name parses back to it. */
  lemma ParseDirectionName(d: Direction)
    ensures ParseDirection(DirectionName(d)) == Ok(d)
  {
    match d
    case Forward =>
    case Up => assert "up" != "forward";
    case Down => assert "down" != "forward" && "down" != "up";
  }
}
