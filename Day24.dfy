/** The arithmetic logic unit: four registers, six kinds of instruction
    with C#'s truncating division and remainder, the input queue, the
    program cut into chunks at each input, and the shortcut that computes a
    chunk's effect on z from three of its constants. */
module Day24 {
  import opened Common

  datatype Register = W | X | Y | Z

  /** InstructionType. */
  datatype Kind = Input | Add | Multiply | Divide | Mod | Equal

  /** An instruction: its kind, FirstRegister, and SecondRegister or, when
      that is absent, SecondConstant. */
  datatype Instruction = Instruction(kind: Kind, first: Register, second: Option<Register>, constant: int)

  /** RegisterState: the values of w, x, y and z. Execute builds a new state
      and never changes the one it is given, so a state is a value. */
  datatype State = State(w: int, x: int, y: int, z: int)
  {
    function Get(r: Register): int
    {
      match r
      case W => w
      case X => x
      case Y => y
      case Z => z
    }

    /** The state with r set to v and every other register unchanged. */
    function Set(r: Register, v: int): (s: State)
      ensures s.Get(r) == v
      ensures forall o :: o != r ==> s.Get(o) == Get(o)
    {
      match r
      case W => this.(w := v)
      case X => this.(x := v)
      case Y => this.(y := v)
      case Z => this.(z := v)
    }
  }

  /** The RegisterState constructor: every register holds zero. */
  function NewState(): (s: State)
    ensures forall r :: s.Get(r) == 0
  {
    State(0, 0, 0, 0)
  }

  /** GetSecondValue: the second register's value, or the constant. */
  function GetSecondValue(ins: Instruction, s: State): (v: int)
    ensures ins.second.Some? ==> v == s.Get(ins.second.value)
    ensures ins.second.None? ==> v == ins.constant
  {
    match ins.second
    case Some(r) => s.Get(r)
    case None => ins.constant
  }

  // ---------------------------------------------------------------------
  // Executing instructions

  /** Execute of each instruction kind, on the state and the values still
      to be read: an input with nothing left to read fails, and so does a
      division or remainder by zero. */
  function Apply(ins: Instruction, s: State, input: seq<int>): (r: Result<(State, seq<int>)>)
    ensures r.Err? <==>
      (ins.kind == Input && input == []) ||
      ((ins.kind == Divide || ins.kind == Mod) && GetSecondValue(ins, s) == 0)
    ensures r.Ok? ==> forall o :: o != ins.first ==> r.value.0.Get(o) == s.Get(o)
    ensures r.Ok? ==> r.value.1 == if ins.kind == Input then input[1..] else input
  {
    var a := s.Get(ins.first);
    var b := GetSecondValue(ins, s);
    match ins.kind
    case Input =>
      if input == [] then Err("Attempted to read beyond end of values list")
      else Ok((s.Set(ins.first, input[0]), input[1..]))
    case Add => Ok((s.Set(ins.first, a + b), input))
    case Multiply => Ok((s.Set(ins.first, a * b), input))
    case Divide => if b == 0 then Err("Attempted to divide by zero") else Ok((s.Set(ins.first, TruncDiv(a, b)), input))
    case Mod => if b == 0 then Err("Attempted to divide by zero") else Ok((s.Set(ins.first, TruncRem(a, b)), input))
    case Equal => Ok((s.Set(ins.first, if a == b then 1 else 0), input))
  }

  /** An input writes the first value still to be read. */
  lemma InputReads(ins: Instruction, s: State, input: seq<int>)
    requires ins.kind == Input && input != []
    ensures Apply(ins, s, input) == Ok((s.Set(ins.first, input[0]), input[1..]))
    ensures Apply(ins, s, input).value.0.Get(ins.first) == input[0]
  {
  }

  /** Add, Multiply and Equal write a + b, a * b, and whether a == b. */
  lemma Arithmetic(ins: Instruction, s: State, input: seq<int>)
    requires ins.kind == Add || ins.kind == Multiply || ins.kind == Equal
    ensures Apply(ins, s, input).Ok?
    ensures Apply(ins, s, input).value.0.Get(ins.first) ==
      var a, b := s.Get(ins.first), GetSecondValue(ins, s);
      if ins.kind == Add then a + b else if ins.kind == Multiply then a * b else if a == b then 1 else 0
  {
  }

  /** Divide truncates toward zero: the quotient's size is the number of
      whole |b|s in |a|, and it is negative only when the signs differ. */
  lemma DivideTruncates(ins: Instruction, s: State, input: seq<int>)
    requires ins.kind == Divide && GetSecondValue(ins, s) != 0
    ensures var a, b, q := s.Get(ins.first), GetSecondValue(ins, s), Apply(ins, s, input).value.0.Get(ins.first);
      Abs(q) * Abs(b) <= Abs(a) < (Abs(q) + 1) * Abs(b) &&
      (q < 0 ==> (a < 0) != (b < 0)) && (q > 0 ==> (a < 0) == (b < 0))
  {
    TruncDivBounds(s.Get(ins.first), GetSecondValue(ins, s));
  }

  /** Mod leaves the remainder of truncated division: smaller than |b|, with
      the sign of a, and a is the quotient times b plus it. */
  lemma ModKeepsSign(ins: Instruction, s: State, input: seq<int>)
    requires ins.kind == Mod && GetSecondValue(ins, s) != 0
    ensures var a, b, m := s.Get(ins.first), GetSecondValue(ins, s), Apply(ins, s, input).value.0.Get(ins.first);
      Abs(m) < Abs(b) && (a >= 0 ==> m >= 0) && (a <= 0 ==> m <= 0) && a == TruncDiv(a, b) * b + m
  {
    TruncDivRem(s.Get(ins.first), GetSecondValue(ins, s));
  }

  /** Running instructions in order, each on the state the one before left;
      the first failure ends the run. */
  function Run(prog: seq<Instruction>, s: State, input: seq<int>): Result<(State, seq<int>)>
    decreases |prog|
  {
    if prog == [] then Ok((s, input))
    else
      match Apply(prog[0], s, input)
      case Err(msg) => Err(msg)
      case Ok(next) => Run(prog[1..], next.0, next.1)
  }

  /** Running two programs one after the other is running their
      concatenation. */
  lemma {:induction false} RunConcat(a: seq<Instruction>, b: seq<Instruction>, s: State, input: seq<int>)
    ensures Run(a + b, s, input) ==
      match Run(a, s, input)
      case Err(msg) => Err(msg)
      case Ok(mid) => Run(b, mid.0, mid.1)
    decreases |a|
  {
    if a != [] {
      assert (a + b)[0] == a[0] && (a + b)[1..] == a[1..] + b;
      match Apply(a[0], s, input)
      case Err(msg) =>
      case Ok(next) => RunConcat(a[1..], b, next.0, next.1);
    } else {
      assert a + b == b;
    }
  }

  /** InputReaderQueue: values are read in the order they were pushed. */
  class InputReaderQueue {
    var values: seq<int>

    constructor ()
      ensures values == []
    {
      values := [];
    }

    method PushValue(value: int)
      modifies this
      ensures values == old(values) + [value]
    {
      values := values + [value];
    }

    /** GetValue: the oldest value pushed and not yet read; an error when
        none is left. */
    method GetValue() returns (r: Result<int>)
      modifies this
      ensures old(values) == [] ==> r.Err? && values == old(values)
      ensures old(values) != [] ==> r == Ok(old(values)[0]) && values == old(values)[1..]
    {
      if values == [] {
        return Err("Attempted to read beyond end of values list");
      }
      r := Ok(values[0]);
      values := values[1..];
    }
  }

  /** InputReader: a fixed array of values read one after another. */
  class InputReader {
    const values: array<int>
    var index: nat

    constructor (vs: seq<int>)
      ensures values[..] == vs && index == 0 && fresh(values)
    {
      values := new int[|vs|](i requires 0 <= i < |vs| => vs[i]);
      index := 0;
    }

    method GetValue() returns (r: Result<int>)
      modifies this
      ensures old(index) >= values.Length ==> r.Err? && index == old(index)
      ensures old(index) < values.Length ==> r == Ok(values[old(index)]) && index == old(index) + 1
    {
      if index >= values.Length {
        return Err("Attempted to read beyond end of values list");
      }
      r := Ok(values[index]);
      index := index + 1;
    }
  }

  /** Only an input depends on the values to read. */
  lemma ApplyIgnoresInput(ins: Instruction, s: State, input: seq<int>)
    requires ins.kind != Input
    ensures Apply(ins, s, input).Ok? == Apply(ins, s, []).Ok?
    ensures Apply(ins, s, input).Ok? ==> Apply(ins, s, input).value.0 == Apply(ins, s, []).value.0
  {
  }

  /** Execute: reads from the queue for an input, and otherwise computes on
      the state. */
  method Execute(ins: Instruction, input: InputReaderQueue, s: State) returns (r: Result<State>)
    modifies input
    ensures r.Ok? == Apply(ins, s, old(input.values)).Ok?
    ensures r.Ok? ==> r.value == Apply(ins, s, old(input.values)).value.0
    ensures r.Ok? ==> input.values == Apply(ins, s, old(input.values)).value.1
    ensures r.Err? ==> input.values == old(input.values)
  {
    if ins.kind == Input {
      var v := input.GetValue();
      if v.Err? {
        return Err(v.msg);
      }
      r := Ok(s.Set(ins.first, v.value));
    } else {
      ApplyIgnoresInput(ins, s, input.values);
      var a := Apply(ins, s, []);
      if a.Err? {
        return Err(a.msg);
      }
      r := Ok(a.value.0);
    }
  }

  /** ExecuteInstructions: each instruction in turn on the state left by the
      one before. */
  method ExecuteInstructions(s: State, instructions: seq<Instruction>, input: InputReaderQueue) returns (r: Result<State>)
    modifies input
    ensures r.Ok? == Run(instructions, s, old(input.values)).Ok?
    ensures r.Ok? ==> r.value == Run(instructions, s, old(input.values)).value.0
    ensures r.Ok? ==> input.values == Run(instructions, s, old(input.values)).value.1
  {
    var current := s;
    var i := 0;
    while i < |instructions|
      invariant 0 <= i <= |instructions|
      invariant Run(instructions, s, old(input.values)) == Run(instructions[i..], current, input.values)
    {
      assert instructions[i..][0] == instructions[i] && instructions[i..][1..] == instructions[i + 1..];
      var next := Execute(instructions[i], input, current);
      if next.Err? {
        return Err(next.msg);
      }
      current := next.value;
      i := i + 1;
    }
    r := Ok(current);
  }

  // ---------------------------------------------------------------------
  // Chunks

  /** ChunkAnalysis: M, R and P. */
  datatype Analysis = Analysis(m: int, r: int, p: int)

  /** InstructionChunk. */
  datatype Chunk = Chunk(instructions: seq<Instruction>, analysis: Analysis)

  /** AnalyzeChunk: M, R and P are the constants of the instructions at
      positions 4, 5 and 15; a shorter chunk makes it fail. */
  function AnalyzeChunk(chunk: seq<Instruction>): (r: Result<Analysis>)
    ensures r.Err? <==> |chunk| < 16
    ensures r.Ok? ==> r.value.m == chunk[4].constant && r.value.r == chunk[5].constant && r.value.p == chunk[15].constant
  {
    if |chunk| < 16 then Err("Index was out of range")
    else Ok(Analysis(chunk[4].constant, chunk[5].constant, chunk[15].constant))
  }

  /** The chunks' instructions one after another. */
  function Flatten(cs: seq<Chunk>): seq<Instruction>
  {
    if cs == [] then [] else Flatten(cs[..|cs| - 1]) + cs[|cs| - 1].instructions
  }

  /** program[i..j] is a chunk: it starts the program or starts at an input,
      it ends the program or ends before an input, and it holds no other
      input. */
  ghost predicate IsBlock(program: seq<Instruction>, i: int, j: int)
  {
    0 <= i < j <= |program| &&
    (i == 0 || program[i].kind == Input) &&
    (j == |program| || program[j].kind == Input) &&
    forall k :: i < k < j ==> program[k].kind != Input
  }

  /** A chunk is not empty, starts with an input unless it is the first,
      holds no input after its first instruction, and has been analysed. */
  ghost predicate Shaped(cs: seq<Chunk>)
  {
    (forall k :: 0 <= k < |cs| ==> cs[k].instructions != [] && AnalyzeChunk(cs[k].instructions) == Ok(cs[k].analysis)) &&
    (forall k :: 0 < k < |cs| ==> cs[k].instructions[0].kind == Input) &&
    forall k, j :: 0 <= k < |cs| && 0 < j < |cs[k].instructions| ==> cs[k].instructions[j].kind != Input
  }

  lemma ShapedAppend(cs: seq<Chunk>, c: Chunk)
    requires Shaped(cs) && c.instructions != [] && AnalyzeChunk(c.instructions) == Ok(c.analysis)
    requires cs != [] ==> c.instructions[0].kind == Input
    requires forall j :: 0 < j < |c.instructions| ==> c.instructions[j].kind != Input
    ensures Shaped(cs + [c]) && Flatten(cs + [c]) == Flatten(cs) + c.instructions
  {
    assert (cs + [c])[..|cs|] == cs;
  }

  /** The loop of ChunkInstructions at i: the chunks so far cut the program
      up to start, and program[start..i] is the chunk being collected. */
  ghost predicate Open(program: seq<Instruction>, start: int, i: int, all: seq<Chunk>)
  {
    0 <= start < i <= |program| &&
    (start == 0 || program[start].kind == Input) &&
    (forall k :: start < k < i ==> program[k].kind != Input) &&
    (all == []) == (start == 0) &&
    Flatten(all) == program[..start] && Shaped(all)
  }

  /** Closing the chunk being collected. */
  lemma Close(program: seq<Instruction>, start: int, i: int, all: seq<Chunk>, a: Analysis)
    requires Open(program, start, i, all) && AnalyzeChunk(program[start..i]) == Ok(a)
    ensures Flatten(all + [Chunk(program[start..i], a)]) == program[..i]
    ensures Shaped(all + [Chunk(program[start..i], a)])
  {
    ShapedAppend(all, Chunk(program[start..i], a));
    assert program[..start] + program[start..i] == program[..i];
  }

  /** The chunk being collected takes one more instruction. */
  lemma Extend(program: seq<Instruction>, start: int, i: int, all: seq<Chunk>)
    requires Open(program, start, i, all) && i < |program| && program[i].kind != Input
    ensures Open(program, start, i + 1, all)
    ensures program[start..i + 1] == program[start..i] + [program[i]]
  {
  }

  /** An input closes the chunk being collected and opens the next one. */
  lemma Reopen(program: seq<Instruction>, start: int, i: int, all: seq<Chunk>, a: Analysis)
    requires Open(program, start, i, all) && AnalyzeChunk(program[start..i]) == Ok(a)
    requires i < |program| && program[i].kind == Input
    ensures Open(program, i, i + 1, all + [Chunk(program[start..i], a)])
    ensures program[i..i + 1] == [program[i]]
  {
    Close(program, start, i, all, a);
  }

  /** ChunkInstructions: cuts the program before every input after the
      first instruction and analyses each chunk. It fails on an empty
      program (First) and on a chunk too short to analyse, which then
      exists. */
  method ChunkInstructions(program: seq<Instruction>) returns (r: Result<seq<Chunk>>)
    ensures r.Ok? ==> Flatten(r.value) == program && Shaped(r.value)
    ensures r.Err? ==> program == [] || exists i, j :: IsBlock(program, i, j) && j - i < 16
  {
    if program == [] {
      return Err("Sequence contains no elements");
    }
    var block := [program[0]];
    ghost var start := 0;
    var all: seq<Chunk> := [];
    var i := 1;
    while i < |program|
      invariant Open(program, start, i, all) && block == program[start..i]
    {
      if program[i].kind == Input {
        var a := AnalyzeChunk(block);
        if a.Err? {
          assert IsBlock(program, start, i);
          return Err(a.msg);
        }
        Reopen(program, start, i, all, a.value);
        all := all + [Chunk(block, a.value)];
        block := [program[i]];
        start := i;
      } else {
        Extend(program, start, i, all);
        block := block + [program[i]];
      }
      i := i + 1;
    }
    var a := AnalyzeChunk(block);
    if a.Err? {
      assert IsBlock(program, start, i);
      return Err(a.msg);
    }
    Close(program, start, i, all, a.value);
    assert program[..i] == program;
    r := Ok(all + [Chunk(block, a.value)]);
  }

  /** Running the chunks one after another. */
  function RunChunks(cs: seq<Chunk>, s: State, input: seq<int>): Result<(State, seq<int>)>
  {
    if cs == [] then Ok((s, input))
    else
      match RunChunks(cs[..|cs| - 1], s, input)
      case Err(msg) => Err(msg)
      case Ok(mid) => Run(cs[|cs| - 1].instructions, mid.0, mid.1)
  }

  /** Running the chunks in turn is running the program they cut. */
  lemma {:induction false} ChunksRun(cs: seq<Chunk>, s: State, input: seq<int>)
    ensures RunChunks(cs, s, input) == Run(Flatten(cs), s, input)
  {
    if cs != [] {
      var front := cs[..|cs| - 1];
      ChunksRun(front, s, input);
      RunConcat(Flatten(front), cs[|cs| - 1].instructions, s, input);
    }
  }

  // ---------------------------------------------------------------------
  // The shortcut

  /** ExecuteChunkFast: z divided by M when M > 1 (truncating), then, when
      w differs from the old z's remainder by 26 plus R, times 26 plus P
      plus w. No other register changes. */
  function ExecuteChunkFast(s: State, chunk: Chunk, w: int): (r: State)
    ensures r.w == s.w && r.x == s.x && r.y == s.y
  {
    var willIncrease := w != TruncRem(s.z, 26) + chunk.analysis.r;
    var z := if chunk.analysis.m > 1 then TruncDiv(s.z, chunk.analysis.m) else s.z;
    s.(z := if willIncrease then z * 26 + chunk.analysis.p + w else z)
  }

  function Reg(kind: Kind, first: Register, second: Register): Instruction
  {
    Instruction(kind, first, Some(second), 0)
  }

  function Const(kind: Kind, first: Register, constant: int): Instruction
  {
    Instruction(kind, first, None, constant)
  }

  /** The shape every chunk of the puzzle's programs has, with M, R and P
      at positions 4, 5 and 15: x becomes whether z should grow, then z
      is scaled by 26 or 1, then y = (w + P) * x is added. */
  function Standard(m: int, r: int, p: int): seq<Instruction>
  {
    Decide(m, r) + Scale() + Grow(p)
  }

  function Decide(m: int, r: int): seq<Instruction>
  {
    [Instruction(Input, W, None, 0)] + ([Const(Multiply, X, 0)] + ([Reg(Add, X, Z)] + ([Const(Mod, X, 26)] +
    ([Const(Divide, Z, m)] + ([Const(Add, X, r)] + ([Reg(Equal, X, W)] + [Const(Equal, X, 0)]))))))
  }

  function Scale(): seq<Instruction>
  {
    [Const(Multiply, Y, 0)] + ([Const(Add, Y, 25)] + ([Reg(Multiply, Y, X)] + ([Const(Add, Y, 1)] + [Reg(Multiply, Z, Y)])))
  }

  function Grow(p: int): seq<Instruction>
  {
    [Const(Multiply, Y, 0)] + ([Reg(Add, Y, W)] + ([Const(Add, Y, p)] + ([Reg(Multiply, Y, X)] + [Reg(Add, Z, Y)])))
  }

  lemma TruncDivOne(a: int)
    ensures TruncDiv(a, 1) == a
  {
  }

  /** One instruction that succeeds, then the rest. */
  lemma RunCons(ins: Instruction, prog: seq<Instruction>, s: State, input: seq<int>, next: State, left: seq<int>)
    requires Apply(ins, s, input) == Ok((next, left))
    ensures Run([ins] + prog, s, input) == Run(prog, next, left)
  {
    assert ([ins] + prog)[0] == ins && ([ins] + prog)[1..] == prog;
  }

  /** The last instruction of a run. */
  lemma RunOne(ins: Instruction, s: State, input: seq<int>, next: State, left: seq<int>)
    requires Apply(ins, s, input) == Ok((next, left))
    ensures Run([ins], s, input) == Ok((next, left))
  {
    assert [ins][1..] == [];
  }

  /** The first part leaves w = the input, z = z / M and x = 1 exactly when
      the input differs from z's remainder by 26 plus R. */
  lemma DecideRuns(m: int, r: int, s: State, w: int, rest: seq<int>)
    requires m >= 1
    ensures Run(Decide(m, r), s, [w] + rest) ==
      Ok((State(w, if w != TruncRem(s.z, 26) + r then 1 else 0, s.y, TruncDiv(s.z, m)), rest))
  {
    var t7 := [Const(Equal, X, 0)];
    var t6 := [Reg(Equal, X, W)] + t7;
    var t5 := [Const(Add, X, r)] + t6;
    var t4 := [Const(Divide, Z, m)] + t5;
    var t3 := [Const(Mod, X, 26)] + t4;
    var t2 := [Reg(Add, X, Z)] + t3;
    var t1 := [Const(Multiply, X, 0)] + t2;
    assert ([w] + rest)[1..] == rest;
    var s1 := s.(w := w);
    var s3 := s1.(x := s.z);
    var s4 := s3.(x := TruncRem(s.z, 26));
    var s5 := s4.(z := TruncDiv(s.z, m));
    var s6 := s5.(x := TruncRem(s.z, 26) + r);
    var s7 := s6.(x := if TruncRem(s.z, 26) + r == w then 1 else 0);
    var s8 := s7.(x := if w != TruncRem(s.z, 26) + r then 1 else 0);
    RunCons(Instruction(Input, W, None, 0), t1, s, [w] + rest, s1, rest);
    RunCons(Const(Multiply, X, 0), t2, s1, rest, s1.(x := 0), rest);
    RunCons(Reg(Add, X, Z), t3, s1.(x := 0), rest, s3, rest);
    RunCons(Const(Mod, X, 26), t4, s3, rest, s4, rest);
    RunCons(Const(Divide, Z, m), t5, s4, rest, s5, rest);
    RunCons(Const(Add, X, r), t6, s5, rest, s6, rest);
    RunCons(Reg(Equal, X, W), t7, s6, rest, s7, rest);
    RunOne(Const(Equal, X, 0), s7, rest, s8, rest);
  }

  /** The second part multiplies z by 26 when x is 1, and leaves y = 25x + 1. */
  lemma ScaleRuns(s: State, rest: seq<int>)
    ensures Run(Scale(), s, rest) == Ok((s.(y := 25 * s.x + 1, z := s.z * (25 * s.x + 1)), rest))
  {
    var t4 := [Reg(Multiply, Z, Y)];
    var t3 := [Const(Add, Y, 1)] + t4;
    var t2 := [Reg(Multiply, Y, X)] + t3;
    var t1 := [Const(Add, Y, 25)] + t2;
    RunCons(Const(Multiply, Y, 0), t1, s, rest, s.(y := 0), rest);
    RunCons(Const(Add, Y, 25), t2, s.(y := 0), rest, s.(y := 25), rest);
    RunCons(Reg(Multiply, Y, X), t3, s.(y := 25), rest, s.(y := 25 * s.x), rest);
    RunCons(Const(Add, Y, 1), t4, s.(y := 25 * s.x), rest, s.(y := 25 * s.x + 1), rest);
    RunOne(Reg(Multiply, Z, Y), s.(y := 25 * s.x + 1), rest, s.(y := 25 * s.x + 1, z := s.z * (25 * s.x + 1)), rest);
  }

  /** The third part adds (w + P) * x to z. */
  lemma GrowRuns(p: int, s: State, rest: seq<int>)
    ensures Run(Grow(p), s, rest) == Ok((s.(y := (s.w + p) * s.x, z := s.z + (s.w + p) * s.x), rest))
  {
    var t4 := [Reg(Add, Z, Y)];
    var t3 := [Reg(Multiply, Y, X)] + t4;
    var t2 := [Const(Add, Y, p)] + t3;
    var t1 := [Reg(Add, Y, W)] + t2;
    RunCons(Const(Multiply, Y, 0), t1, s, rest, s.(y := 0), rest);
    RunCons(Reg(Add, Y, W), t2, s.(y := 0), rest, s.(y := s.w), rest);
    RunCons(Const(Add, Y, p), t3, s.(y := s.w), rest, s.(y := s.w + p), rest);
    RunCons(Reg(Multiply, Y, X), t4, s.(y := s.w + p), rest, s.(y := (s.w + p) * s.x), rest);
    RunOne(Reg(Add, Z, Y), s.(y := (s.w + p) * s.x), rest, s.(y := (s.w + p) * s.x, z := s.z + (s.w + p) * s.x), rest);
  }

  /** The three parts in turn. */
  lemma StandardRuns(m: int, r: int, p: int, s: State, w: int, rest: seq<int>)
    requires m >= 1
    ensures var inc := if w != TruncRem(s.z, 26) + r then 1 else 0;
      var zq := TruncDiv(s.z, m);
      Run(Standard(m, r, p), s, [w] + rest) ==
        Ok((State(w, inc, (w + p) * inc, zq * (25 * inc + 1) + (w + p) * inc), rest))
  {
    var inc := if w != TruncRem(s.z, 26) + r then 1 else 0;
    var zq := TruncDiv(s.z, m);
    var s8 := State(w, inc, s.y, zq);
    var s13 := s8.(y := 25 * inc + 1, z := zq * (25 * inc + 1));
    DecideRuns(m, r, s, w, rest);
    ScaleRuns(s8, rest);
    GrowRuns(p, s13, rest);
    RunConcat(Decide(m, r), Scale() + Grow(p), s, [w] + rest);
    RunConcat(Scale(), Grow(p), s8, rest);
    assert Standard(m, r, p) == Decide(m, r) + (Scale() + Grow(p));
  }

  lemma AnalyzeStandard(m: int, r: int, p: int)
    ensures AnalyzeChunk(Standard(m, r, p)) == Ok(Analysis(m, r, p))
  {
    var P := Standard(m, r, p);
    assert |P| == 18;
    assert P[4] == Const(Divide, Z, m) && P[5] == Const(Add, X, r) && P[15] == Const(Add, Y, p);
  }

  /** On a chunk of the standard shape with M at least 1, the shortcut
      leaves z as running the chunk's instructions does on input w. */
  lemma FastAgrees(m: int, r: int, p: int, s: State, w: int, rest: seq<int>)
    requires m >= 1
    ensures AnalyzeChunk(Standard(m, r, p)) == Ok(Analysis(m, r, p))
    ensures Run(Standard(m, r, p), s, [w] + rest).Ok?
    ensures Run(Standard(m, r, p), s, [w] + rest).value.0.z ==
      ExecuteChunkFast(s, Chunk(Standard(m, r, p), Analysis(m, r, p)), w).z
    ensures Run(Standard(m, r, p), s, [w] + rest).value.0.w == w
    ensures Run(Standard(m, r, p), s, [w] + rest).value.1 == rest
  {
    AnalyzeStandard(m, r, p);
    StandardRuns(m, r, p, s, w, rest);
    TruncDivOne(s.z);
    var zq := TruncDiv(s.z, m);
    if w != TruncRem(s.z, 26) + r {
      assert zq * (25 * 1 + 1) + (w + p) * 1 == zq * 26 + p + w;
    } else {
      assert zq * (25 * 0 + 1) + (w + p) * 0 == zq;
    }
  }

  // ---------------------------------------------------------------------
  // Digits

  /** The number the digits spell: the sum of d_i times 10^(n-1-i). */
  function DigitsToNumber(d: seq<int>): int
  {
    if d == [] then 0 else d[0] * Pow(10, |d| - 1) + DigitsToNumber(d[1..])
  }

  /** ListToLong: adds each digit times its place value, from the last digit
      to the first. */
  method ListToLong(digits: seq<int>) returns (result: int)
    ensures result == DigitsToNumber(digits)
  {
    var shifter := 1;
    result := 0;
    var i := |digits| - 1;
    while i >= 0
      invariant -1 <= i < |digits|
      invariant shifter == Pow(10, |digits| - 1 - i)
      invariant result == DigitsToNumber(digits[i + 1..])
    {
      assert digits[i..][1..] == digits[i + 1..];
      result := result + shifter * digits[i];
      shifter := shifter * 10;
      i := i - 1;
    }
    assert digits[0..] == digits;
  }

  /** One more digit shifts the number one place and adds it. */
  lemma {:induction false} DigitsAppend(d: seq<int>, x: int)
    ensures DigitsToNumber(d + [x]) == 10 * DigitsToNumber(d) + x
  {
    if d == [] {
      assert DigitsToNumber([x]) == x * Pow(10, 0) + DigitsToNumber([]);
    } else {
      assert (d + [x])[1..] == d[1..] + [x];
      DigitsAppend(d[1..], x);
      PowAdd(10, 1, |d| - 1);
      assert d[0] * Pow(10, |d|) == 10 * (d[0] * Pow(10, |d| - 1));
    }
  }

  /** Decimal digits spell a number with at most as many digits. */
  lemma {:induction false} DigitsBound(d: seq<int>)
    requires forall i :: 0 <= i < |d| ==> 0 <= d[i] <= 9
    ensures 0 <= DigitsToNumber(d) < Pow(10, |d|)
  {
    if d != [] {
      DigitsBound(d[1..]);
      PowPositive(10, |d| - 1);
      assert d[0] * Pow(10, |d| - 1) <= 9 * Pow(10, |d| - 1);
    }
  }
}
