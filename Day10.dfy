/** Syntax scoring: bracket matching with a stack, finding the first
    mismatched closer or the closers that would complete a line. */
module Day10 {
  import opened Common

  predicate IsOpener(c: char) { c == '(' || c == '[' || c == '{' || c == '<' }

  predicate IsCloser(c: char) { c == ')' || c == ']' || c == '}' || c == '>' }

  /** The opening/closing token table. */
  function CloserOf(o: char): char
    requires IsOpener(o)
  {
    match o
    case '(' => ')'
    case '[' => ']'
    case '{' => '}'
    case '<' => '>'
  }

  /** FindOpenerForCloser: the table key whose value is c, or the default
      char when there is none. */
  function FindOpenerForCloser(c: char): (o: char)
    ensures IsCloser(c) ==> IsOpener(o) && CloserOf(o) == c
    ensures !IsCloser(c) ==> o == '\0'
  {
    match c
    case ')' => '('
    case ']' => '['
    case '}' => '{'
    case '>' => '<'
    case _ => '\0'
  }

  function CorruptionPoints(c: char): int
    requires IsCloser(c)
  {
    match c
    case ')' => 3
    case ']' => 57
    case '}' => 1197
    case '>' => 25137
  }

  function UnclosedPoints(c: char): int
    requires IsCloser(c)
  {
    match c
    case ')' => 1
    case ']' => 2
    case '}' => 3
    case '>' => 4
  }

  predicate AllClosers(cs: seq<char>) { forall i :: 0 <= i < |cs| ==> IsCloser(cs[i]) }

  /** ScoreCorruption: the sum of the corruption points of the characters; a
      character outside the table throws. */
  function ScoreCorruption(cs: seq<char>): (r: Result<int>)
    ensures r.Ok? <==> AllClosers(cs)
    ensures r.Ok? ==> r.value == Sum(seq(|cs|, i requires 0 <= i < |cs| && IsCloser(cs[i]) => CorruptionPoints(cs[i])))
  {
    if cs == [] then Ok(0)
    else
      var prefix := cs[..|cs| - 1];
      var last := cs[|cs| - 1];
      var rest := ScoreCorruption(prefix);
      if rest.Err? || !IsCloser(last) then Err("KeyNotFoundException")
      else
        ghost var pts := seq(|cs|, i requires 0 <= i < |cs| && IsCloser(cs[i]) => CorruptionPoints(cs[i]));
        assert pts[..|pts| - 1] == seq(|prefix|, i requires 0 <= i < |prefix| && IsCloser(prefix[i]) => CorruptionPoints(prefix[i]));
        Ok(rest.value + CorruptionPoints(last))
  }

  /** The completion score: the closers read as digits 1..4 in base 5,
      first closer most significant. */
  function UnclosedScore(cs: seq<char>): nat
    requires AllClosers(cs)
  {
    if cs == [] then 0 else UnclosedScore(cs[..|cs| - 1]) * 5 + UnclosedPoints(cs[|cs| - 1])
  }

  /** ScoreUnclosedValues: the accumulator loop; a character outside the
      table throws. */
  method ScoreUnclosedValues(cs: seq<char>) returns (r: Result<int>)
    ensures r.Ok? <==> AllClosers(cs)
    ensures r.Ok? ==> r.value == UnclosedScore(cs)
  {
    var shifter := 5;
    var sum := 0;
    var i := 0;
    while i < |cs|
      invariant 0 <= i <= |cs|
      invariant AllClosers(cs[..i]) && sum == UnclosedScore(cs[..i])
    {
      if !IsCloser(cs[i]) {
        return Err("KeyNotFoundException");
      }
      assert cs[..i + 1][..i] == cs[..i];
      sum := sum * shifter;
      sum := sum + UnclosedPoints(cs[i]);
      i := i + 1;
    }
    assert cs[..i] == cs;
    return Ok(sum);
  }

  /** Completion scores are digits 1..4 in base 5, with no zero digit, so
      different completions never score alike. */
  lemma {:induction false} UnclosedScoreInjective(a: seq<char>, b: seq<char>)
    requires AllClosers(a) && AllClosers(b)
    requires UnclosedScore(a) == UnclosedScore(b)
    ensures a == b
  {
    if a == [] || b == [] {
    } else {
      var la, lb := a[|a| - 1], b[|b| - 1];
      var pa, pb := UnclosedPoints(la), UnclosedPoints(lb);
      var sa, sb := UnclosedScore(a[..|a| - 1]), UnclosedScore(b[..|b| - 1]);
      assert sa * 5 + pa == sb * 5 + pb;
      assert pa == pb by {
        assert (sa * 5 + pa) % 5 == pa % 5;
        assert (sb * 5 + pb) % 5 == pb % 5;
      }
      assert la == lb;
      UnclosedScoreInjective(a[..|a| - 1], b[..|b| - 1]);
      assert a == a[..|a| - 1] + [la] && b == b[..|b| - 1] + [lb];
    }
  }

  // ---------------------------------------------------------------------
  // FindCorruption

  /** The state of the scan once the line is read: the first mismatched
      closer, or the stack of still-open openers (top at the end). */
  datatype Outcome = Mismatched(closer: char) | Open(stack: seq<char>)

  predicate AllOpeners(st: seq<char>) { forall i :: 0 <= i < |st| ==> IsOpener(st[i]) }

  /** The reference scan: push openers, pop on the matching closer, stop at
      the first closer that meets an empty stack or the wrong opener; any
      other character throws. */
  function Run(cs: seq<char>, stack: seq<char>): Result<Outcome>
  {
    if cs == [] then Ok(Open(stack))
    else
      var c := cs[0];
      if IsOpener(c) then Run(cs[1..], stack + [c])
      else if !IsCloser(c) then Err("ArgumentException: invalid token")
      else if stack == [] || stack[|stack| - 1] != FindOpenerForCloser(c) then Ok(Mismatched(c))
      else Run(cs[1..], stack[..|stack| - 1])
  }

  /** The closers of the open openers, most recent first. */
  function ClosersFor(stack: seq<char>): (r: seq<char>)
    requires AllOpeners(stack)
    ensures |r| == |stack| && AllClosers(r)
  {
    if stack == [] then []
    else [CloserOf(stack[|stack| - 1])] + ClosersFor(stack[..|stack| - 1])
  }

  datatype TokenParsingResult = TokenParsingResult(mismatchedCloser: Option<char>, missingClosers: seq<char>)

  lemma {:induction false} RunKeepsOpeners(cs: seq<char>, stack: seq<char>)
    requires AllOpeners(stack)
    ensures Run(cs, stack).Ok? && Run(cs, stack).value.Open? ==> AllOpeners(Run(cs, stack).value.stack)
  {
    if cs != [] {
      var c := cs[0];
      if IsOpener(c) {
        RunKeepsOpeners(cs[1..], stack + [c]);
      } else if IsCloser(c) && stack != [] {
        RunKeepsOpeners(cs[1..], stack[..|stack| - 1]);
      }
    }
  }

  /** What FindCorruption returns, as a function of the reference scan. */
  function Corruption(chars: seq<char>): Result<TokenParsingResult>
  {
    RunKeepsOpeners(chars, []);
    match Run(chars, [])
    case Err(e) => Err(e)
    case Ok(Mismatched(c)) => Ok(TokenParsingResult(Some(c), []))
    case Ok(Open(st)) => Ok(TokenParsingResult(None, ClosersFor(st)))
  }

  method FindCorruption(chars: seq<char>) returns (r: Result<TokenParsingResult>)
    ensures r == Corruption(chars)
  {
    var stack: seq<char> := [];
    var i := 0;
    while i < |chars|
      invariant 0 <= i <= |chars|
      invariant AllOpeners(stack)
      invariant Run(chars, []) == Run(chars[i..], stack)
    {
      var c := chars[i];
      assert chars[i..][0] == c && chars[i..][1..] == chars[i + 1..];
      if IsOpener(c) {
        assert Run(chars[i..], stack) == Run(chars[i + 1..], stack + [c]);
        stack := stack + [c];
      } else {
        if !IsCloser(c) {
          return Err("ArgumentException: invalid token");
        }
        if |stack| == 0 {
          return Ok(TokenParsingResult(Some(c), []));
        }
        var opener := FindOpenerForCloser(c);
        if stack[|stack| - 1] != opener {
          return Ok(TokenParsingResult(Some(c), []));
        }
        assert Run(chars[i..], stack) == Run(chars[i + 1..], stack[..|stack| - 1]);
        stack := stack[..|stack| - 1];
      }
      i := i + 1;
    }
    var requiredClosers := PopClosers(stack);
    return Ok(TokenParsingResult(None, requiredClosers));
  }

  /** The final loop of FindCorruption: pop every opener, collecting its
      closer. */
  method PopClosers(stack0: seq<char>) returns (requiredClosers: seq<char>)
    requires AllOpeners(stack0)
    ensures requiredClosers == ClosersFor(stack0)
  {
    var stack := stack0;
    requiredClosers := [];
    while |stack| > 0
      invariant AllOpeners(stack)
      invariant requiredClosers + ClosersFor(stack) == ClosersFor(stack0)
    {
      var popped := stack[|stack| - 1];
      assert ClosersFor(stack) == [CloserOf(popped)] + ClosersFor(stack[..|stack| - 1]);
      stack := stack[..|stack| - 1];
      requiredClosers := requiredClosers + [CloserOf(popped)];
    }
  }

  /** Reading a then b is reading a, then (if nothing stopped the scan)
      reading b from where a left the stack. */
  lemma {:induction false} RunConcat(a: seq<char>, b: seq<char>, stack: seq<char>)
    ensures Run(a + b, stack) ==
      match Run(a, stack)
      case Err(e) => Err(e)
      case Ok(Mismatched(c)) => Ok(Mismatched(c))
      case Ok(Open(st)) => Run(b, st)
  {
    if a == [] {
      assert a + b == b;
    } else {
      assert (a + b)[0] == a[0] && (a + b)[1..] == a[1..] + b;
      var c := a[0];
      if IsOpener(c) {
        RunConcat(a[1..], b, stack + [c]);
      } else if IsCloser(c) && stack != [] && stack[|stack| - 1] == FindOpenerForCloser(c) {
        RunConcat(a[1..], b, stack[..|stack| - 1]);
      }
    }
  }

  /** The closers of an open stack close it completely. */
  lemma {:induction false} ClosersClose(stack: seq<char>)
    requires AllOpeners(stack)
    ensures Run(ClosersFor(stack), stack) == Ok(Open([]))
  {
    if stack != [] {
      var top := stack[|stack| - 1];
      var rest := stack[..|stack| - 1];
      var cs := ClosersFor(stack);
      assert cs[0] == CloserOf(top) && cs[1..] == ClosersFor(rest);
      ClosersClose(rest);
    }
  }

  /** For an uncorrupted line, appending its missing closers makes a line
      that scans to an empty stack with nothing missing. */
  lemma CompletionBalances(line: seq<char>)
    requires Corruption(line).Ok? && Corruption(line).value.mismatchedCloser.None?
    ensures Corruption(line + Corruption(line).value.missingClosers) == Ok(TokenParsingResult(None, []))
  {
    RunKeepsOpeners(line, []);
    var st := Run(line, []).value.stack;
    RunConcat(line, ClosersFor(st), []);
    ClosersClose(st);
  }

  // A properly nested line, as a forest of chunks.

  datatype Chunk = Chunk(opener: char, children: seq<Chunk>)

  predicate WellFormed(c: Chunk)
  {
    IsOpener(c.opener) && forall i :: 0 <= i < |c.children| ==> WellFormed(c.children[i])
  }

  function Render(c: Chunk): seq<char>
    requires WellFormed(c)
  {
    [c.opener] + RenderAll(c.children) + [CloserOf(c.opener)]
  }

  function RenderAll(cs: seq<Chunk>): seq<char>
    requires forall i :: 0 <= i < |cs| ==> WellFormed(cs[i])
  {
    if cs == [] then [] else Render(cs[0]) + RenderAll(cs[1..])
  }

  lemma {:induction false} RenderScans(c: Chunk, stack: seq<char>)
    requires WellFormed(c)
    ensures Run(Render(c), stack) == Ok(Open(stack))
    decreases c, 1
  {
    var inner := RenderAll(c.children);
    var close := [CloserOf(c.opener)];
    assert Render(c) == [c.opener] + (inner + close);
    RenderAllScans(c.children, stack + [c.opener]);
    RunConcat(inner, close, stack + [c.opener]);
    assert (stack + [c.opener])[..|stack|] == stack;
  }

  lemma {:induction false} RenderAllScans(cs: seq<Chunk>, stack: seq<char>)
    requires forall i :: 0 <= i < |cs| ==> WellFormed(cs[i])
    ensures Run(RenderAll(cs), stack) == Ok(Open(stack))
    decreases cs, 0
  {
    if cs != [] {
      RenderScans(cs[0], stack);
      RenderAllScans(cs[1..], stack);
      RunConcat(Render(cs[0]), RenderAll(cs[1..]), stack);
    }
  }

  /** A properly nested line has no mismatched closer and nothing missing. */
  lemma NestedLineIsComplete(cs: seq<Chunk>)
    requires forall i :: 0 <= i < |cs| ==> WellFormed(cs[i])
    ensures Corruption(RenderAll(cs)) == Ok(TokenParsingResult(None, []))
  {
    RenderAllScans(cs, []);
  }
}
