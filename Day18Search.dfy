/** The searches that drive reduction (FindExplodee, FindSplitee), one
    reduction step, the reduce loop, addition of snailfish numbers and the
    search for the largest magnitude of a sum of two of them. The reduce
    loop of the C# code has no bound; here it is given fuel, and running
    out of fuel is a result of its own. */
module Day18Search {
  import opened Common
  import opened Day18
  import opened Day18Reduce

  /** A path that starts with one step from a pair. */
  lemma ConsStep(t: Tree, s: Side, q: seq<Side>)
    requires t.Pair?
    ensures ValidPath(t, [s] + q) == ValidPath(Child(t, s), q)
    ensures ValidPath(t, [s] + q) ==> Sub(t, [s] + q) == Sub(Child(t, s), q)
    ensures ValidPath(t, [s] + q) ==>
              Before(t, [s] + q) == (if s == GoLeft then 0 else |Leaves(t.left)|) + Before(Child(t, s), q)
  {
    assert ([s] + q)[0] == s && ([s] + q)[1..] == q;
  }

  /** A non-empty path is its first step followed by the rest. */
  lemma Uncons(q: seq<Side>)
    requires q != []
    ensures q == [q[0]] + q[1..]
  {
  }

  // ---------------------------------------------------------------------
  // FindExplodee

  /** How many levels below a node at depth `depth` FindExplodee looks. */
  function Remaining(depth: int, explodeDepth: int): nat
  {
    if depth >= explodeDepth then 0 else explodeDepth - depth
  }

  /** FindExplodee: at explodeDepth the node itself if it is a pair;
      above it, the left subtree's answer if there is one, else the right
      subtree's; a leaf above explodeDepth has no children and yields
      nothing. */
  function FindExplodee(depth: int, t: Tree, explodeDepth: int): (r: Option<seq<Side>>)
    ensures r.Some? ==> PairAt(t, r.value) && |r.value| == Remaining(depth, explodeDepth)
    decreases t
  {
    if depth >= explodeDepth then
      if t.Pair? then Some([]) else None
    else if t.Leaf? then None
    else
      match FindExplodee(depth + 1, t.left, explodeDepth)
      case Some(q) =>
        ConsStep(t, GoLeft, q);
        Some([GoLeft] + q)
      case None =>
        match FindExplodee(depth + 1, t.right, explodeDepth)
        case Some(q) =>
          ConsStep(t, GoRight, q);
          Some([GoRight] + q)
        case None => None
  }

  /** The leftmost pair exactly n levels down: no other pair at that
      depth has fewer leaves before it. */
  ghost predicate LeftmostAt(t: Tree, p: seq<Side>, n: nat)
  {
    PairAt(t, p) && |p| == n && forall q :: PairAt(t, q) && |q| == n ==> Before(t, p) <= Before(t, q)
  }

  /** FindExplodee returns the leftmost pair at the depth it looks at, and
      nothing exactly when there is no pair at that depth. */
  lemma {:induction false} FindExplodeeSpec(depth: int, t: Tree, explodeDepth: int)
    ensures FindExplodee(depth, t, explodeDepth).Some? ==>
              LeftmostAt(t, FindExplodee(depth, t, explodeDepth).value, Remaining(depth, explodeDepth))
    ensures FindExplodee(depth, t, explodeDepth).None? ==>
              forall q :: PairAt(t, q) ==> |q| != Remaining(depth, explodeDepth)
    decreases t
  {
    var n := Remaining(depth, explodeDepth);
    if depth >= explodeDepth {
      forall q | PairAt(t, q) && |q| == n
        ensures FindExplodee(depth, t, explodeDepth) == Some([]) && Before(t, []) <= Before(t, q)
      {
        assert q == [];
      }
    } else if t.Pair? {
      FindExplodeeSpec(depth + 1, t.left, explodeDepth);
      FindExplodeeSpec(depth + 1, t.right, explodeDepth);
      assert Remaining(depth + 1, explodeDepth) == n - 1;
      ExplodeePair(t, n, FindExplodee(depth + 1, t.left, explodeDepth), FindExplodee(depth + 1, t.right, explodeDepth),
        FindExplodee(depth, t, explodeDepth));
    }
  }

  /** The step of FindExplodeeSpec at a pair above the depth looked at. */
  lemma ExplodeePair(t: Tree, n: nat, left: Option<seq<Side>>, right: Option<seq<Side>>, r: Option<seq<Side>>)
    requires t.Pair? && n >= 1
    requires left.Some? ==> LeftmostAt(t.left, left.value, n - 1)
    requires left.None? ==> forall q :: PairAt(t.left, q) ==> |q| != n - 1
    requires right.Some? ==> LeftmostAt(t.right, right.value, n - 1)
    requires right.None? ==> forall q :: PairAt(t.right, q) ==> |q| != n - 1
    requires r == if left.Some? then Some([GoLeft] + left.value) else if right.Some? then Some([GoRight] + right.value) else None
    ensures r.Some? ==> LeftmostAt(t, r.value, n)
    ensures r.None? ==> forall q :: PairAt(t, q) ==> |q| != n
  {
    forall q | PairAt(t, q) && |q| == n
      ensures q[0] == GoLeft ==> left.Some? && Before(t, q) == Before(t.left, q[1..])
      ensures q[0] == GoLeft ==> Before(t.left, left.value) <= Before(t, q)
      ensures q[0] == GoRight ==> right.Some? || left.Some?
      ensures q[0] == GoRight ==> Before(t, q) == |Leaves(t.left)| + Before(t.right, q[1..])
      ensures q[0] == GoRight && left.None? ==> Before(t.right, right.value) <= Before(t.right, q[1..])
    {
      Uncons(q);
      ConsStep(t, q[0], q[1..]);
    }
    if left.Some? {
      ConsStep(t, GoLeft, left.value);
      SubLeaves(t.left, left.value);
    } else if right.Some? {
      ConsStep(t, GoRight, right.value);
    }
  }

  /** Going up a path never leaves the pairs: a pair deeper than n has a
      pair above it exactly n levels down. */
  lemma PairAbove(t: Tree, q: seq<Side>, n: nat)
    requires PairAt(t, q) && n <= |q|
    ensures PairAt(t, q[..n])
  {
    if n < |q| {
      Fork(t, q, n);
    } else {
      assert q[..n] == q;
    }
  }

  // ---------------------------------------------------------------------
  // FindSplitee

  /** FindSplitee: a leaf answers for itself; a pair asks its left subtree
      first. */
  function FindSplitee(t: Tree, maxValue: int): (r: Option<seq<Side>>)
    ensures r.Some? ==> LeafAt(t, r.value)
  {
    if t.Leaf? then
      if t.value >= maxValue then Some([]) else None
    else
      match FindSplitee(t.left, maxValue)
      case Some(q) =>
        ConsStep(t, GoLeft, q);
        Some([GoLeft] + q)
      case None =>
        match FindSplitee(t.right, maxValue)
        case Some(q) =>
          ConsStep(t, GoRight, q);
          Some([GoRight] + q)
        case None => None
  }

  /** The first leaf, in left-to-right order, whose value is at least
      maxValue. */
  ghost predicate FirstAtLeast(t: Tree, q: seq<Side>, maxValue: int)
  {
    LeafAt(t, q) && Before(t, q) < |Leaves(t)| && Leaves(t)[Before(t, q)] == Sub(t, q).value &&
    Sub(t, q).value >= maxValue &&
    forall i :: 0 <= i < Before(t, q) ==> Leaves(t)[i] < maxValue
  }

  /** FindSplitee returns the first leaf that is at least maxValue, and
      nothing exactly when every leaf is below it. */
  lemma {:induction false} FindSpliteeSpec(t: Tree, maxValue: int)
    ensures FindSplitee(t, maxValue).Some? ==> FirstAtLeast(t, FindSplitee(t, maxValue).value, maxValue)
    ensures FindSplitee(t, maxValue).None? <==> forall i :: 0 <= i < |Leaves(t)| ==> Leaves(t)[i] < maxValue
  {
    if t.Pair? {
      FindSpliteeSpec(t.left, maxValue);
      FindSpliteeSpec(t.right, maxValue);
      var inLeft, inRight := FindSplitee(t.left, maxValue), FindSplitee(t.right, maxValue);
      assert Leaves(t) == Leaves(t.left) + Leaves(t.right);
      if inLeft.Some? {
        var q := inLeft.value;
        ConsStep(t, GoLeft, q);
        assert Leaves(t)[Before(t.left, q)] == Leaves(t.left)[Before(t.left, q)];
      } else if inRight.Some? {
        var q := inRight.value;
        ConsStep(t, GoRight, q);
        assert Leaves(t)[|Leaves(t.left)| + Before(t.right, q)] == Leaves(t.right)[Before(t.right, q)];
        forall i | 0 <= i < |Leaves(t.left)| + Before(t.right, q)
          ensures Leaves(t)[i] < maxValue
        {
          if i >= |Leaves(t.left)| {
            assert Leaves(t)[i] == Leaves(t.right)[i - |Leaves(t.left)|];
          }
        }
      } else {
        forall i | 0 <= i < |Leaves(t)|
          ensures Leaves(t)[i] < maxValue
        {
          if i >= |Leaves(t.left)| {
            assert Leaves(t)[i] == Leaves(t.right)[i - |Leaves(t.left)|];
          }
        }
      }
    } else {
      assert Leaves(t) == [t.value];
      if t.value >= maxValue {
        assert Leaves(t)[0] >= maxValue;
      }
    }
  }

  // ---------------------------------------------------------------------
  // One reduction step and the reduce loop

  /** Reduced: no pair at depth ExplodeDepth or deeper and no leaf of
      SplitMax or more. */
  ghost predicate Reduced(t: Tree)
  {
    (forall q :: PairAt(t, q) ==> |q| < ExplodeDepth) &&
    (forall i :: 0 <= i < |Leaves(t)| ==> Leaves(t)[i] < SplitMax)
  }

  /** SingleReduceStep: explode if there is something to explode, else
      split if there is something to split; None is the C# `false`. */
  function SingleReduceStep(t: Tree): Option<Tree>
  {
    match FindExplodee(0, t, ExplodeDepth)
    case Some(p) => Some(Explode(t, p))
    case None =>
      match FindSplitee(t, SplitMax)
      case Some(q) => Some(Split(t, q))
      case None => None
  }

  /** An explosion comes first: when a pair sits at depth ExplodeDepth or
      deeper, the step explodes the leftmost pair at depth ExplodeDepth;
      otherwise, when a leaf is SplitMax or more, it splits the first such
      leaf; and the step does nothing exactly when the number is
      reduced. */
  lemma SingleReduceStepSpec(t: Tree)
    ensures (exists q :: PairAt(t, q) && |q| >= ExplodeDepth) ==>
              exists p :: LeftmostAt(t, p, ExplodeDepth) && SingleReduceStep(t) == Some(Explode(t, p))
    ensures (forall q :: PairAt(t, q) ==> |q| < ExplodeDepth) && (exists i :: 0 <= i < |Leaves(t)| && Leaves(t)[i] >= SplitMax) ==>
              exists q :: FirstAtLeast(t, q, SplitMax) && SingleReduceStep(t) == Some(Split(t, q))
    ensures SingleReduceStep(t).None? <==> Reduced(t)
  {
    FindExplodeeSpec(0, t, ExplodeDepth);
    FindSpliteeSpec(t, SplitMax);
    assert Remaining(0, ExplodeDepth) == ExplodeDepth;
    match FindExplodee(0, t, ExplodeDepth)
    case Some(p) =>
      assert LeftmostAt(t, p, ExplodeDepth);
      assert !(forall q :: PairAt(t, q) ==> |q| < ExplodeDepth) by {
        assert PairAt(t, p) && |p| == ExplodeDepth;
      }
    case None =>
      forall q | PairAt(t, q)
        ensures |q| < ExplodeDepth
      {
        if |q| >= ExplodeDepth {
          PairAbove(t, q, ExplodeDepth);
          assert false;
        }
      }
      match FindSplitee(t, SplitMax)
      case Some(q) =>
        assert FirstAtLeast(t, q, SplitMax);
      case None =>
        assert Reduced(t);
        assert SingleReduceStep(t) == None;
  }

  /** Reduce with fuel: reduction steps until there is nothing to do
      (Some), or None when there would be more than fuel steps. */
  function ReduceFor(t: Tree, fuel: nat): Option<Tree>
    decreases fuel
  {
    match SingleReduceStep(t)
    case None => Some(t)
    case Some(u) => if fuel == 0 then None else ReduceFor(u, fuel - 1)
  }

  /** What Reduce yields is reduced. */
  lemma {:induction false} ReduceForReduced(t: Tree, fuel: nat)
    requires ReduceFor(t, fuel).Some?
    ensures Reduced(ReduceFor(t, fuel).value)
    decreases fuel
  {
    match SingleReduceStep(t)
    case None =>
      SingleReduceStepSpec(t);
    case Some(u) =>
      ReduceForReduced(u, fuel - 1);
  }

  /** A reduced number is left as it is. */
  lemma ReduceForIdle(t: Tree, fuel: nat)
    requires Reduced(t)
    ensures ReduceFor(t, fuel) == Some(t)
  {
    SingleReduceStepSpec(t);
  }

  /** More fuel does not change a result that the lesser fuel reached. */
  lemma {:induction false} ReduceForMoreFuel(t: Tree, fuel: nat, more: nat)
    requires ReduceFor(t, fuel).Some? && fuel <= more
    ensures ReduceFor(t, more) == ReduceFor(t, fuel)
    decreases fuel
  {
    match SingleReduceStep(t)
    case None =>
    case Some(u) =>
      ReduceForMoreFuel(u, fuel - 1, more - 1);
  }

  /** Reduce: the while loop around SingleReduceStep. */
  method Reduce(t: Tree, fuel: nat) returns (r: Option<Tree>)
    ensures r == ReduceFor(t, fuel)
    ensures r.Some? ==> Reduced(r.value)
  {
    var node := t;
    var left := fuel;
    while true
      invariant ReduceFor(node, left) == ReduceFor(t, fuel)
      decreases left
    {
      var step := SingleReduceStep(node);
      if step.None? {
        r := Some(node);
        break;
      }
      if left == 0 {
        r := None;
        break;
      }
      node := step.value;
      left := left - 1;
    }
    if r.Some? {
      ReduceForReduced(t, fuel);
    }
  }

  // ---------------------------------------------------------------------
  // Addition

  /** The sum of two snailfish numbers: the pair of both, reduced. */
  function SumFor(first: Tree, second: Tree, fuel: nat): Option<Tree>
  {
    ReduceFor(Pair(0, first, second), fuel)
  }

  /** Add(first, second): a new pair node over both, then Reduce. */
  method Add(first: Tree, second: Tree, fuel: nat) returns (r: Option<Tree>)
    ensures r == SumFor(first, second, fuel)
    ensures r.Some? ==> Reduced(r.value)
  {
    r := Reduce(Pair(0, first, second), fuel);
  }

  /** The sum of a list, from the first number on; no numbers is the
      InvalidOperationException of First(). */
  function SumAllFor(nodes: seq<Tree>, fuel: nat): Result<Tree>
  {
    if nodes == [] then Err("InvalidOperationException")
    else SumFrom(nodes[0], nodes[1..], fuel)
  }

  /** The running sum folded over the remaining numbers. */
  function SumFrom(acc: Tree, rest: seq<Tree>, fuel: nat): Result<Tree>
    decreases |rest|
  {
    if rest == [] then Ok(acc)
    else match SumFor(acc, rest[0], fuel)
      case None => Err(OutOfFuel)
      case Some(u) => SumFrom(u, rest[1..], fuel)
  }

  const OutOfFuel: string := "reduction needs more steps than the fuel allows"

  /** A sum of two or more numbers is reduced. */
  lemma {:induction false} SumFromReduced(acc: Tree, rest: seq<Tree>, fuel: nat)
    requires rest != [] && SumFrom(acc, rest, fuel).Ok?
    ensures Reduced(SumFrom(acc, rest, fuel).value)
    decreases |rest|
  {
    var u := SumFor(acc, rest[0], fuel);
    ReduceForReduced(Pair(0, acc, rest[0]), fuel);
    if rest[1..] != [] {
      SumFromReduced(u.value, rest[1..], fuel);
    }
  }

  /** Add(nodes): the first number, then each further number added on the
      right. */
  method AddAll(nodes: seq<Tree>, fuel: nat) returns (r: Result<Tree>)
    ensures r == SumAllFor(nodes, fuel)
    ensures |nodes| >= 2 && r.Ok? ==> Reduced(r.value)
  {
    if nodes == [] {
      return Err("InvalidOperationException");
    }
    var addedNode := nodes[0];
    for i := 1 to |nodes|
      invariant SumFrom(addedNode, nodes[i..], fuel) == SumAllFor(nodes, fuel)
    {
      assert nodes[i..][0] == nodes[i] && nodes[i..][1..] == nodes[i + 1..];
      var sum := Add(addedNode, nodes[i], fuel);
      if sum.None? {
        return Err(OutOfFuel);
      }
      addedNode := sum.value;
    }
    assert nodes[|nodes|..] == [];
    r := Ok(addedNode);
    if |nodes| >= 2 {
      SumFromReduced(nodes[0], nodes[1..], fuel);
    }
  }

  // ---------------------------------------------------------------------
  // The largest magnitude of a sum of two numbers

  /** The ordered pairs of positions whose sum the search looks at: the
      first before the second as the C# loops run, or (bothOrders) any two
      different positions. */
  predicate Counted(i: int, j: int, n: int, bothOrders: bool)
  {
    0 <= i < n && 0 <= j < n && (if bothOrders then i != j else i < j)
  }

  /** The pairs the two loops have reached before (first, second). */
  predicate Upto(i: int, j: int, first: int, second: int)
  {
    i < first || (i == first && j < second)
  }

  /** greatest after the pairs before (first, second): each of those sums
      reduces within the fuel and has a magnitude of at most greatest,
      which is 0 (its starting value) or one of those magnitudes. */
  ghost predicate Scanned(nodes: seq<Tree>, fuel: nat, bothOrders: bool, first: int, second: int, greatest: int)
  {
    0 <= greatest &&
    (forall i, j :: Counted(i, j, |nodes|, bothOrders) && Upto(i, j, first, second) ==>
       SumFor(nodes[i], nodes[j], fuel).Some? && Magnitude(SumFor(nodes[i], nodes[j], fuel).value) <= greatest) &&
    (greatest == 0 ||
     exists i, j :: Counted(i, j, |nodes|, bothOrders) && Upto(i, j, first, second) &&
       SumFor(nodes[i], nodes[j], fuel).Some? && Magnitude(SumFor(nodes[i], nodes[j], fuel).value) == greatest)
  }

  /** m is the largest magnitude of a counted sum, or 0 when every such
      magnitude is negative or there is no counted pair; every counted sum
      reduces within the fuel. */
  ghost predicate IsLargest(nodes: seq<Tree>, fuel: nat, bothOrders: bool, m: int)
  {
    0 <= m &&
    (forall i, j :: Counted(i, j, |nodes|, bothOrders) ==>
       SumFor(nodes[i], nodes[j], fuel).Some? && Magnitude(SumFor(nodes[i], nodes[j], fuel).value) <= m) &&
    (m == 0 ||
     exists i, j :: Counted(i, j, |nodes|, bothOrders) &&
       SumFor(nodes[i], nodes[j], fuel).Some? && Magnitude(SumFor(nodes[i], nodes[j], fuel).value) == m)
  }

  /** One more pair looked at. */
  lemma ScanOne(nodes: seq<Tree>, fuel: nat, bothOrders: bool, first: int, second: int, greatest: int, m: int)
    requires Scanned(nodes, fuel, bothOrders, first, second, greatest)
    requires Counted(first, second, |nodes|, bothOrders)
    requires SumFor(nodes[first], nodes[second], fuel).Some? && m == Magnitude(SumFor(nodes[first], nodes[second], fuel).value)
    ensures Scanned(nodes, fuel, bothOrders, first, second + 1, if m > greatest then m else greatest)
  {
    var g := if m > greatest then m else greatest;
    forall i, j | Counted(i, j, |nodes|, bothOrders) && Upto(i, j, first, second + 1)
      ensures SumFor(nodes[i], nodes[j], fuel).Some? && Magnitude(SumFor(nodes[i], nodes[j], fuel).value) <= g
    {
      if !Upto(i, j, first, second) {
        assert i == first && j == second;
      }
    }
    if g != 0 {
      if m > greatest {
        assert Counted(first, second, |nodes|, bothOrders) && Upto(first, second, first, second + 1);
      } else {
        var i, j :| Counted(i, j, |nodes|, bothOrders) && Upto(i, j, first, second) &&
          SumFor(nodes[i], nodes[j], fuel).Some? && Magnitude(SumFor(nodes[i], nodes[j], fuel).value) == greatest;
        assert Upto(i, j, first, second + 1);
      }
    }
  }

  /** A pair that is not counted is passed over. */
  lemma SkipOne(nodes: seq<Tree>, fuel: nat, bothOrders: bool, first: int, second: int, greatest: int)
    requires Scanned(nodes, fuel, bothOrders, first, second, greatest)
    requires !Counted(first, second, |nodes|, bothOrders)
    ensures Scanned(nodes, fuel, bothOrders, first, second + 1, greatest)
  {
    forall i, j | Counted(i, j, |nodes|, bothOrders) && Upto(i, j, first, second + 1)
      ensures Upto(i, j, first, second)
    {
    }
    if greatest != 0 {
      var i, j :| Counted(i, j, |nodes|, bothOrders) && Upto(i, j, first, second) &&
        SumFor(nodes[i], nodes[j], fuel).Some? && Magnitude(SumFor(nodes[i], nodes[j], fuel).value) == greatest;
      assert Upto(i, j, first, second + 1);
    }
  }

  /** The inner loop may start at second == first + 1: the pairs it leaves
      out come first and are not counted. */
  lemma RowStart(nodes: seq<Tree>, fuel: nat, first: int, greatest: int)
    requires Scanned(nodes, fuel, false, first, 0, greatest)
    ensures Scanned(nodes, fuel, false, first, first + 1, greatest)
  {
    forall i, j | Counted(i, j, |nodes|, false) && Upto(i, j, first, first + 1)
      ensures Upto(i, j, first, 0)
    {
    }
    if greatest != 0 {
      var i, j :| Counted(i, j, |nodes|, false) && Upto(i, j, first, 0) &&
        SumFor(nodes[i], nodes[j], fuel).Some? && Magnitude(SumFor(nodes[i], nodes[j], fuel).value) == greatest;
      assert Upto(i, j, first, first + 1);
    }
  }

  /** A finished row is the start of the next one. */
  lemma RowEnd(nodes: seq<Tree>, fuel: nat, bothOrders: bool, first: int, greatest: int)
    requires Scanned(nodes, fuel, bothOrders, first, |nodes|, greatest)
    ensures Scanned(nodes, fuel, bothOrders, first + 1, 0, greatest)
  {
    forall i, j | Counted(i, j, |nodes|, bothOrders) && Upto(i, j, first + 1, 0)
      ensures Upto(i, j, first, |nodes|)
    {
    }
    if greatest != 0 {
      var i, j :| Counted(i, j, |nodes|, bothOrders) && Upto(i, j, first, |nodes|) &&
        SumFor(nodes[i], nodes[j], fuel).Some? && Magnitude(SumFor(nodes[i], nodes[j], fuel).value) == greatest;
      assert Upto(i, j, first + 1, 0);
    }
  }

  /** Once the rows that hold counted pairs are done, greatest is the
      answer. */
  lemma ScanDone(nodes: seq<Tree>, fuel: nat, bothOrders: bool, first: int, greatest: int)
    requires Scanned(nodes, fuel, bothOrders, first, 0, greatest)
    requires first >= |nodes| || (!bothOrders && first >= |nodes| - 1)
    ensures IsLargest(nodes, fuel, bothOrders, greatest)
  {
    forall i, j | Counted(i, j, |nodes|, bothOrders)
      ensures Upto(i, j, first, 0)
    {
    }
  }

  /** FindLargestMagnitude as written: every pair with the first number
      before the second, added in that order. A sum that needs more than
      the fuel ends the search with None. */
  method FindLargestMagnitude(nodes: seq<Tree>, fuel: nat) returns (r: Option<int>)
    ensures r.Some? ==> IsLargest(nodes, fuel, false, r.value)
    ensures r.None? ==> exists i, j :: Counted(i, j, |nodes|, false) && SumFor(nodes[i], nodes[j], fuel).None?
  {
    var greatest := 0;
    var first := 0;
    while first < |nodes| - 1
      invariant 0 <= first && (first <= |nodes| - 1 || first == 0)
      invariant Scanned(nodes, fuel, false, first, 0, greatest)
      decreases |nodes| - first
    {
      RowStart(nodes, fuel, first, greatest);
      var second := first + 1;
      while second < |nodes|
        invariant first + 1 <= second <= |nodes|
        invariant Scanned(nodes, fuel, false, first, second, greatest)
        decreases |nodes| - second
      {
        var added := Add(nodes[first], nodes[second], fuel);
        if added.None? {
          assert Counted(first, second, |nodes|, false);
          return None;
        }
        var magnitude := Magnitude(added.value);
        ScanOne(nodes, fuel, false, first, second, greatest, magnitude);
        if magnitude > greatest {
          greatest := magnitude;
        }
        second := second + 1;
      }
      RowEnd(nodes, fuel, false, first, greatest);
      first := first + 1;
    }
    ScanDone(nodes, fuel, false, first, greatest);
    return Some(greatest);
  }

  /** The search over every ordered pair of different numbers: snailfish
      addition is not commutative, so x + y and y + x are both
      candidates. */
  method FindLargestMagnitudeEitherOrder(nodes: seq<Tree>, fuel: nat) returns (r: Option<int>)
    ensures r.Some? ==> IsLargest(nodes, fuel, true, r.value)
    ensures r.None? ==> exists i, j :: Counted(i, j, |nodes|, true) && SumFor(nodes[i], nodes[j], fuel).None?
  {
    var greatest := 0;
    var first := 0;
    while first < |nodes|
      invariant 0 <= first <= |nodes|
      invariant Scanned(nodes, fuel, true, first, 0, greatest)
      decreases |nodes| - first
    {
      var second := 0;
      while second < |nodes|
        invariant 0 <= second <= |nodes|
        invariant Scanned(nodes, fuel, true, first, second, greatest)
        decreases |nodes| - second
      {
        if first == second {
          SkipOne(nodes, fuel, true, first, second, greatest);
        } else {
          var added := Add(nodes[first], nodes[second], fuel);
          if added.None? {
            assert Counted(first, second, |nodes|, true);
            return None;
          }
          var magnitude := Magnitude(added.value);
          ScanOne(nodes, fuel, true, first, second, greatest, magnitude);
          if magnitude > greatest {
            greatest := magnitude;
          }
        }
        second := second + 1;
      }
      RowEnd(nodes, fuel, true, first, greatest);
      first := first + 1;
    }
    ScanDone(nodes, fuel, true, first, greatest);
    return Some(greatest);
  }

  /** [[1,1],[2,2]] has magnitude 35 and [[2,2],[1,1]] has 40: the search
      as written answers 35 for the list [1,1], [2,2], while the largest
      magnitude of a sum of two different numbers of the list is 40. */
  lemma OneOrderMissesLarger(fuel: nat)
    ensures var nodes := [Pair(0, Leaf(1), Leaf(1)), Pair(0, Leaf(2), Leaf(2))];
            (forall m :: IsLargest(nodes, fuel, false, m) ==> m == 35) &&
            IsLargest(nodes, fuel, true, 40)
  {
    var a, b := Pair(0, Leaf(1), Leaf(1)), Pair(0, Leaf(2), Leaf(2));
    var nodes := [a, b];
    SmallSum(a, b, fuel);
    SmallSum(b, a, fuel);
    assert Magnitude(Pair(0, a, b)) == 35 && Magnitude(Pair(0, b, a)) == 40;
    forall m | IsLargest(nodes, fuel, false, m)
      ensures m == 35
    {
      assert Counted(0, 1, 2, false);
      if m != 0 {
        var i, j :| Counted(i, j, |nodes|, false) &&
          SumFor(nodes[i], nodes[j], fuel).Some? && Magnitude(SumFor(nodes[i], nodes[j], fuel).value) == m;
        assert i == 0 && j == 1;
      }
    }
    forall i, j | Counted(i, j, |nodes|, true)
      ensures SumFor(nodes[i], nodes[j], fuel).Some? && Magnitude(SumFor(nodes[i], nodes[j], fuel).value) <= 40
    {
      assert (i == 0 && j == 1) || (i == 1 && j == 0);
    }
    assert Counted(1, 0, 2, true) && SumFor(nodes[1], nodes[0], fuel) == Some(Pair(0, b, a));
  }

  /** The sum of two pairs of single digits is already reduced. */
  lemma SmallSum(a: Tree, b: Tree, fuel: nat)
    requires a.Pair? && a.left.Leaf? && a.right.Leaf? && 0 <= a.left.value < SplitMax && 0 <= a.right.value < SplitMax
    requires b.Pair? && b.left.Leaf? && b.right.Leaf? && 0 <= b.left.value < SplitMax && 0 <= b.right.value < SplitMax
    ensures SumFor(a, b, fuel) == Some(Pair(0, a, b))
  {
    var t := Pair(0, a, b);
    assert FindExplodee(0, t, ExplodeDepth) == None;
    assert FindSplitee(a.left, SplitMax) == None && FindSplitee(a.right, SplitMax) == None;
    assert FindSplitee(b.left, SplitMax) == None && FindSplitee(b.right, SplitMax) == None;
    assert FindSplitee(a, SplitMax) == None && FindSplitee(b, SplitMax) == None;
    assert FindSplitee(t, SplitMax) == None;
  }

  /** Copy: a copy node by node with the same Values; as values, the same
      tree. */
  function Copy(t: Tree): (c: Tree)
    ensures c == t
  {
    match t
    case Leaf(v) => Leaf(v)
    case Pair(v, l, r) => Pair(v, Copy(l), Copy(r))
  }
}
