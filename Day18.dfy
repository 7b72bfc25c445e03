/** Snailfish numbers as trees. A TreeNode without a Left child is a leaf
    holding Value; a pair node has both children and also a Value of its
    own (0 when parsed or built by Add, -1 after a split) that Format and
    Magnitude ignore but Explode reads when an exploding pair's child is
    itself a pair. Nodes are addressed by paths of left/right steps from
    the root, which stand in for the Parent pointers of the C# tree. */
module Day18 {
  import opened Common

  datatype Tree = Leaf(value: int) | Pair(value: int, left: Tree, right: Tree)

  datatype Side = GoLeft | GoRight

  function Child(t: Tree, s: Side): Tree
    requires t.Pair?
  {
    if s == GoLeft then t.left else t.right
  }

  /** The leaf values from left to right. */
  function Leaves(t: Tree): (s: seq<int>)
    ensures |s| >= 1
  {
    match t
    case Leaf(v) => [v]
    case Pair(_, l, r) => Leaves(l) + Leaves(r)
  }

  // ---------------------------------------------------------------------
  // Paths

  predicate ValidPath(t: Tree, p: seq<Side>)
    decreases p
  {
    p == [] || (t.Pair? && ValidPath(Child(t, p[0]), p[1..]))
  }

  /** The node a path leads to (a path that runs past a leaf stops
      there). */
  function Sub(t: Tree, p: seq<Side>): Tree
    decreases p
  {
    if p == [] || t.Leaf? then t else Sub(Child(t, p[0]), p[1..])
  }

  predicate LeafAt(t: Tree, p: seq<Side>)
  {
    ValidPath(t, p) && Sub(t, p).Leaf?
  }

  predicate PairAt(t: Tree, p: seq<Side>)
  {
    ValidPath(t, p) && Sub(t, p).Pair?
  }

  /** How many leaves lie to the left of the node a path leads to. */
  function Before(t: Tree, p: seq<Side>): nat
    requires ValidPath(t, p)
    decreases p
  {
    if p == [] then 0
    else if p[0] == GoLeft then Before(t.left, p[1..])
    else |Leaves(t.left)| + Before(t.right, p[1..])
  }

  /** The tree with the node at p replaced by s; every other node keeps
      its place and its Value (a path that runs past a leaf changes
      nothing). */
  function Replace(t: Tree, p: seq<Side>, s: Tree): Tree
    decreases p
  {
    if p == [] then s
    else if t.Leaf? then t
    else if p[0] == GoLeft then Pair(t.value, Replace(t.left, p[1..], s), t.right)
    else Pair(t.value, t.left, Replace(t.right, p[1..], s))
  }

  /** The leaves to the left of the node a path leads to. */
  function LeftOf(t: Tree, p: seq<Side>): seq<int>
    requires ValidPath(t, p)
    decreases p
  {
    if p == [] then []
    else if p[0] == GoLeft then LeftOf(t.left, p[1..])
    else Leaves(t.left) + LeftOf(t.right, p[1..])
  }

  /** The leaves to the right of the node a path leads to. */
  function RightOf(t: Tree, p: seq<Side>): seq<int>
    requires ValidPath(t, p)
    decreases p
  {
    if p == [] then []
    else if p[0] == GoLeft then RightOf(t.left, p[1..]) + Leaves(t.right)
    else RightOf(t.right, p[1..])
  }

  /** The leaves of t are those left of the node at p, the node's own, and
      those right of it; Before counts the first part. */
  lemma {:induction false} Around(t: Tree, p: seq<Side>)
    requires ValidPath(t, p)
    ensures Leaves(t) == LeftOf(t, p) + Leaves(Sub(t, p)) + RightOf(t, p)
    ensures |LeftOf(t, p)| == Before(t, p)
    decreases p
  {
    if p == [] {
      assert Leaves(t) == [] + Leaves(t) + [];
    } else if p[0] == GoLeft {
      Around(t.left, p[1..]);
      Regroup(LeftOf(t.left, p[1..]), Leaves(Sub(t.left, p[1..])), RightOf(t.left, p[1..]), Leaves(t.right));
    } else {
      Around(t.right, p[1..]);
      Regroup(Leaves(t.left), LeftOf(t.right, p[1..]), Leaves(Sub(t.right, p[1..])), RightOf(t.right, p[1..]));
    }
  }

  /** Replacing the node at p changes only the middle part. */
  lemma {:induction false} ReplaceAround(t: Tree, p: seq<Side>, s: Tree)
    requires ValidPath(t, p)
    ensures Leaves(Replace(t, p, s)) == LeftOf(t, p) + Leaves(s) + RightOf(t, p)
    decreases p
  {
    if p == [] {
      assert Leaves(s) == [] + Leaves(s) + [];
    } else if p[0] == GoLeft {
      ReplaceAround(t.left, p[1..], s);
      Regroup(LeftOf(t.left, p[1..]), Leaves(s), RightOf(t.left, p[1..]), Leaves(t.right));
    } else {
      ReplaceAround(t.right, p[1..], s);
      Regroup(Leaves(t.left), LeftOf(t.right, p[1..]), Leaves(s), RightOf(t.right, p[1..]));
    }
  }

  lemma Regroup(a: seq<int>, b: seq<int>, c: seq<int>, d: seq<int>)
    ensures (a + b + c) + d == a + b + (c + d)
    ensures a + (b + c + d) == (a + b) + c + d
  {
  }

  /** The three parts of a + b + c, as slices. */
  lemma Parts(w: seq<int>, a: seq<int>, b: seq<int>, c: seq<int>)
    requires w == a + b + c
    ensures |a| + |b| <= |w| && w[..|a|] == a && w[|a|..|a| + |b|] == b && w[|a| + |b|..] == c
  {
  }

  /** The subtree at p owns a contiguous run of the leaves, starting at
      Before(t, p). */
  lemma SubLeaves(t: Tree, p: seq<Side>)
    requires ValidPath(t, p)
    ensures Before(t, p) + |Leaves(Sub(t, p))| <= |Leaves(t)|
    ensures Leaves(t)[Before(t, p)..Before(t, p) + |Leaves(Sub(t, p))|] == Leaves(Sub(t, p))
  {
    Around(t, p);
    Parts(Leaves(t), LeftOf(t, p), Leaves(Sub(t, p)), RightOf(t, p));
  }

  /** Replacing a node replaces exactly its run of leaves. */
  lemma ReplaceLeaves(t: Tree, p: seq<Side>, s: Tree)
    requires ValidPath(t, p)
    ensures Before(t, p) + |Leaves(Sub(t, p))| <= |Leaves(t)|
    ensures Leaves(Replace(t, p, s))
         == Leaves(t)[..Before(t, p)] + Leaves(s) + Leaves(t)[Before(t, p) + |Leaves(Sub(t, p))|..]
  {
    Around(t, p);
    ReplaceAround(t, p, s);
    Parts(Leaves(t), LeftOf(t, p), Leaves(Sub(t, p)), RightOf(t, p));
  }

  /** Following a + b is following a, then b from where a ends. */
  lemma {:induction false} PathConcat(t: Tree, a: seq<Side>, b: seq<Side>)
    requires ValidPath(t, a + b)
    ensures ValidPath(t, a) && ValidPath(Sub(t, a), b)
    ensures Sub(t, a + b) == Sub(Sub(t, a), b)
    ensures Before(t, a + b) == Before(t, a) + Before(Sub(t, a), b)
    decreases a
  {
    if a != [] {
      assert (a + b)[0] == a[0] && (a + b)[1..] == a[1..] + b;
      PathConcat(Child(t, a[0]), a[1..], b);
    } else {
      assert a + b == b;
    }
  }

  /** Extending a valid path by a further valid path stays valid. */
  lemma {:induction false} PathExtend(t: Tree, a: seq<Side>, b: seq<Side>)
    requires ValidPath(t, a) && ValidPath(Sub(t, a), b)
    ensures ValidPath(t, a + b) && Sub(t, a + b) == Sub(Sub(t, a), b)
    ensures Before(t, a + b) == Before(t, a) + Before(Sub(t, a), b)
    decreases a
  {
    if a != [] {
      assert (a + b)[0] == a[0] && (a + b)[1..] == a[1..] + b;
      PathExtend(Child(t, a[0]), a[1..], b);
    } else {
      assert a + b == b;
    }
  }

  /** Two trees with the same pairs in the same places. */
  predicate SameShape(a: Tree, b: Tree)
  {
    match a
    case Leaf(_) => b.Leaf?
    case Pair(_, l, r) => b.Pair? && SameShape(l, b.left) && SameShape(r, b.right)
  }

  lemma {:induction false} SameShapeLeaves(a: Tree, b: Tree)
    requires SameShape(a, b)
    ensures |Leaves(a)| == |Leaves(b)|
  {
    if a.Pair? {
      SameShapeLeaves(a.left, b.left);
      SameShapeLeaves(a.right, b.right);
    }
  }

  lemma {:induction false} SameShapeTrans(a: Tree, b: Tree, c: Tree)
    requires SameShape(a, b) && SameShape(b, c)
    ensures SameShape(a, c)
  {
    if a.Pair? {
      SameShapeTrans(a.left, b.left, c.left);
      SameShapeTrans(a.right, b.right, c.right);
    }
  }

  /** Trees of the same shape have the same paths, and each path leads to
      nodes of the same shape with the same leaves before them. */
  lemma {:induction false} SameShapeAt(a: Tree, b: Tree, p: seq<Side>)
    requires SameShape(a, b) && ValidPath(a, p)
    ensures ValidPath(b, p) && SameShape(Sub(a, p), Sub(b, p)) && Before(b, p) == Before(a, p)
    ensures |Leaves(Sub(b, p))| == |Leaves(Sub(a, p))| && Sub(b, p).Leaf? == Sub(a, p).Leaf?
    decreases p
  {
    if p != [] {
      SameShapeAt(Child(a, p[0]), Child(b, p[0]), p[1..]);
      SameShapeLeaves(a.left, b.left);
    } else {
      SameShapeLeaves(a, b);
    }
  }

  /** Overwriting one leaf with another leaf keeps the shape. */
  lemma {:induction false} ReplaceLeafShape(t: Tree, p: seq<Side>, v: int)
    requires LeafAt(t, p)
    ensures SameShape(t, Replace(t, p, Leaf(v)))
    decreases p
  {
    SameShapeRefl(t);
    if p != [] {
      ReplaceLeafShape(Child(t, p[0]), p[1..], v);
    }
  }

  lemma {:induction false} SameShapeRefl(t: Tree)
    ensures SameShape(t, t)
  {
    if t.Pair? {
      SameShapeRefl(t.left);
      SameShapeRefl(t.right);
    }
  }

  // ---------------------------------------------------------------------
  // Format and Magnitude

  /** TreeNode.Format: a leaf's Value in decimal, a pair as [left,right]. */
  function Format(t: Tree): string
  {
    match t
    case Leaf(v) => IntToString(v)
    case Pair(_, l, r) => "[" + Format(l) + "," + Format(r) + "]"
  }

  /** TreeNode.Magnitude: a leaf's Value; three times the left plus twice
      the right for a pair. */
  function Magnitude(t: Tree): int
  {
    match t
    case Leaf(v) => v
    case Pair(_, l, r) => 3 * Magnitude(l) + 2 * Magnitude(r)
  }

  /** The weight Magnitude gives each leaf: 3 for every left step and 2
      for every right step on its path, in leaf order. */
  function Weights(t: Tree): (w: seq<int>)
    ensures |w| == |Leaves(t)|
  {
    match t
    case Leaf(_) => [1]
    case Pair(_, l, r) => Scale(3, Weights(l)) + Scale(2, Weights(r))
  }

  function Scale(c: int, w: seq<int>): (r: seq<int>)
    ensures |r| == |w|
  {
    if w == [] then [] else [c * w[0]] + Scale(c, w[1..])
  }

  /** Σ a[i] * w[i]. */
  function Dot(a: seq<int>, w: seq<int>): int
    requires |a| == |w|
  {
    if a == [] then 0 else a[0] * w[0] + Dot(a[1..], w[1..])
  }

  lemma {:induction false} DotConcat(a: seq<int>, b: seq<int>, v: seq<int>, w: seq<int>)
    requires |a| == |v| && |b| == |w|
    ensures Dot(a + b, v + w) == Dot(a, v) + Dot(b, w)
  {
    if a != [] {
      assert (a + b)[1..] == a[1..] + b && (v + w)[1..] == v[1..] + w;
      DotConcat(a[1..], b, v[1..], w);
    } else {
      assert a + b == b && v + w == w;
    }
  }

  lemma {:induction false} DotScale(c: int, a: seq<int>, w: seq<int>)
    requires |a| == |w|
    ensures Dot(a, Scale(c, w)) == c * Dot(a, w)
  {
    if a != [] {
      DotScale(c, a[1..], w[1..]);
      assert a[0] * (c * w[0]) == c * (a[0] * w[0]);
    }
  }

  /** Magnitude is the weighted sum of the leaves. */
  lemma {:induction false} MagnitudeWeighted(t: Tree)
    ensures Magnitude(t) == Dot(Leaves(t), Weights(t))
  {
    if t.Pair? {
      MagnitudeWeighted(t.left);
      MagnitudeWeighted(t.right);
      var l, r := Leaves(t.left), Leaves(t.right);
      DotConcat(l, r, Scale(3, Weights(t.left)), Scale(2, Weights(t.right)));
      DotScale(3, l, Weights(t.left));
      DotScale(2, r, Weights(t.right));
    }
  }

  /** Every weight is positive, so a larger leaf never lowers Magnitude. */
  lemma {:induction false} WeightsPositive(t: Tree)
    ensures forall i :: 0 <= i < |Weights(t)| ==> Weights(t)[i] >= 1
  {
    if t.Pair? {
      WeightsPositive(t.left);
      WeightsPositive(t.right);
      ScalePositive(3, Weights(t.left));
      ScalePositive(2, Weights(t.right));
    }
  }

  lemma {:induction false} ScalePositive(c: int, w: seq<int>)
    requires c >= 1 && forall i :: 0 <= i < |w| ==> w[i] >= 1
    ensures forall i :: 0 <= i < |w| ==> Scale(c, w)[i] >= c * w[i] >= 1
  {
    if w != [] {
      ScalePositive(c, w[1..]);
      assert forall i :: 1 <= i < |w| ==> Scale(c, w)[i] == Scale(c, w[1..])[i - 1];
    }
  }

  // ---------------------------------------------------------------------
  // Parse

  /** The end of the run of ASCII digits starting at i. */
  function DigitsEnd(s: string, i: nat): (j: nat)
    requires i <= |s|
    ensures i <= j <= |s| && (j < |s| ==> !IsDigit(s[j]))
    decreases |s| - i
  {
    if i < |s| && IsDigit(s[i]) then DigitsEnd(s, i + 1) else i
  }

  /** Every character DigitsEnd passes over is a digit. */
  lemma {:induction false} DigitsEndDigits(s: string, i: nat)
    requires i <= |s|
    ensures forall k :: i <= k < DigitsEnd(s, i) ==> IsDigit(s[k])
    decreases |s| - i
  {
    if i < |s| && IsDigit(s[i]) {
      DigitsEndDigits(s, i + 1);
    }
  }

  /** Parse(string, ref int, TreeNode): a digit starts a leaf value, '['
      starts a pair whose children are separated by ',' and closed by ']';
      anything else throws, and so does reading past the end. The result
      carries the node and the index after it. */
  function ParseNode(s: string, i: nat): (r: Result<(Tree, nat)>)
    requires i <= |s|
    ensures r.Ok? ==> i < r.value.1 <= |s| && WellFormed(r.value.0)
    decreases |s| - i, 1
  {
    if i == |s| then Err("ArgumentOutOfRangeException")
    else if IsDigit(s[i]) then
      var j := DigitsEnd(s, i);
      match ParseTrimmed(s[i..j])
      case Err(m) => Err(m)
      case Ok(v) => Ok((Leaf(v), j))
    else if s[i] == '[' then
      match ParseNode(s, i + 1)
      case Err(m) => Err(m)
      case Ok(left) => ParseRest(s, i, left.0, left.1)
    else Err("Expected opening bracket")
  }

  /** A leaf is read as int.Parse reads the run of digits. */
  lemma ParseNodeLeaf(s: string, i: nat)
    requires i < |s| && IsDigit(s[i])
    ensures var j := DigitsEnd(s, i);
      ParseNode(s, i) == match ParseInt(s[i..j]) case Err(m) => Err(m) case Ok(v) => Ok((Leaf(v), j))
  {
    var j := DigitsEnd(s, i);
    DigitsEndDigits(s, i);
    ParseDigits(s[i..j]);
  }

  /** The rest of a pair once its left child is read up to j: ',', the
      right child, ']'. */
  function ParseRest(s: string, i: nat, left: Tree, j: nat): (r: Result<(Tree, nat)>)
    requires i < j <= |s| && WellFormed(left)
    ensures r.Ok? ==> j < r.value.1 <= |s| && WellFormed(r.value.0)
    decreases |s| - i, 0
  {
    if j == |s| then Err("ArgumentOutOfRangeException")
    else if s[j] != ',' then Err("Expected comma")
    else ClosePair(s, j, left, ParseNode(s, j + 1))
  }

  /** The closing bracket after the right child, which was read from
      just after the comma at j. */
  function ClosePair(s: string, j: nat, left: Tree, right: Result<(Tree, nat)>): (r: Result<(Tree, nat)>)
    requires j < |s| && WellFormed(left)
    requires right.Ok? ==> j + 1 < right.value.1 <= |s| && WellFormed(right.value.0)
    ensures r.Ok? ==> j < r.value.1 <= |s| && WellFormed(r.value.0)
  {
    match right
    case Err(m) => Err(m)
    case Ok((t, k)) =>
      if k == |s| then Err("ArgumentOutOfRangeException")
      else if s[k] != ']' then Err("Expected closing bracket")
      else Ok((Pair(0, left, t), k + 1))
  }

  /** Parse(string): the tree read from index 0; text after it is ignored. */
  function Parse(s: string): Result<Tree>
  {
    match ParseNode(s, 0)
    case Err(m) => Err(m)
    case Ok((t, _)) => Ok(t)
  }

  /** ParseValue: collect digits while there are any, then int.Parse. */
  method ParseValue(s: string, index: nat) returns (r: Result<int>, next: nat)
    requires index < |s| && IsDigit(s[index])
    ensures next == DigitsEnd(s, index) && r == ParseInt(s[index..next])
  {
    var builder := "";
    next := index;
    while next < |s| && IsDigit(s[next])
      invariant index <= next <= |s| && builder == s[index..next]
      invariant DigitsEnd(s, next) == DigitsEnd(s, index)
    {
      builder := builder + [s[next]];
      next := next + 1;
    }
    r := ParseInt(builder);
  }

  /** The trees Parse can produce: leaves in 0..int.MaxValue, pair Values 0. */
  predicate WellFormed(t: Tree)
  {
    match t
    case Leaf(v) => 0 <= v <= IntMax
    case Pair(tag, l, r) => tag == 0 && WellFormed(l) && WellFormed(r)
  }

  /** The text of the well-formed tree t sits at s[i..j], and no digit
      follows it. */
  predicate Formatted(s: string, i: nat, j: nat, t: Tree)
  {
    WellFormed(t) && j == i + |Format(t)| && j <= |s| && s[i..j] == Format(t) && (j < |s| ==> !IsDigit(s[j]))
  }
}
