/** Reduction of snailfish numbers: finding the pair to explode and the
    leaf to split, the neighbouring leaves an explosion feeds, the reduce
    loop, addition and the search for the largest magnitude of a sum. The
    C# code rewrites the tree in place; here every step yields the new
    tree, and the node a C# reference points at is the path to it. */
module Day18Reduce {
  import opened Common
  import opened Day18

  const ExplodeDepth: nat := 4
  const SplitMax: int := 10

  // ---------------------------------------------------------------------
  // Neighbouring leaves

  /** The deepest step of p that goes to side, if any. */
  function LastTurn(p: seq<Side>, side: Side): (k: Option<nat>)
    ensures k.Some? ==> k.value < |p| && p[k.value] == side
    ensures k.Some? ==> forall j :: k.value < j < |p| ==> p[j] != side
    ensures k.None? ==> forall j :: 0 <= j < |p| ==> p[j] != side
  {
    if p == [] then None
    else if p[|p| - 1] == side then Some(|p| - 1)
    else
      assert forall j :: 0 <= j < |p| - 1 ==> p[..|p| - 1][j] == p[j];
      LastTurn(p[..|p| - 1], side)
  }

  /** The path from t to its outermost leaf on one side. */
  function Outermost(t: Tree, side: Side): (q: seq<Side>)
    ensures LeafAt(t, q)
    ensures Before(t, q) == if side == GoLeft then 0 else |Leaves(t)| - 1
    ensures forall j :: 0 <= j < |q| ==> q[j] == side
  {
    if t.Leaf? then []
    else
      var rest := Outermost(Child(t, side), side);
      assert ([side] + rest)[0] == side && ([side] + rest)[1..] == rest;
      [side] + rest
  }

  /** The node at p[..k] is a pair whose children sit at p[..k] + [side]. */
  lemma Fork(t: Tree, p: seq<Side>, k: nat)
    requires ValidPath(t, p) && k < |p|
    ensures PairAt(t, p[..k])
    ensures ValidPath(t, p[..k] + [GoLeft]) && Sub(t, p[..k] + [GoLeft]) == Sub(t, p[..k]).left
    ensures ValidPath(t, p[..k] + [GoRight]) && Sub(t, p[..k] + [GoRight]) == Sub(t, p[..k]).right
    ensures Before(t, p[..k] + [GoLeft]) == Before(t, p[..k])
    ensures Before(t, p[..k] + [GoRight]) == Before(t, p[..k]) + |Leaves(Sub(t, p[..k]).left)|
  {
    assert p == p[..k] + p[k..];
    PathConcat(t, p[..k], p[k..]);
    var a := p[..k];
    var s := Sub(t, a);
    assert ValidPath(s, [GoLeft]) && Sub(s, [GoLeft]) == s.left && Before(s, [GoLeft]) == 0;
    assert ValidPath(s, [GoRight]) && Sub(s, [GoRight]) == s.right;
    assert Before(s, [GoRight]) == |Leaves(s.left)|;
    PathExtend(t, a, [GoLeft]);
    PathExtend(t, a, [GoRight]);
  }

  /** A path of left steps has no leaf before it. */
  lemma {:induction false} AllLeftBefore(t: Tree, p: seq<Side>)
    requires ValidPath(t, p) && forall j :: 0 <= j < |p| ==> p[j] == GoLeft
    ensures Before(t, p) == 0
    decreases p
  {
    if p != [] {
      AllLeftBefore(t.left, p[1..]);
    }
  }

  /** A path of right steps has no leaf after its node. */
  lemma {:induction false} AllRightAfter(t: Tree, p: seq<Side>)
    requires ValidPath(t, p) && forall j :: 0 <= j < |p| ==> p[j] == GoRight
    ensures Before(t, p) + |Leaves(Sub(t, p))| == |Leaves(t)|
    decreases p
  {
    if p != [] {
      AllRightAfter(t.right, p[1..]);
    }
  }

  /** FindNextLeftNode as a function: climb to the nearest node that is a
      right child, step to its left sibling, then go right to a leaf. */
  function NextLeft(t: Tree, p: seq<Side>): Option<seq<Side>>
    requires ValidPath(t, p)
  {
    match LastTurn(p, GoRight)
    case None => None
    case Some(k) =>
      var base := p[..k] + [GoLeft];
      Some(base + Outermost(Sub(t, base), GoRight))
  }

  /** FindNextRightNode as a function: the mirror image of NextLeft. */
  function NextRight(t: Tree, p: seq<Side>): Option<seq<Side>>
    requires ValidPath(t, p)
  {
    match LastTurn(p, GoLeft)
    case None => None
    case Some(k) =>
      var base := p[..k] + [GoRight];
      Some(base + Outermost(Sub(t, base), GoLeft))
  }

  /** NextLeft finds the leaf just before the node's leaves, and nothing
      exactly when the node's leaves come first. */
  lemma NextLeftSpec(t: Tree, p: seq<Side>)
    requires ValidPath(t, p)
    ensures NextLeft(t, p).Some? <==> Before(t, p) > 0
    ensures NextLeft(t, p).Some? ==> LeafAt(t, NextLeft(t, p).value) && Before(t, NextLeft(t, p).value) == Before(t, p) - 1
  {
    match LastTurn(p, GoRight)
    case None =>
      AllLeftBefore(t, p);
    case Some(k) =>
      LastStep(t, p, k, GoRight);
      Descend(t, p, k, GoLeft);
  }

  /** NextRight finds the leaf just after the node's leaves, and nothing
      exactly when the node's leaves come last. */
  lemma NextRightSpec(t: Tree, p: seq<Side>)
    requires ValidPath(t, p)
    ensures Before(t, p) + |Leaves(Sub(t, p))| <= |Leaves(t)|
    ensures NextRight(t, p).Some? <==> Before(t, p) + |Leaves(Sub(t, p))| < |Leaves(t)|
    ensures NextRight(t, p).Some? ==> LeafAt(t, NextRight(t, p).value)
    ensures NextRight(t, p).Some? ==> Before(t, NextRight(t, p).value) == Before(t, p) + |Leaves(Sub(t, p))|
  {
    SubLeaves(t, p);
    match LastTurn(p, GoLeft)
    case None =>
      AllRightAfter(t, p);
    case Some(k) =>
      LastStep(t, p, k, GoLeft);
      Descend(t, p, k, GoRight);
      SubLeaves(t, p[..k]);
  }

  /** When p[k] is the last step to side, the leaves before p's node are
      those before p[..k], plus (for a right step) the left sibling's;
      and (for a left step) p's node ends where the left child does. */
  lemma LastStep(t: Tree, p: seq<Side>, k: nat, side: Side)
    requires ValidPath(t, p) && k < |p| && p[k] == side
    requires forall j :: k < j < |p| ==> p[j] != side
    ensures PairAt(t, p[..k])
    ensures side == GoRight ==> Before(t, p) == Before(t, p[..k]) + |Leaves(Sub(t, p[..k]).left)|
    ensures side == GoLeft ==> Before(t, p) + |Leaves(Sub(t, p))| == Before(t, p[..k]) + |Leaves(Sub(t, p[..k]).left)|
  {
    Fork(t, p, k);
    var turn := p[..k] + [side];
    var rest := p[k + 1..];
    assert forall j :: 0 <= j < |rest| ==> rest[j] == p[k + 1 + j];
    assert p == p[..k] + p[k..] && p[k..] == [side] + rest;
    assert p == turn + rest;
    PathConcat(t, turn, rest);
    if side == GoRight {
      AllLeftBefore(Sub(t, turn), rest);
    } else {
      AllRightAfter(Sub(t, turn), rest);
    }
  }

  /** From p[..k], stepping to side and then to the outermost leaf on the
      other side reaches the leaf next to the boundary between the two
      children of p[..k]. */
  lemma Descend(t: Tree, p: seq<Side>, k: nat, side: Side)
    requires ValidPath(t, p) && k < |p|
    ensures PairAt(t, p[..k]) && ValidPath(t, p[..k] + [side])
    ensures var base := p[..k] + [side];
            var q := base + Outermost(Sub(t, base), if side == GoLeft then GoRight else GoLeft);
            LeafAt(t, q) && Before(t, q) == Before(t, p[..k]) + |Leaves(Sub(t, p[..k]).left)| - (if side == GoLeft then 1 else 0)
  {
    Fork(t, p, k);
    var base := p[..k] + [side];
    var out := Outermost(Sub(t, base), if side == GoLeft then GoRight else GoLeft);
    PathExtend(t, base, out);
  }

  /** FindNextLeftNode: the climbing loop, then the descending loop. */
  method FindNextLeftNode(t: Tree, p: seq<Side>) returns (r: Option<seq<Side>>)
    requires ValidPath(t, p)
    ensures r == NextLeft(t, p)
  {
    var k := ClimbTo(p, GoRight);
    if k.None? {
      return None;
    }
    Fork(t, p, k.value);
    var path := DescendTo(t, p[..k.value] + [GoLeft], GoRight);
    return Some(path);
  }

  /** FindNextRightNode: the mirror image of FindNextLeftNode. */
  method FindNextRightNode(t: Tree, p: seq<Side>) returns (r: Option<seq<Side>>)
    requires ValidPath(t, p)
    ensures r == NextRight(t, p)
  {
    var k := ClimbTo(p, GoLeft);
    if k.None? {
      return None;
    }
    Fork(t, p, k.value);
    var path := DescendTo(t, p[..k.value] + [GoRight], GoLeft);
    return Some(path);
  }

  /** The climbing loop: go up through the parents until the node is the
      child on side of its parent; reaching the root gives None. */
  method ClimbTo(p: seq<Side>, side: Side) returns (k: Option<nat>)
    ensures k == LastTurn(p, side)
  {
    var n := |p|;
    while true
      invariant 0 <= n <= |p| && LastTurn(p[..n], side) == LastTurn(p, side)
      decreases n
    {
      if n == 0 {
        return None;
      }
      if p[n - 1] == side {
        return Some(n - 1);
      }
      assert p[..n][..n - 1] == p[..n - 1];
      n := n - 1;
    }
  }

  /** The descending loop: from the sibling, follow the children on side
      until a leaf. */
  method DescendTo(t: Tree, base: seq<Side>, side: Side) returns (path: seq<Side>)
    requires ValidPath(t, base)
    ensures path == base + Outermost(Sub(t, base), side)
  {
    path := base;
    var node := Sub(t, path);
    while node.Pair?
      invariant ValidPath(t, path) && node == Sub(t, path)
      invariant path + Outermost(node, side) == base + Outermost(Sub(t, base), side)
      decreases node
    {
      var rest := Outermost(Child(node, side), side);
      assert Outermost(node, side) == [side] + rest;
      assert path + ([side] + rest) == (path + [side]) + rest;
      OneStep(node, side);
      PathExtend(t, path, [side]);
      path := path + [side];
      node := Child(node, side);
    }
    assert path + [] == path;
  }

  /** One step from a pair leads to its child. */
  lemma OneStep(t: Tree, side: Side)
    requires t.Pair?
    ensures ValidPath(t, [side]) && Sub(t, [side]) == Child(t, side)
  {
    assert [side][0] == side && [side][1..] == [];
    assert Sub(Child(t, side), []) == Child(t, side);
  }

  // ---------------------------------------------------------------------
  // Explode and Split

  /** nextLeft.Value += d (or nothing when there is no such leaf). */
  function AddToLeaf(t: Tree, q: Option<seq<Side>>, d: int): Tree
  {
    if q.Some? && LeafAt(t, q.value) then Replace(t, q.value, Leaf(Sub(t, q.value).value + d)) else t
  }

  lemma AddToLeafShape(t: Tree, q: Option<seq<Side>>, d: int)
    ensures SameShape(t, AddToLeaf(t, q, d))
  {
    SameShapeRefl(t);
    if q.Some? && LeafAt(t, q.value) {
      ReplaceLeafShape(t, q.value, Sub(t, q.value).value + d);
    }
  }

  /** A leaf of t is a leaf of any tree of the same shape, with the same
      leaves before it. */
  lemma KeepsLeaf(a: Tree, b: Tree, q: Option<seq<Side>>)
    requires SameShape(a, b) && (q.Some? ==> LeafAt(a, q.value))
    ensures q.Some? ==> LeafAt(b, q.value) && Before(b, q.value) == Before(a, q.value)
  {
    if q.Some? {
      SameShapeAt(a, b, q.value);
    }
  }

  /** Explode: the neighbouring leaves (found before anything changes) gain
      the pair's left and right Values, then the pair becomes the leaf 0. */
  function Explode(t: Tree, p: seq<Side>): Tree
    requires PairAt(t, p)
  {
    var node := Sub(t, p);
    var nextLeft := NextLeft(t, p);
    var nextRight := NextRight(t, p);
    var t1 := AddToLeaf(t, nextLeft, node.left.value);
    var t2 := AddToLeaf(t1, nextRight, node.right.value);
    Replace(t2, p, Leaf(0))
  }

  /** d added to the last element, if there is one. */
  function AddLast(s: seq<int>, d: int): seq<int>
  {
    if s == [] then [] else s[..|s| - 1] + [s[|s| - 1] + d]
  }

  /** d added to the first element, if there is one. */
  function AddFirst(s: seq<int>, d: int): seq<int>
  {
    if s == [] then [] else [s[0] + d] + s[1..]
  }

  /** Overwriting a leaf overwrites one element of the leaf sequence. */
  lemma LeafUpdate(t: Tree, q: seq<Side>, w: int)
    requires LeafAt(t, q)
    ensures Before(t, q) < |Leaves(t)| && Leaves(t)[Before(t, q)] == Sub(t, q).value
    ensures Leaves(Replace(t, q, Leaf(w))) == Leaves(t)[Before(t, q) := w]
  {
    SubLeaves(t, q);
    ReplaceLeaves(t, q, Leaf(w));
    var a, b := Leaves(t), Before(t, q);
    assert a[b..b + 1] == [a[b]];
    assert a[..b] + [w] + a[b + 1..] == a[b := w];
  }

  /** The leaves after one neighbour update (or none). */
  lemma AddToLeafLeaves(t: Tree, q: Option<seq<Side>>, d: int, i: int)
    requires q.Some? ==> LeafAt(t, q.value) && Before(t, q.value) == i
    ensures q.Some? ==> 0 <= i < |Leaves(t)|
    ensures q.Some? ==> Leaves(AddToLeaf(t, q, d)) == Leaves(t)[i := Leaves(t)[i] + d]
    ensures q.None? ==> AddToLeaf(t, q, d) == t
  {
    if q.Some? {
      var v := Sub(t, q.value).value;
      assert AddToLeaf(t, q, d) == Replace(t, q.value, Leaf(v + d));
      LeafUpdate(t, q.value, v + d);
    }
  }

  /** The sequence arithmetic of an explosion. */
  lemma ExplodeSeq(s: seq<int>, b: nat, m: nat, x: int, y: int, s1: seq<int>, s2: seq<int>)
    requires 1 <= m && b + m <= |s|
    requires b > 0 ==> s1 == s[b - 1 := s[b - 1] + x]
    requires b == 0 ==> s1 == s
    requires b + m < |s| ==> s2 == s1[b + m := s1[b + m] + y]
    requires b + m == |s| ==> s2 == s1
    ensures s2[..b] + [0] + s2[b + m..] == AddLast(s[..b], x) + [0] + AddFirst(s[b + m..], y)
  {
    ExplodeLeft(s, b, m, x, s1, s2);
    ExplodeRight(s, b, m, y, s1, s2);
  }

  lemma ExplodeLeft(s: seq<int>, b: nat, m: nat, x: int, s1: seq<int>, s2: seq<int>)
    requires 1 <= m && b + m <= |s| && |s1| == |s2| == |s|
    requires b > 0 ==> s1 == s[b - 1 := s[b - 1] + x]
    requires b == 0 ==> s1 == s
    requires forall i :: 0 <= i < b + m ==> s2[i] == s1[i]
    ensures s2[..b] == AddLast(s[..b], x)
  {
    if b > 0 {
      var e := AddLast(s[..b], x);
      assert e == s[..b - 1] + [s[b - 1] + x];
      assert |e| == b;
      forall i | 0 <= i < b
        ensures s2[..b][i] == e[i]
      {
        if i < b - 1 {
          assert e[i] == s[i];
        }
      }
    }
  }

  lemma ExplodeRight(s: seq<int>, b: nat, m: nat, y: int, s1: seq<int>, s2: seq<int>)
    requires 1 <= m && b + m <= |s| && |s1| == |s|
    requires forall i :: b <= i < |s| ==> s1[i] == s[i]
    requires b + m < |s| ==> s2 == s1[b + m := s1[b + m] + y]
    requires b + m == |s| ==> s2 == s1
    ensures s2[b + m..] == AddFirst(s[b + m..], y)
  {
    if b + m < |s| {
      var e := AddFirst(s[b + m..], y);
      assert e == [s[b + m] + y] + s[b + m + 1..];
      forall i | 0 <= i < |s| - (b + m)
        ensures s2[b + m..][i] == e[i]
      {
        if i > 0 {
          assert e[i] == s[b + m + i];
        }
      }
    }
  }

  /** Explode: the pair's left Value goes to the nearest leaf on the left
      and its right Value to the nearest leaf on the right, where those
      exist; the pair's leaves become the single leaf 0; no other leaf
      changes. */
  lemma ExplodeLeaves(t: Tree, p: seq<Side>, s: seq<int>, b: int, m: int, x: int, y: int)
    requires PairAt(t, p) && s == Leaves(t) && b == Before(t, p) && m == |Leaves(Sub(t, p))|
    requires x == Sub(t, p).left.value && y == Sub(t, p).right.value
    ensures 0 <= b && b + m <= |s| && Leaves(Explode(t, p)) == AddLast(s[..b], x) + [0] + AddFirst(s[b + m..], y)
  {
    var t1, s1 := FeedLeft(t, p, s, b, m, x);
    var t2, s2 := FeedRight(t, p, t1, s, s1, b, m, y);
    ExplodeSeq(s, b, m, x, y, s1, s2);
    ExplodeTail(t, p, t2, s2, b, m);
  }

  /** The first step of Explode: the leaf on the left gains the left Value. */
  lemma FeedLeft(t: Tree, p: seq<Side>, s: seq<int>, b: int, m: int, x: int) returns (t1: Tree, s1: seq<int>)
    requires PairAt(t, p) && s == Leaves(t) && b == Before(t, p) && m == |Leaves(Sub(t, p))|
    requires x == Sub(t, p).left.value
    ensures 1 <= m && b + m <= |s|
    ensures t1 == AddToLeaf(t, NextLeft(t, p), x) && SameShape(t, t1) && s1 == Leaves(t1)
    ensures b > 0 ==> s1 == s[b - 1 := s[b - 1] + x]
    ensures b == 0 ==> s1 == s
  {
    NextLeftSpec(t, p);
    SubLeaves(t, p);
    t1 := AddToLeaf(t, NextLeft(t, p), x);
    s1 := Leaves(t1);
    AddToLeafShape(t, NextLeft(t, p), x);
    AddToLeafLeaves(t, NextLeft(t, p), x, b - 1);
  }

  /** The second step: the leaf on the right gains the right Value. */
  lemma FeedRight(t: Tree, p: seq<Side>, t1: Tree, s: seq<int>, s1: seq<int>, b: int, m: int, y: int)
    returns (t2: Tree, s2: seq<int>)
    requires PairAt(t, p) && SameShape(t, t1) && s == Leaves(t) && s1 == Leaves(t1)
    requires b == Before(t, p) && m == |Leaves(Sub(t, p))| && y == Sub(t, p).right.value
    ensures t2 == AddToLeaf(t1, NextRight(t, p), y) && SameShape(t, t2) && s2 == Leaves(t2)
    ensures |s1| == |s|
    ensures b + m < |s| ==> s2 == s1[b + m := s1[b + m] + y]
    ensures b + m == |s| ==> s2 == s1
  {
    NextRightSpec(t, p);
    KeepsLeaf(t, t1, NextRight(t, p));
    SameShapeLeaves(t, t1);
    t2 := AddToLeaf(t1, NextRight(t, p), y);
    s2 := Leaves(t2);
    AddToLeafLeaves(t1, NextRight(t, p), y, b + m);
    AddToLeafShape(t1, NextRight(t, p), y);
    SameShapeTrans(t, t1, t2);
  }

  /** The last step: the pair's leaves become the one leaf 0. */
  lemma ExplodeTail(t: Tree, p: seq<Side>, t2: Tree, s2: seq<int>, b: int, m: int)
    requires PairAt(t, p) && SameShape(t, t2) && s2 == Leaves(t2)
    requires t2 == AddToLeaf(AddToLeaf(t, NextLeft(t, p), Sub(t, p).left.value), NextRight(t, p), Sub(t, p).right.value)
    requires b == Before(t, p) && m == |Leaves(Sub(t, p))|
    ensures 0 <= b && b + m <= |s2| && Leaves(Explode(t, p)) == s2[..b] + [0] + s2[b + m..]
  {
    SameShapeAt(t, t2, p);
    SameShapeLeaves(Sub(t, p), Sub(t2, p));
    ReplaceLeaves(t2, p, Leaf(0));
  }

  /** Split: the leaf v becomes a pair (Value -1) of the leaves ⌊v/2⌋ and
      ⌈v/2⌉. */
  function Split(t: Tree, q: seq<Side>): Tree
    requires LeafAt(t, q)
  {
    var v := Sub(t, q).value;
    Replace(t, q, Pair(-1, Leaf(v / 2), Leaf((v + 1) / 2)))
  }

  /** Split puts the two halves in the leaf's place, and they sum to it. */
  lemma SplitLeaves(t: Tree, q: seq<Side>)
    requires LeafAt(t, q)
    ensures var b, v := Before(t, q), Sub(t, q).value;
            b < |Leaves(t)| && Leaves(t)[b] == v &&
            Leaves(Split(t, q)) == Leaves(t)[..b] + [v / 2, (v + 1) / 2] + Leaves(t)[b + 1..] &&
            v / 2 + (v + 1) / 2 == v && v / 2 <= (v + 1) / 2 <= v / 2 + 1
  {
    var v := Sub(t, q).value;
    var halves := Pair(-1, Leaf(v / 2), Leaf((v + 1) / 2));
    LeafUpdate(t, q, v);
    ReplaceLeaves(t, q, halves);
    assert Leaves(halves) == [v / 2, (v + 1) / 2];
    Halves(v);
  }

  lemma Halves(v: int)
    ensures v / 2 + (v + 1) / 2 == v && v / 2 <= (v + 1) / 2 <= v / 2 + 1
  {
  }
}
