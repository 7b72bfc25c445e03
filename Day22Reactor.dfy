/** The reboot of the reactor: the box index over the bounds of all the
    steps, and the step loop that keeps in it a set of pairwise disjoint
    cubes covering exactly the cubes that are on. */
module Day22Reactor {
  import opened Common
  import opened Day22
  import opened Day22Tree

  /** QuadTreeDepth: the number of levels of the box index. */
  const QuadTreeDepth := 4

  /** Every node holds exactly the cubes of s that meet its bounds. */
  ghost predicate Indexes(root: Node, s: set<Cube>)
    reads root.Nodes()
  {
    forall n :: n in root.Nodes() ==> n.cubes == set c | c in s && Meets(n.bounds, c)
  }

  /** QuadTree: the root of the index, and the cubes it holds. */
  class QuadTree {
    const root: Node
    /** The cubes added and not yet removed, less those meeting no node. */
    ghost var contents: set<Cube>

    ghost predicate Valid()
      reads this, root.Nodes()
    {
      root.Tree() && root.Nested() && root.Splits() && Indexes(root, contents) &&
      forall c :: c in contents ==> c.IsValid() && Inside(c, root.bounds)
    }

    constructor (root: Node)
      requires root.Tree() && root.Nested() && root.Splits()
      requires forall n :: n in root.Nodes() ==> n.cubes == {}
      ensures this.root == root && contents == {} && Valid()
    {
      this.root := root;
      contents := {};
    }

    /** The QuadTree constructor: an error for a depth below one, and
        otherwise an empty index of that many levels over bounds. */
    static method New(maxDepth: int, bounds: Cube) returns (r: Result<QuadTree>)
      ensures r.Err? <==> maxDepth <= 0
      ensures r.Ok? ==> fresh(r.value) && fresh(r.value.root.Nodes()) && r.value.Valid()
      ensures r.Ok? ==> r.value.root.bounds == bounds && r.value.contents == {}
      ensures r.Ok? ==> r.value.root.height == maxDepth - 1
    {
      if maxDepth <= 0 {
        return Err("maxDepth cannot be null");
      }
      var node := CreateSubtree(bounds, 1, maxDepth);
      var tree := new QuadTree(node);
      r := Ok(tree);
    }

    /** Add: the cube joins the nodes it meets; a cube with no point joins
        none, so the index does not hold it. */
    method Add(c: Cube)
      requires Valid() && Inside(c, root.bounds)
      modifies this, root.Nodes()
      ensures Valid()
      ensures contents == if c.IsValid() then old(contents) + {c} else old(contents)
      ensures forall n :: n in root.Nodes() ==> n.cubes == if Meets(n.bounds, c) then old(n.cubes) + {c} else old(n.cubes)
    {
      root.AddRecursive(c);
      contents := if c.IsValid() then contents + {c} else contents;
      forall n | n in root.Nodes()
        ensures n.cubes == set d | d in contents && Meets(n.bounds, d)
      {
        if !c.IsValid() {
          MeetsValid(n.bounds, c);
        }
      }
    }

    /** The loop adding the pieces in Process: Add of each in turn. */
    method AddAll(cs: seq<Cube>)
      requires Valid() && forall k :: 0 <= k < |cs| ==> cs[k].IsValid() && Inside(cs[k], root.bounds)
      modifies this, root.Nodes()
      ensures Valid() && contents == old(contents) + set c | c in cs
    {
      var k := 0;
      while k < |cs|
        invariant 0 <= k <= |cs|
        invariant Valid() && contents == old(contents) + set c | c in cs[..k]
      {
        Add(cs[k]);
        assert cs[..k + 1] == cs[..k] + [cs[k]];
        k := k + 1;
      }
      assert cs[..k] == cs;
    }

    /** Remove: the cube leaves every node of the index. */
    method Remove(c: Cube)
      requires Valid()
      modifies this, root.Nodes()
      ensures Valid() && contents == old(contents) - {c}
      ensures forall n :: n in root.Nodes() ==> n.cubes == old(n.cubes) - {c}
    {
      IndexedClosed(root, contents, c);
      root.RemoveRecursive(c);
      contents := contents - {c};
    }

    /** FindIntersectingLeafNodes: the leaves whose bounds meet t, each once. */
    method FindIntersectingLeafNodes(t: Cube) returns (r: seq<Node>)
      requires Valid()
      ensures r == root.LeavesMeeting(t)
      ensures forall n :: n in r <==> n in root.Nodes() && n.IsLeaf() && Meets(n.bounds, t)
    {
      r := root.FindLeaves(t, []);
      forall n ensures n in r <==> n in root.Nodes() && n.IsLeaf() && Meets(n.bounds, t)
      {
        root.LeavesMeetingAre(t, n);
      }
    }

    /** Removing a cube just added, and not held before, leaves every node
        as it was. */
    method AddThenRemove(c: Cube)
      requires Valid() && Inside(c, root.bounds) && c !in contents
      modifies this, root.Nodes()
      ensures Valid() && contents == old(contents)
      ensures forall n :: n in root.Nodes() ==> n.cubes == old(n.cubes)
    {
      Add(c);
      Remove(c);
    }
  }

  /** A cube with no point meets nothing. */
  lemma MeetsValid(a: Cube, b: Cube)
    ensures Meets(a, b) ==> a.IsValid() && b.IsValid()
  {
    MeetsIff(a, b);
    if Meets(a, b) {
      var p :| a.Contains(p) && b.Contains(p);
      assert a.GetContainedPoint() == a.GetContainedPoint();
    }
  }

  /** A cube within the bounds meets them. */
  lemma InsideMeets(c: Cube, bounds: Cube)
    requires c.IsValid() && Inside(c, bounds)
    ensures Meets(bounds, c)
  {
    InsideCovers(c, bounds);
    MeetsIff(bounds, c);
    assert c.Contains(c.GetContainedPoint());
  }

  /** In an index of nested bounds every node holds what its children hold. */
  lemma {:induction false} IndexedClosed(n: Node, s: set<Cube>, c: Cube)
    requires n.Tree() && n.Nested() && Indexes(n, s)
    ensures n.Closed(c)
    decreases n.height
  {
    n.ChildrenAreNodes();
    forall i | 0 <= i < |n.children| ensures n.children[i].Closed(c)
    {
      n.SubTree(n.children[i]);
      IndexedClosed(n.children[i], s, c);
    }
    forall i | 0 <= i < |n.children| && c in n.children[i].cubes ensures c in n.cubes
    {
      MeetsIff(n.children[i].bounds, c);
      MeetsIff(n.bounds, c);
    }
  }

  /** The cubes held by the nodes (SelectMany over IntersectingCubes). */
  function CubesOf(ns: seq<Node>): (r: set<Cube>)
    reads ns
    ensures forall c :: c in r <==> exists k :: 0 <= k < |ns| && c in ns[k].cubes
  {
    if ns == [] then {}
    else
      var r := CubesOf(ns[..|ns| - 1]) + ns[|ns| - 1].cubes;
      assert forall k :: 0 <= k < |ns| - 1 ==> ns[..|ns| - 1][k] == ns[k];
      r
  }

  /** Every held cube meeting t is held by a leaf meeting t. */
  lemma Touching(root: Node, s: set<Cube>, t: Cube, c: Cube)
    requires root.Tree() && root.Nested() && root.Splits() && Indexes(root, s)
    requires c in s && Inside(c, root.bounds) && Meets(c, t)
    ensures c in CubesOf(root.LeavesMeeting(t))
  {
    MeetsIff(c, t);
    var p :| c.Contains(p) && t.Contains(p);
    InsideCovers(c, root.bounds);
    var leaf := root.LeafAt(p);
    MeetsIff(leaf.bounds, t);
    MeetsIff(leaf.bounds, c);
    root.LeavesMeetingAre(t, leaf);
    var leaves := root.LeavesMeeting(t);
    var k :| 0 <= k < |leaves| && leaves[k] == leaf;
  }

  // ---------------------------------------------------------------------
  // The reboot

  /** Whether point p is on after the flips: the last flip whose cube
      holds p decides, and p starts off. */
  ghost predicate Lit(flips: seq<Flip>, p: Point3)
  {
    if flips == [] then false
    else if flips[|flips| - 1].cube.Contains(p) then flips[|flips| - 1].on
    else Lit(flips[..|flips| - 1], p)
  }

  ghost predicate Covered(s: set<Cube>, p: Point3)
  {
    exists c :: c in s && c.Contains(p)
  }

  /** No point lies in two cubes of s. */
  ghost predicate Separate(s: set<Cube>)
  {
    forall c, d, p :: c in s && d in s && c.Contains(p) && d.Contains(p) ==> c == d
  }

  /** The index holds valid, separate cubes within the bounds. */
  ghost predicate Good(tree: QuadTree, bounds: Cube)
    reads tree, tree.root.Nodes()
  {
    tree.Valid() && tree.root.bounds == bounds && Separate(tree.contents)
  }

  lemma {:induction false} CountFind(cs: seq<Cube>, p: Point3) returns (i: int)
    requires Count(cs, p) > 0
    ensures 0 <= i < |cs| && cs[i].Contains(p)
  {
    if cs[|cs| - 1].Contains(p) {
      i := |cs| - 1;
    } else {
      i := CountFind(cs[..|cs| - 1], p);
    }
  }

  /** Trading touching for its pieces outside the cutter keeps the cubes
      separate, and uncovers exactly the cutter's points. */
  lemma Trade(s: set<Cube>, t: Cube, cutter: Cube, pieces: seq<Cube>)
    requires Separate(s) && t in s
    requires pieces == SplitTarget(cutter, t)
    ensures Separate(s - {t} + (set c | c in pieces))
    ensures forall p :: !cutter.Contains(p) ==>
      (Covered(s - {t} + (set c | c in pieces), p) <==> Covered(s, p))
  {
    TradeSeparate(s, t, cutter, pieces);
    TradeCovered(s, t, cutter, pieces);
  }

  lemma TradeSeparate(s: set<Cube>, t: Cube, cutter: Cube, pieces: seq<Cube>)
    requires Separate(s) && t in s
    requires pieces == SplitTarget(cutter, t)
    ensures Separate(s - {t} + (set c | c in pieces))
  {
    forall i | 0 <= i < |pieces| ensures Covers(t, pieces[i])
    {
      InsideCovers(pieces[i], t);
    }
    CountAtMostOne(pieces);
    var ps := set c | c in pieces;
    forall c, d, p | c in ps && d in ps && c.Contains(p) && d.Contains(p) ensures c == d
    {
      var i :| 0 <= i < |pieces| && pieces[i] == c;
      var j :| 0 <= j < |pieces| && pieces[j] == d;
      assert i == j;
    }
    forall c, d, p | c in s - {t} && d in ps && c.Contains(p) ensures !d.Contains(p)
    {
      var j :| 0 <= j < |pieces| && pieces[j] == d;
      assert pieces[j].Contains(p) ==> t.Contains(p);
    }
    SeparateUnion(s - {t}, ps);
  }

  /** Two separate sets with no point in common have a separate union. */
  lemma SeparateUnion(a: set<Cube>, b: set<Cube>)
    requires Separate(a) && Separate(b)
    requires forall c, d, p :: c in a && d in b && c.Contains(p) ==> !d.Contains(p)
    ensures Separate(a + b)
  {
    forall c, d, p | c in a + b && d in a + b && c.Contains(p) && d.Contains(p) ensures c == d
    {
      if c in a && d in a {
      } else if c in b && d in b {
      }
    }
  }

  lemma TradeCovered(s: set<Cube>, t: Cube, cutter: Cube, pieces: seq<Cube>)
    requires t in s
    requires pieces == SplitTarget(cutter, t)
    ensures forall p :: !cutter.Contains(p) ==>
      (Covered(s - {t} + (set c | c in pieces), p) <==> Covered(s, p))
  {
    var s' := s - {t} + set c | c in pieces;
    forall i | 0 <= i < |pieces| ensures Covers(t, pieces[i])
    {
      InsideCovers(pieces[i], t);
    }
    forall i, p | 0 <= i < |pieces| && pieces[i].Contains(p) ensures t.Contains(p) && !cutter.Contains(p) { }
    forall p | !cutter.Contains(p) ensures Covered(s', p) <==> Covered(s, p)
    {
      if Covered(s', p) {
        var c :| c in s' && c.Contains(p);
        if c !in s {
          var i :| 0 <= i < |pieces| && pieces[i] == c;
          assert t in s && t.Contains(p);
        }
      }
      if Covered(s, p) {
        var c :| c in s && c.Contains(p);
        if c == t {
          var i := CountFind(pieces, p);
          assert pieces[i] in s';
        } else {
          assert c in s';
        }
      }
    }
  }

  /** The body of the inner loop in Process: touching leaves the index and
      its pieces outside the cutter join it. */
  method Carve(tree: QuadTree, cutter: Cube, touching: Cube, bounds: Cube)
    requires Good(tree, bounds) && touching in tree.contents
    modifies tree, tree.root.Nodes()
    ensures Good(tree, bounds)
    ensures tree.contents == old(tree.contents) - {touching} + set c | c in SplitTarget(cutter, touching)
    ensures forall p :: !cutter.Contains(p) ==> (Covered(tree.contents, p) <==> Covered(old(tree.contents), p))
    ensures forall c :: c in tree.contents && Meets(c, cutter) ==> c in old(tree.contents) - {touching}
  {
    ghost var before := tree.contents;
    tree.Remove(touching);
    var splits := SplitTarget(cutter, touching);
    Trade(before, touching, cutter, splits);
    forall k | 0 <= k < |splits| ensures Inside(splits[k], bounds)
    {
      InsideTransitive(splits[k], touching, bounds);
    }
    tree.AddAll(splits);
    forall c | c in tree.contents && Meets(c, cutter) ensures c in before - {touching}
    {
      if c !in before - {touching} {
        var j :| 0 <= j < |splits| && splits[j] == c;
        MeetsIff(c, cutter);
      }
    }
  }

  /** One pass of the loop in Process: every held cube the flip's cube
      touches is traded for its pieces outside it, and the flip's cube is
      added if it turns cubes on. */
  method ApplyFlip(tree: QuadTree, flip: Flip, bounds: Cube)
    requires Good(tree, bounds) && Inside(flip.cube, bounds)
    modifies tree, tree.root.Nodes()
    ensures Good(tree, bounds)
    ensures forall p :: Covered(tree.contents, p) <==>
      if flip.cube.Contains(p) then flip.on else Covered(old(tree.contents), p)
  {
    ghost var start := tree.contents;
    var leafNodes := tree.FindIntersectingLeafNodes(flip.cube);
    var allTouching := CubesOf(leafNodes);
    forall c | c in tree.contents && Meets(c, flip.cube) ensures c in allTouching
    {
      Touching(tree.root, tree.contents, flip.cube, c);
    }
    forall c | c in allTouching ensures c in tree.contents
    {
      var k :| 0 <= k < |leafNodes| && c in leafNodes[k].cubes;
      assert leafNodes[k] in leafNodes;
    }
    var remaining := allTouching;
    while remaining != {}
      invariant Good(tree, bounds) && remaining <= tree.contents
      invariant forall c :: c in tree.contents && Meets(c, flip.cube) ==> c in remaining
      invariant forall p :: !flip.cube.Contains(p) ==> (Covered(tree.contents, p) <==> Covered(start, p))
      decreases remaining
    {
      var touching :| touching in remaining;
      Carve(tree, flip.cube, touching, bounds);
      remaining := remaining - {touching};
    }
    forall p | flip.cube.Contains(p) ensures !Covered(tree.contents, p)
    {
      forall c | c in tree.contents ensures !c.Contains(p)
      {
        MeetsIff(c, flip.cube);
      }
    }
    if flip.on {
      ghost var before := tree.contents;
      tree.Add(flip.cube);
      forall c, d, p | c in tree.contents && d in tree.contents && c.Contains(p) && d.Contains(p) ensures c == d
      {
        if c != d && (c == flip.cube || d == flip.cube) {
          MeetsIff(c, flip.cube);
          MeetsIff(d, flip.cube);
        }
      }
    }
  }

  /** Process: runs the flips over an index of the bounds of all of them and
      sums the volumes of the cubes the root holds at the end. The cubes
      summed, lit, are the root's cubes in the order summed: each point is in
      one of them when the flips leave it on and in none otherwise. */
  method Process(flips: seq<Flip>) returns (total: int, ghost lit: seq<Cube>)
    ensures forall p :: Count(lit, p) == if Lit(flips, p) then 1 else 0
    ensures total == SumVolumes(lit)
  {
    var bounds := BoundsOf(flips);
    var made := QuadTree.New(QuadTreeDepth, bounds);
    var tree := made.value;
    var i := 0;
    while i < |flips|
      invariant 0 <= i <= |flips|
      invariant fresh(tree) && fresh(tree.root.Nodes())
      invariant Good(tree, bounds)
      invariant forall p :: Covered(tree.contents, p) <==> Lit(flips[..i], p)
    {
      ApplyFlip(tree, flips[i], bounds);
      assert flips[..i + 1][..i] == flips[..i];
      i := i + 1;
    }
    assert flips[..i] == flips;
    var held := tree.root.cubes;
    assert held == tree.contents by {
      forall c | c in tree.contents ensures Meets(bounds, c)
      {
        InsideMeets(c, bounds);
      }
    }
    var remaining := held;
    total, lit := 0, [];
    while remaining != {}
      invariant remaining <= held
      invariant total == SumVolumes(lit)
      invariant forall p :: Count(lit, p) == if Covered(held - remaining, p) then 1 else 0
      decreases remaining
    {
      var c :| c in remaining;
      forall p ensures Count(lit + [c], p) == if Covered(held - (remaining - {c}), p) then 1 else 0
      {
        assert (lit + [c])[..|lit|] == lit;
        forall d | d in held - remaining && c.Contains(p) ensures !d.Contains(p) { }
      }
      assert (lit + [c])[..|lit|] == lit;
      total := total + c.Volume();
      lit := lit + [c];
      remaining := remaining - {c};
    }
  }
}
