/** The box index of the reactor model: a tree whose nodes each keep the
    set of cubes meeting their bounds, with children splitting a node's
    bounds into octants. Nodes are objects whose cube sets are updated in
    place; the tree shape is fixed once built. */
module Day22Tree {
  import opened Common
  import opened Day22

  /** The nodes of the subtrees of kids. */
  ghost function Under(kids: seq<Node>): set<Node>
  {
    if kids == [] then {} else Under(kids[..|kids| - 1]) + kids[|kids| - 1].Nodes()
  }

  lemma {:induction false} UnderHas(kids: seq<Node>, j: int)
    requires 0 <= j < |kids|
    ensures kids[j].Nodes() <= Under(kids)
  {
    if j < |kids| - 1 {
      UnderHas(kids[..|kids| - 1], j);
    }
  }

  /** A node under kids is under one of them. */
  lemma {:induction false} UnderMember(kids: seq<Node>, n: Node) returns (j: int)
    requires n in Under(kids)
    ensures 0 <= j < |kids| && n in kids[j].Nodes()
  {
    if n !in kids[|kids| - 1].Nodes() {
      j := UnderMember(kids[..|kids| - 1], n);
    } else {
      j := |kids| - 1;
    }
  }

  lemma UnderPrefix(kids: seq<Node>, i: int)
    requires 0 <= i < |kids|
    ensures Under(kids[..i + 1]) == Under(kids[..i]) + kids[i].Nodes()
  {
    assert kids[..i + 1][..i] == kids[..i];
  }

  /** QuadTreeNode: its bounds, its children and IntersectingCubes. */
  class Node {
    const bounds: Cube
    const children: seq<Node>
    /** The height of the subtree, which bounds the recursion over it. */
    ghost const height: nat
    /** The nodes strictly below this one. */
    ghost const below: set<Node>
    var cubes: set<Cube>

    constructor (bounds: Cube, children: seq<Node>, ghost height: nat)
      ensures this.bounds == bounds && this.children == children && this.height == height
      ensures below == Under(children) && cubes == {}
    {
      this.bounds := bounds;
      this.children := children;
      this.height := height;
      below := Under(children);
      cubes := {};
    }

    predicate IsLeaf() { children == [] }

    /** The nodes of the subtree. */
    ghost function Nodes(): set<Node>
    {
      {this} + below
    }

    /** A tree: each child is lower than its parent, the nodes below are
        the children's subtrees, and no node appears twice. */
    ghost predicate Tree()
      decreases height
    {
      below == Under(children) && this !in below &&
      (forall i :: 0 <= i < |children| ==> children[i].height < height && children[i].Tree()) &&
      forall i, j :: 0 <= i < j < |children| ==> children[i].Nodes() !! children[j].Nodes()
    }

    /** Each child's bounds lie within its parent's. */
    ghost predicate Nested()
      decreases height
    {
      forall i :: 0 <= i < |children| ==>
        children[i].height < height && Covers(bounds, children[i].bounds) && children[i].Nested()
    }

    /** Every point of an inner node's bounds lies in a child's bounds. */
    ghost predicate Splits()
      decreases height
    {
      (forall p :: bounds.Contains(p) && !IsLeaf() ==> exists i :: 0 <= i < |children| && children[i].bounds.Contains(p)) &&
      forall i :: 0 <= i < |children| ==> children[i].height < height && children[i].Splits()
    }

    /** The subtree of every node is a tree within this one. */
    lemma {:induction false} SubTree(n: Node)
      requires Tree() && n in Nodes()
      ensures n.Tree() && n.Nodes() <= Nodes()
      ensures Nested() ==> n.Nested() && Covers(bounds, n.bounds)
      ensures Splits() ==> n.Splits()
      decreases height
    {
      if n != this {
        var j := UnderMember(children, n);
        children[j].SubTree(n);
        UnderHas(children, j);
      }
    }

    /** The children of every node are nodes too. */
    lemma ChildIsNode(n: Node, i: int)
      requires Tree() && n in Nodes() && 0 <= i < |n.children|
      ensures n.children[i] in Nodes()
    {
      SubTree(n);
      UnderHas(n.children, i);
    }

    /** The children visited before the i-th miss its subtree, and so does
        this node. */
    lemma Apart(i: int)
      requires Tree() && 0 <= i < |children|
      ensures children[i].Nodes() !! Under(children[..i]) && this !in children[i].Nodes()
      ensures Under(children[..i + 1]) == Under(children[..i]) + children[i].Nodes()
      ensures children[i].Nodes() <= below && Under(children[..i]) <= below
    {
      forall n | n in Under(children[..i]) ensures n !in children[i].Nodes()
      {
        var j := UnderMember(children[..i], n);
        assert children[..i][j] == children[j];
      }
      UnderHas(children, i);
      UnderPrefix(children, i);
      forall n | n in Under(children[..i]) ensures n in below
      {
        var j := UnderMember(children[..i], n);
        assert children[..i][j] == children[j];
        UnderHas(children, j);
      }
    }

    // -------------------------------------------------------------------
    // Add

    /** AddRecursive: the cube joins exactly the nodes whose bounds it meets. */
    method AddRecursive(c: Cube)
      requires Tree()
      modifies Nodes()
      ensures forall n :: n in Nodes() ==> n.cubes == if Meets(n.bounds, c) then old(n.cubes) + {c} else old(n.cubes)
      decreases height
    {
      if Meets(bounds, c) {
        cubes := cubes + {c};
      }
      var i := 0;
      while i < |children|
        invariant 0 <= i <= |children|
        invariant cubes == if Meets(bounds, c) then old(cubes) + {c} else old(cubes)
        invariant forall n :: n in below && n in Under(children[..i]) ==>
          n.cubes == if Meets(n.bounds, c) then old(n.cubes) + {c} else old(n.cubes)
        invariant forall n :: n in below && n !in Under(children[..i]) ==> n.cubes == old(n.cubes)
      {
        Apart(i);
        label Before:
        children[i].AddRecursive(c);
        forall n | n in Nodes() ensures n.cubes ==
          if n in children[i].Nodes() && Meets(n.bounds, c) then old@Before(n.cubes) + {c} else old@Before(n.cubes)
        {
        }
        i := i + 1;
      }
      assert children[..i] == children;
    }

    // -------------------------------------------------------------------
    // Remove

    /** A node holds every cube one of its children holds. */
    ghost predicate HoldsChildren(c: Cube)
      reads this, children
    {
      forall i :: 0 <= i < |children| && c in children[i].cubes ==> c in cubes
    }

    /** Every node of the subtree holds every cube its children hold. */
    ghost predicate Closed(c: Cube)
      requires Tree()
      reads Nodes()
      decreases height
    {
      ChildrenAreNodes();
      HoldsChildren(c) && forall i :: 0 <= i < |children| ==> children[i].Closed(c)
    }

    lemma ChildrenAreNodes()
      requires Tree()
      ensures forall i :: 0 <= i < |children| ==> children[i] in Nodes() && children[i].Nodes() <= Nodes()
    {
      forall i | 0 <= i < |children| ensures children[i] in Nodes() && children[i].Nodes() <= Nodes()
      {
        UnderHas(children, i);
      }
    }

    /** In a closed subtree a cube the top node lacks is in no node. */
    lemma {:induction false} Absent(c: Cube)
      requires Tree() && Closed(c) && c !in cubes
      ensures forall n :: n in Nodes() ==> c !in n.cubes
      decreases height
    {
      forall n | n in Nodes() ensures c !in n.cubes
      {
        if n != this {
          var j := UnderMember(children, n);
          children[j].Absent(c);
        }
      }
    }

    /** RemoveRecursive: drops the cube from a node holding it and from its
        subtree; in a closed tree, from every node. */
    method RemoveRecursive(c: Cube)
      requires Tree() && Closed(c)
      modifies Nodes()
      ensures forall n :: n in Nodes() ==> n.cubes == old(n.cubes) - {c}
      decreases height
    {
      if c in cubes {
        forall j | 0 <= j < |children| ensures children[j].Closed(c) && this !in children[j].Nodes()
        {
          UnderHas(children, j);
        }
        cubes := cubes - {c};
        var i := 0;
        while i < |children|
          invariant 0 <= i <= |children|
          invariant cubes == old(cubes) - {c}
          invariant forall n :: n in below && n in Under(children[..i]) ==> n.cubes == old(n.cubes) - {c}
          invariant forall n :: n in below && n !in Under(children[..i]) ==> n.cubes == old(n.cubes)
          invariant forall j :: i <= j < |children| ==> children[j].Closed(c)
        {
          Apart(i);
          forall j | i < j < |children| ensures children[i].Nodes() !! children[j].Nodes() { }
          label Before:
          children[i].RemoveRecursive(c);
          forall n | n in Nodes() ensures n.cubes ==
            if n in children[i].Nodes() then old@Before(n.cubes) - {c} else old@Before(n.cubes)
          {
          }
          i := i + 1;
        }
        assert children[..i] == children;
      } else {
        Absent(c);
      }
    }

    // -------------------------------------------------------------------
    // Leaves

    /** The leaves reached by descending through nodes that meet t, in order. */
    ghost function LeavesMeeting(t: Cube): seq<Node>
      requires Tree()
      decreases height, 1
    {
      if !Meets(bounds, t) then [] else if IsLeaf() then [this] else LeavesFrom(0, t)
    }

    ghost function LeavesFrom(i: nat, t: Cube): seq<Node>
      requires Tree() && i <= |children|
      decreases height, 0, |children| - i
    {
      if i == |children| then [] else children[i].LeavesMeeting(t) + LeavesFrom(i + 1, t)
    }

    /** FindIntersectingLeafNodesRecursive: appends those leaves to containing. */
    method FindLeaves(t: Cube, containing: seq<Node>) returns (r: seq<Node>)
      requires Tree()
      ensures r == containing + LeavesMeeting(t)
      decreases height
    {
      r := containing;
      if Meets(bounds, t) {
        if IsLeaf() {
          r := r + [this];
        } else {
          var i := 0;
          while i < |children|
            invariant 0 <= i <= |children|
            invariant r + LeavesFrom(i, t) == containing + LeavesFrom(0, t)
          {
            r := children[i].FindLeaves(t, r);
            i := i + 1;
          }
        }
      }
    }

    /** With nested bounds, the leaves found are exactly the leaf nodes
        whose bounds meet t. */
    lemma {:induction false} LeavesMeetingAre(t: Cube, n: Node)
      requires Tree() && Nested()
      ensures n in LeavesMeeting(t) <==> n in Nodes() && n.IsLeaf() && Meets(n.bounds, t)
      decreases height, 1
    {
      if n in Nodes() && n.IsLeaf() && Meets(n.bounds, t) && n != this {
        var j := UnderMember(children, n);
        children[j].SubTree(n);
        MeetsIff(n.bounds, t);
        var p :| n.bounds.Contains(p) && t.Contains(p);
        assert children[j].bounds.Contains(p);
        MeetsIff(bounds, t);
        children[j].LeavesMeetingAre(t, n);
        LeavesFromHas(0, j, t);
      }
      if n in LeavesMeeting(t) && Meets(bounds, t) && !IsLeaf() {
        var j := LeavesFromMember(0, t, n);
        children[j].LeavesMeetingAre(t, n);
        UnderHas(children, j);
      }
    }

    lemma {:induction false} LeavesFromHas(i: nat, j: nat, t: Cube)
      requires Tree() && i <= j < |children|
      ensures forall n :: n in children[j].LeavesMeeting(t) ==> n in LeavesFrom(i, t)
      decreases |children| - i
    {
      if i < j {
        LeavesFromHas(i + 1, j, t);
      }
    }

    lemma {:induction false} LeavesFromMember(i: nat, t: Cube, n: Node) returns (j: int)
      requires Tree() && i <= |children| && n in LeavesFrom(i, t)
      ensures i <= j < |children| && n in children[j].LeavesMeeting(t)
      decreases |children| - i
    {
      if n !in children[i].LeavesMeeting(t) {
        j := LeavesFromMember(i + 1, t, n);
      } else {
        j := i;
      }
    }

    /** With split bounds, every point of the bounds lies in a leaf's bounds. */
    lemma {:induction false} LeafAt(p: Point3) returns (leaf: Node)
      requires Tree() && Splits() && bounds.Contains(p)
      ensures leaf in Nodes() && leaf.IsLeaf() && leaf.bounds.Contains(p)
      decreases height
    {
      if IsLeaf() {
        leaf := this;
      } else {
        var i :| 0 <= i < |children| && children[i].bounds.Contains(p);
        leaf := children[i].LeafAt(p);
        UnderHas(children, i);
      }
    }
  }

  // ---------------------------------------------------------------------
  // Building the tree

  /** CreateSubtree: a node over bounds with, above the last level, the
      eight octants as children. */
  method CreateSubtree(bounds: Cube, depth: int, maxDepth: int) returns (node: Node)
    ensures node.Tree() && node.Nested() && node.Splits()
    ensures fresh(node.Nodes())
    ensures node.bounds == bounds && node.height == if depth < maxDepth then maxDepth - depth else 0
    ensures forall n :: n in node.Nodes() ==> n.cubes == {}
    ensures node.IsLeaf() <==> depth >= maxDepth
    ensures !node.IsLeaf() ==>
      |node.children| == 8 && forall o :: 0 <= o < 8 ==> node.children[o].bounds == Octant(bounds, o)
    decreases maxDepth - depth, 1
  {
    var kids: seq<Node> := [];
    if depth < maxDepth {
      kids := CreateChildren(bounds, depth, maxDepth);
    }
    forall n | n in Under(kids) ensures allocated(n)
    {
      var j := UnderMember(kids, n);
    }
    node := new Node(bounds, kids, if depth < maxDepth then maxDepth - depth else 0);
    assert node !in Under(kids);
    forall n | n in Under(kids) ensures n.cubes == {}
    {
      var j := UnderMember(kids, n);
    }
    assert forall k :: 0 <= k < |kids| ==> kids[k].height < node.height;
    forall o | 0 <= o < |kids| ensures Covers(bounds, kids[o].bounds)
    {
      assert Good(kids[o], bounds, o, maxDepth - depth);
      OctantsPartition(bounds, o, bounds.GetContainedPoint());
    }
    forall p | bounds.Contains(p) && kids != [] ensures exists i :: 0 <= i < |kids| && kids[i].bounds.Contains(p)
    {
      OctantsPartition(bounds, 0, p);
      var k :| 0 <= k < 8 && Octant(bounds, k).Contains(p);
      assert Good(kids[k], bounds, k, maxDepth - depth);
    }
  }

  /** child is the subtree over octant o of bounds: a tree lower than h
      with nested and split bounds. */
  ghost predicate Good(child: Node, bounds: Cube, o: int, h: int)
  {
    0 <= o < 8 && child.bounds == Octant(bounds, o) && child.height < h &&
    child.Tree() && child.Nested() && child.Splits()
  }

  /** kids are the first |kids| octants' subtrees, no two sharing a node. */
  ghost predicate Built(kids: seq<Node>, bounds: Cube, h: int)
  {
    |kids| <= 8 &&
    (forall k :: 0 <= k < |kids| ==> Good(kids[k], bounds, k, h)) &&
    forall k, l :: 0 <= k < l < |kids| ==> kids[k].Nodes() !! kids[l].Nodes()
  }

  lemma BuiltAppend(kids: seq<Node>, child: Node, bounds: Cube, h: int)
    requires Built(kids, bounds, h) && |kids| < 8
    requires Good(child, bounds, |kids|, h)
    requires child.Nodes() !! Under(kids)
    ensures Built(kids + [child], bounds, h)
    ensures Under(kids + [child]) == Under(kids) + child.Nodes()
  {
    var ks := kids + [child];
    assert ks[..|kids|] == kids;
    assert forall k :: 0 <= k < |kids| ==> ks[k] == kids[k];
    forall k, l | 0 <= k < l < |ks| ensures ks[k].Nodes() !! ks[l].Nodes()
    {
      if l == |kids| {
        UnderHas(kids, k);
      }
    }
  }

  /** The children of CreateSubtree: octant x*4 + y*2 + z of the bounds,
      in the order of its three nested loops over x, y and z. */
  method CreateChildren(bounds: Cube, depth: int, maxDepth: int) returns (kids: seq<Node>)
    requires depth < maxDepth
    ensures |kids| == 8 && Built(kids, bounds, maxDepth - depth)
    ensures fresh(Under(kids))
    ensures forall n :: n in Under(kids) ==> n.cubes == {}
    decreases maxDepth - depth, 0
  {
    kids := [];
    var o := 0;
    while o < 8
      invariant 0 <= o <= 8 && |kids| == o
      invariant Built(kids, bounds, maxDepth - depth)
      invariant fresh(Under(kids))
      invariant forall n :: n in Under(kids) ==> n.cubes == {}
    {
      forall n | n in Under(kids) ensures allocated(n)
      {
        var j := UnderMember(kids, n);
      }
      var child := CreateSubtree(Octant(bounds, o), depth + 1, maxDepth);
      forall n | n in Under(kids) ensures n.cubes == {}
      {
        var j := UnderMember(kids, n);
      }
      assert Good(child, bounds, o, maxDepth - depth);
      BuiltAppend(kids, child, bounds, maxDepth - depth);
      kids := kids + [child];
      o := o + 1;
    }
  }
}
