/** Passage pathing: a cave graph built edge by edge, and a depth-first
    search listing every route from start to end that enters big caves any
    number of times, small caves at most twice, and at most one small cave
    twice. */
module Day12 {
  import opened Common
  import opened Counting

  /** Char.IsUpper, restricted to ASCII letters. */
  predicate IsUpper(c: char) { 'A' <= c <= 'Z' }

  /** IsBigCave: the name starts with an upper-case letter. */
  predicate IsBigCave(name: string)
    requires name != ""
  {
    IsUpper(name[0])
  }

  predicate Big(name: string) { name != "" && IsBigCave(name) }
  predicate Small(name: string) { name != "" && !IsBigCave(name) }

  /** GraphNode: a name and the labels of the caves it is joined to. */
  class GraphNode {
    const name: string
    var edges: set<string>

    constructor (name: string)
      ensures this.name == name && edges == {}
    {
      this.name := name;
      edges := {};
    }
  }

  /** The edge sets of a name, empty when the name is absent. */
  function EdgesOf(adj: map<string, set<string>>, l: string): set<string>
  {
    if l in adj then adj[l] else {}
  }

  /** Every edge leads to a name of the graph. */
  predicate Closed(adj: map<string, set<string>>)
  {
    forall l, m :: l in adj && m in adj[l] ==> m in adj
  }

  /** Every edge has its reverse. */
  predicate Symmetric(adj: map<string, set<string>>)
  {
    forall l, m :: l in adj && m in adj[l] ==> m in adj && l in adj[m]
  }

  /** The adjacency after AddEdge(first, second). */
  function Link(adj: map<string, set<string>>, first: string, second: string): (r: map<string, set<string>>)
    ensures r.Keys == adj.Keys + {first, second}
    ensures second in r[first] && first in r[second]
    ensures forall l :: l in adj && l != first && l != second ==> r[l] == adj[l]
    ensures forall l, m :: l in r && m in r[l] ==> (l in adj && m in adj[l]) || (l == first && m == second) || (l == second && m == first)
    ensures Closed(adj) ==> Closed(r)
    ensures Symmetric(adj) ==> Symmetric(r)
  {
    var withFirst := adj[first := EdgesOf(adj, first) + {second}];
    withFirst[second := EdgesOf(withFirst, second) + {first}]
  }

  /** The four map updates AddEdge performs, one per statement, make Link. */
  lemma LinkSteps(adj: map<string, set<string>>, withFirst: map<string, set<string>>, withBoth: map<string, set<string>>,
                  joined: map<string, set<string>>, linked: map<string, set<string>>, first: string, second: string)
    requires withFirst == adj[first := EdgesOf(adj, first)]
    requires withBoth == withFirst[second := EdgesOf(withFirst, second)]
    requires joined == withBoth[first := withBoth[first] + {second}]
    requires linked == joined[second := joined[second] + {first}]
    ensures linked == Link(adj, first, second)
  {
    var r := Link(adj, first, second);
    assert linked.Keys == r.Keys;
    forall l | l in r ensures linked[l] == r[l] {
    }
  }

  /** Graph: caves by name. */
  class Graph {
    var nodes: map<string, GraphNode>

    constructor ()
      ensures nodes == map[]
    {
      nodes := map[];
    }

    /** Each node sits under its own name. */
    predicate Valid()
      reads this
    {
      forall l :: l in nodes ==> nodes[l].name == l
    }

    /** The graph as labels and their edge sets. */
    ghost function Adjacency(): map<string, set<string>>
      reads this, nodes.Values
    {
      map l | l in nodes :: nodes[l].edges
    }

    /** Get: the node of a name, created with no edges when absent. */
    method Get(name: string) returns (node: GraphNode)
      requires Valid()
      modifies this
      ensures Valid()
      ensures nodes == old(nodes)[name := node] && node.name == name
      ensures name in old(nodes) ==> node == old(nodes[name])
      ensures name !in old(nodes) ==> fresh(node)
      ensures Adjacency() == old(Adjacency())[name := EdgesOf(old(Adjacency()), name)]
    {
      if name !in nodes {
        var created := new GraphNode(name);
        nodes := nodes[name := created];
      }
      node := nodes[name];
    }

    /** One half of AddEdge: other joins the edge set of node. */
    method Join(node: GraphNode, other: string)
      requires Valid() && node.name in nodes && nodes[node.name] == node
      modifies node
      ensures Valid()
      ensures Adjacency() == old(Adjacency())[node.name := old(Adjacency())[node.name] + {other}]
    {
      node.edges := node.edges + {other};
    }

    /** AddEdge: inserts both caves when missing and joins them both ways. */
    method AddEdge(first: string, second: string)
      requires Valid()
      modifies this, nodes.Values
      ensures Valid()
      ensures Adjacency() == Link(old(Adjacency()), first, second)
    {
      ghost var adj := Adjacency();
      var firstNode := Get(first);
      ghost var withFirst := Adjacency();
      var secondNode := Get(second);
      ghost var withBoth := Adjacency();
      Join(firstNode, second);
      ghost var joined := Adjacency();
      Join(secondNode, first);
      LinkSteps(adj, withFirst, withBoth, joined, Adjacency(), first, second);
    }
  }

  /** Every cave is named and filed under its name, every edge leads to a
      cave of the graph, and no two big caves are joined (between two big
      caves the search would go back and forth for ever). */
  predicate SearchGraph(adj: map<string, set<string>>, nodes: map<string, GraphNode>)
  {
    && adj.Keys == nodes.Keys
    && (forall l :: l in nodes ==> nodes[l].name == l && l != "")
    && Closed(adj)
    && (forall l, m :: l in adj && m in adj[l] ==> !(Big(l) && Big(m)))
  }

  ghost predicate Searchable(g: Graph)
    reads g, g.nodes.Values
  {
    SearchGraph(g.Adjacency(), g.nodes)
  }

  /** The edge sets of the nodes are the ones in adj. */
  ghost predicate Represents(nodes: map<string, GraphNode>, adj: map<string, set<string>>)
    reads nodes.Values
  {
    forall l :: l in nodes ==> l in adj && nodes[l].edges == adj[l]
  }

  lemma {:induction false} ReversedMultiset<T>(s: seq<T>)
    ensures multiset(Reversed(s)) == multiset(s)
  {
    if s != [] {
      ReversedMultiset(s[..|s| - 1]);
      assert s == s[..|s| - 1] + [s[|s| - 1]];
    }
  }

  /** Reversing twice gives the sequence back. */
  lemma ReversedTwice<T>(s: seq<T>)
    ensures Reversed(Reversed(s)) == s
  {
    ReversedIndex(s);
    ReversedIndex(Reversed(s));
  }

  /** Reverse: every element is pushed on a stack, then the stack is popped
      into a new list until it is empty. */
  method Reverse<T>(source: seq<T>) returns (newList: seq<T>)
    ensures newList == Reversed(source)
  {
    var ts: seq<T> := [];
    for i := 0 to |source|
      invariant ts == Reversed(source[..i])
    {
      assert source[..i + 1][..i] == source[..i];
      ts := [source[i]] + ts;
    }
    assert source[..|source|] == source;
    newList := [];
    while ts != []
      invariant newList + ts == Reversed(source)
      decreases |ts|
    {
      assert newList + ts == (newList + [ts[0]]) + ts[1..];
      newList := newList + [ts[0]];
      ts := ts[1..];
    }
  }

  /** The labels of a list of nodes. */
  function Labels(route: seq<GraphNode>): seq<string>
  {
    seq(|route|, i requires 0 <= i < |route| => route[i].name)
  }

  lemma LabelsReversed(route: seq<GraphNode>)
    ensures Labels(Reversed(route)) == Reversed(Labels(route))
  {
    ReversedIndex(route);
    ReversedIndex(Labels(route));
  }

  /** A route as reported: from start to end along edges, start only at its
      head and end only at its tail. */
  predicate IsRoute(adj: map<string, set<string>>, route: seq<string>, start: string, end: string)
  {
    && |route| > 0 && route[0] == start && route[|route| - 1] == end
    && (forall i :: 0 < i < |route| ==> route[i] != start)
    && (forall i :: 0 <= i < |route| - 1 ==> route[i] != end)
    && (forall i :: 0 <= i < |route| - 1 ==> route[i] in adj && route[i + 1] in adj[route[i]])
  }

  /** The route stack, top first: start at the bottom only, end nowhere below
      the top, and each entry an edge away from the one under it. */
  predicate IsStack(adj: map<string, set<string>>, stack: seq<string>, start: string, end: string)
  {
    && |stack| > 0 && stack[|stack| - 1] == start
    && (forall i :: 0 <= i < |stack| - 1 ==> stack[i] != start)
    && (forall i :: 0 < i < |stack| ==> stack[i] != end)
    && (forall i :: 0 < i < |stack| ==> stack[i] in adj && stack[i - 1] in adj[stack[i]])
  }

  /** Pushing a neighbour of the top that is neither start nor below an end. */
  lemma PushStack(adj: map<string, set<string>>, stack: seq<string>, next: string, start: string, end: string)
    requires IsStack(adj, stack, start, end) && stack[0] != end
    requires stack[0] in adj && next in adj[stack[0]] && next != start
    ensures IsStack(adj, [next] + stack, start, end)
  {
    var pushed := [next] + stack;
    forall i | 0 < i < |pushed| ensures pushed[i] in adj && pushed[i - 1] in adj[pushed[i]] {
      assert pushed[i] == stack[i - 1];
    }
  }

  /** A stack whose top is end, read from the bottom, is a route. */
  lemma {:induction false} StackRoute(adj: map<string, set<string>>, stack: seq<string>, start: string, end: string)
    requires IsStack(adj, stack, start, end) && stack[0] == end
    ensures IsRoute(adj, Reversed(stack), start, end)
  {
    ReversedIndex(stack);
    var route := Reversed(stack);
    var n := |stack|;
    forall i | 0 <= i < n - 1 ensures route[i] in adj && route[i + 1] in adj[route[i]] {
      assert route[i] == stack[n - 1 - i] && route[i + 1] == stack[n - 1 - (i + 1)];
    }
    forall i | 0 < i < n ensures route[i] != start {
      assert route[i] == stack[n - 1 - i];
    }
    forall i | 0 <= i < n - 1 ensures route[i] != end {
      assert route[i] == stack[n - 1 - i];
    }
  }

  /** Two joined big caves: ShouldExplore always lets a big cave in, so
      from a stack topped by a the search pushes b and then a again, with
      the same small-cave counts and a again on top; nothing bounds the
      recursion. */
  lemma BigPairEndless(adj: map<string, set<string>>, stack: seq<string>, a: string, b: string, start: string, end: string)
    requires IsStack(adj, stack, start, end) && stack[0] == a
    requires Big(a) && Big(b) && a in adj && b in adj[a] && b in adj && a in adj[b]
    requires a != start && a != end && b != start && b != end
    ensures IsStack(adj, [a, b] + stack, start, end) && ([a, b] + stack)[0] == a
    ensures |[a, b] + stack| == |stack| + 2
    ensures forall l :: Small(l) ==> multiset([a, b] + stack)[l] == multiset(stack)[l]
  {
    PushStack(adj, stack, b, start, end);
    PushStack(adj, [b] + stack, a, start, end);
    assert [a, b] + stack == [a] + ([b] + stack);
  }

  /** The rule every route keeps: no small cave visited more than twice, and
      at most one small cave visited twice. */
  predicate VisitRule(m: multiset<string>)
  {
    && (forall l :: l in m && Small(l) ==> m[l] <= 2)
    && (forall l, k :: l in m && k in m && Small(l) && Small(k) && m[l] >= 2 && m[k] >= 2 ==> l == k)
  }

  /** The hasDoubleVisit test of ShouldExplore. */
  predicate HasDoubleVisit(visits: map<string, int>)
  {
    exists l :: l in visits && Small(l) && visits[l] >= 2
  }

  /** A small cave ShouldExplore lets in had fewer than two visits, and
      visiting it keeps the rule. */
  lemma AcceptedSmall(m: multiset<string>, visits: map<string, int>, next: string)
    requires forall l :: Lookup(visits, l) == m[l]
    requires VisitRule(m) && Small(next)
    requires !HasDoubleVisit(visits) || Lookup(visits, next) == 0
    ensures m[next] < 2 && VisitRule(m + multiset{next})
  {
    forall l | Small(l) && m[l] >= 2 ensures l in visits && visits[l] >= 2 {
      assert Lookup(visits, l) == m[l];
    }
    assert Lookup(visits, next) == m[next];
  }

  /** The visits the search may still make: a slot (l, k) per small cave l
      for each k in 1..2 above its current count. */
  ghost function Unused(keys: set<string>, visits: map<string, int>): set<(string, int)>
  {
    set l, k | l in keys && Small(l) && 1 <= k <= 2 && Lookup(visits, l) < k :: (l, k)
  }

  lemma SameUnused(keys: set<string>, a: map<string, int>, b: map<string, int>)
    requires forall l :: Lookup(a, l) == Lookup(b, l)
    ensures Unused(keys, a) == Unused(keys, b)
  {
  }

  lemma UnusedShrinks(keys: set<string>, visits: map<string, int>, next: string)
    requires next in keys && Small(next) && 0 <= Lookup(visits, next) < 2
    ensures Unused(keys, AddCount(visits, next, 1)) < Unused(keys, visits)
  {
    LookupAddCount(visits, next, 1, next);
    assert (next, Lookup(visits, next) + 1) in Unused(keys, visits);
    forall p | p in Unused(keys, AddCount(visits, next, 1)) ensures p in Unused(keys, visits) {
      LookupAddCount(visits, next, 1, p.0);
    }
  }

  lemma UnusedBig(keys: set<string>, visits: map<string, int>, next: string)
    requires !Small(next)
    ensures Unused(keys, AddCount(visits, next, 1)) == Unused(keys, visits)
  {
    forall l ensures (Small(l) ==> Lookup(AddCount(visits, next, 1), l) == Lookup(visits, l)) {
      LookupAddCount(visits, next, 1, l);
    }
  }

  /** The search goes up a level on each small cave and down one on a big
      cave, which must follow a small one. */
  function Rank(name: string): int
  {
    if Big(name) then 0 else 1
  }

  /** The search state between steps: the stack holds graph nodes joined by
      edges, it keeps the visit rule, and the visit counts are the
      occurrences of each label on it. */
  ghost predicate SearchState(adj: map<string, set<string>>, nodes: map<string, GraphNode>, visits: map<string, int>,
                              route: seq<GraphNode>, start: string, end: string)
  {
    && visits.Keys <= nodes.Keys
    && (forall i :: 0 <= i < |route| ==> route[i].name in nodes && nodes[route[i].name] == route[i])
    && IsStack(adj, Labels(route), start, end)
    && (forall l :: Lookup(visits, l) == multiset(Labels(route))[l])
    && VisitRule(multiset(Labels(route)))
  }

  /** Every route found is a route that keeps the visit rule. */
  ghost predicate AllRoutes(adj: map<string, set<string>>, routes: seq<seq<GraphNode>>, start: string, end: string)
  {
    forall i :: 0 <= i < |routes| ==> ValidRoute(adj, Labels(routes[i]), start, end)
  }

  /** A route the search must report. */
  predicate ValidRoute(adj: map<string, set<string>>, route: seq<string>, start: string, end: string)
  {
    IsRoute(adj, route, start, end) && VisitRule(multiset(route))
  }

  /** The state FindRoutes sets up: start visited once and on the stack. */
  lemma StartState(adj: map<string, set<string>>, nodes: map<string, GraphNode>, startNode: GraphNode, start: string, end: string)
    requires SearchGraph(adj, nodes) && start in nodes && nodes[start] == startNode
    ensures SearchState(adj, nodes, map[start := 1], [startNode], start, end)
  {
    assert Labels([startNode]) == [start];
  }

  /** Two tallies that agree on every label. */
  ghost predicate SameCounts(a: map<string, int>, b: map<string, int>)
  {
    forall l :: Lookup(a, l) == Lookup(b, l)
  }

  /** Visits that count the same keep the state and the slots left. */
  lemma Recount(adj: map<string, set<string>>, nodes: map<string, GraphNode>, a: map<string, int>, b: map<string, int>,
                route: seq<GraphNode>, start: string, end: string)
    requires SearchState(adj, nodes, a, route, start, end) && SameCounts(a, b) && b.Keys <= nodes.Keys
    ensures SearchState(adj, nodes, b, route, start, end)
    ensures Unused(adj.Keys, a) == Unused(adj.Keys, b)
  {
    SameUnused(adj.Keys, a, b);
  }

  /** Pushing a neighbour ShouldExplore accepts keeps the state; a small
      one had fewer than two visits. */
  lemma Push(adj: map<string, set<string>>, nodes: map<string, GraphNode>, visits: map<string, int>,
             route: seq<GraphNode>, next: GraphNode, start: string, end: string)
    requires SearchState(adj, nodes, visits, route, start, end)
    requires route[0].name != end && next.name in nodes && nodes[next.name] == next
    requires route[0].name in adj && next.name in adj[route[0].name] && next.name != start
    requires Small(next.name) ==> !HasDoubleVisit(visits) || Lookup(visits, next.name) == 0
    ensures SearchState(adj, nodes, AddCount(visits, next.name, 1), [next] + route, start, end)
    ensures 0 <= Lookup(visits, next.name) && (Small(next.name) ==> Lookup(visits, next.name) < 2)
  {
    var m := multiset(Labels(route));
    var pushed := [next] + route;
    assert Labels(pushed) == [next.name] + Labels(route);
    assert Lookup(visits, next.name) == m[next.name];
    PushStack(adj, Labels(route), next.name, start, end);
    if Small(next.name) {
      AcceptedSmall(m, visits, next.name);
    }
    forall l ensures Lookup(AddCount(visits, next.name, 1), l) == multiset(Labels(pushed))[l] {
      LookupAddCount(visits, next.name, 1, l);
    }
    forall i | 0 <= i < |pushed| ensures pushed[i].name in nodes && nodes[pushed[i].name] == pushed[i] {
      if i > 0 {
        assert pushed[i] == route[i - 1];
      }
    }
  }

  /** A small cave pushed uses up a slot; a big one leaves the slots alone
      and follows a small one. */
  lemma PushSlots(adj: map<string, set<string>>, nodes: map<string, GraphNode>, visits: map<string, int>, top: string, next: string)
    requires SearchGraph(adj, nodes)
    requires top in adj && next in adj[top]
    requires 0 <= Lookup(visits, next) && (Small(next) ==> Lookup(visits, next) < 2)
    ensures Small(next) ==> Unused(adj.Keys, AddCount(visits, next, 1)) < Unused(adj.Keys, visits)
    ensures !Small(next) ==> Unused(adj.Keys, AddCount(visits, next, 1)) == Unused(adj.Keys, visits) && Small(top)
  {
    assert top in nodes && next in nodes;
    if Small(next) {
      UnusedShrinks(adj.Keys, visits, next);
    } else {
      UnusedBig(adj.Keys, visits, next);
      assert next != "" && top != "";
      assert Big(next) && !Big(top);
    }
  }

  /** Appending a route to the routes found. */
  lemma AddRoute(adj: map<string, set<string>>, routes: seq<seq<GraphNode>>, route: seq<GraphNode>, start: string, end: string)
    requires AllRoutes(adj, routes, start, end)
    requires IsRoute(adj, Labels(route), start, end) && VisitRule(multiset(Labels(route)))
    ensures AllRoutes(adj, routes + [route], start, end)
  {
  }

  /** No two routes found carry the same labels. */
  ghost predicate Unique(routes: seq<seq<GraphNode>>)
  {
    forall i, j :: 0 <= i < j < |routes| ==> Labels(routes[i]) != Labels(routes[j])
  }

  /** No route found starts with p. */
  ghost predicate Fresh(routes: seq<seq<GraphNode>>, p: seq<string>)
  {
    forall i :: 0 <= i < |routes| ==> !(p <= Labels(routes[i]))
  }

  /** Every route found from index lo on starts with p. */
  ghost predicate Extend(routes: seq<seq<GraphNode>>, lo: nat, p: seq<string>)
  {
    forall i :: lo <= i < |routes| ==> p <= Labels(routes[i])
  }

  /** Every valid route that starts with p was found from index lo on. */
  ghost predicate Covers(adj: map<string, set<string>>, routes: seq<seq<GraphNode>>, lo: nat, p: seq<string>, start: string, end: string)
  {
    forall r :: ValidRoute(adj, r, start, end) && p <= r ==> exists i :: lo <= i < |routes| && Labels(routes[i]) == r
  }

  /** The loop of FindRoutes part way: the routes found from lo on go on
      from p through a neighbour in done, and every valid one that does is
      among them. */
  ghost predicate Through(adj: map<string, set<string>>, routes: seq<seq<GraphNode>>, lo: nat, p: seq<string>, done: set<string>,
                          start: string, end: string)
  {
    Passing(routes, lo, p, done) && Reaching(adj, routes, lo, p, done, start, end)
  }

  ghost predicate Passing(routes: seq<seq<GraphNode>>, lo: nat, p: seq<string>, done: set<string>)
  {
    forall i :: lo <= i < |routes| ==> p <= Labels(routes[i]) && |p| < |routes[i]| && Labels(routes[i])[|p|] in done
  }

  ghost predicate Reaching(adj: map<string, set<string>>, routes: seq<seq<GraphNode>>, lo: nat, p: seq<string>, done: set<string>,
                           start: string, end: string)
  {
    forall r :: ValidRoute(adj, r, start, end) && p <= r && |p| < |r| && r[|p|] in done ==>
      exists i :: lo <= i < |routes| && Labels(routes[i]) == r
  }

  /** The stack read from start. */
  ghost function Path(route: seq<GraphNode>): seq<string>
  {
    Reversed(Labels(route))
  }

  lemma PathPush(next: GraphNode, route: seq<GraphNode>)
    ensures Path([next] + route) == Path(route) + [next.name]
  {
    var pushed := [next] + route;
    assert Labels(pushed) == [next.name] + Labels(route);
    ReversedIndex(Labels(pushed));
    ReversedIndex(Labels(route));
  }

  lemma PathTop(route: seq<GraphNode>)
    requires route != []
    ensures |Path(route)| == |route| && Path(route)[|route| - 1] == route[0].name
    ensures multiset(Path(route)) == multiset(Labels(route))
  {
    ReversedIndex(Labels(route));
    ReversedMultiset(Labels(route));
  }

  /** A route is read from start, so the stack's path starts every route
      it begins. */
  lemma PathStart(route: seq<GraphNode>, start: string)
    requires route != [] && route[|route| - 1].name == start
    ensures Path(route) != [] && Path(route)[0] == start
  {
    ReversedIndex(Labels(route));
  }

  /** The visit counts of a prefix are at most those of the route, so the
      rule holds for every prefix of a route that keeps it. */
  lemma {:induction false} VisitRulePrefix(p: seq<string>, r: seq<string>)
    requires p <= r
    ensures multiset(p) <= multiset(r)
    ensures VisitRule(multiset(r)) ==> VisitRule(multiset(p))
  {
    assert r == p + r[|p|..];
  }

  /** A neighbour ShouldExplore turns away starts no valid route: it is
      start, which a route holds only at its head, or a small cave whose
      next visit breaks the rule. */
  lemma Rejected(adj: map<string, set<string>>, p: seq<string>, visits: map<string, int>, next: string, start: string, end: string)
    requires p != [] && forall l :: Lookup(visits, l) == multiset(p)[l]
    requires next == start || (Small(next) && HasDoubleVisit(visits) && Lookup(visits, next) != 0)
    ensures forall r :: p + [next] <= r ==> !ValidRoute(adj, r, start, end)
  {
    var q := p + [next];
    forall r | q <= r ensures !ValidRoute(adj, r, start, end) {
      assert r[|p|] == next;
      if next != start {
        var l :| l in visits && Small(l) && visits[l] >= 2;
        assert Lookup(visits, l) == multiset(p)[l];
        assert multiset(q) == multiset(p) + multiset{next};
        assert multiset(q)[next] >= 2 && multiset(q)[l] >= 2;
        assert !VisitRule(multiset(q)) by {
          if l == next {
            assert multiset(q)[next] > 2;
          } else {
            assert l in multiset(q) && next in multiset(q);
          }
        }
        VisitRulePrefix(q, r);
      }
    }
  }

  /** Into the loop: no route found yet goes on from p. */
  lemma ThroughNone(adj: map<string, set<string>>, routes: seq<seq<GraphNode>>, p: seq<string>, start: string, end: string)
    ensures Through(adj, routes, |routes|, p, {}, start, end)
  {
  }

  /** The routes found before the loop and the ones through done do not go
      on through a neighbour outside done. */
  lemma FreshNext(before: seq<seq<GraphNode>>, routes: seq<seq<GraphNode>>, p: seq<string>, done: set<string>, next: string,
                  adj: map<string, set<string>>, start: string, end: string)
    requires Fresh(before, p) && before <= routes && Through(adj, routes, |before|, p, done, start, end) && next !in done
    ensures Fresh(routes, p + [next])
  {
    forall i | 0 <= i < |routes| ensures !(p + [next] <= Labels(routes[i])) {
      if i < |before| {
        assert routes[i] == before[i];
        if p + [next] <= Labels(routes[i]) {
          PrefixAppend(p, next, Labels(routes[i]));
        }
      }
    }
  }

  /** One more neighbour done. */
  lemma ThroughNext(adj: map<string, set<string>>, mid: seq<seq<GraphNode>>, routes: seq<seq<GraphNode>>, lo: nat, p: seq<string>,
                    done: set<string>, next: string, start: string, end: string)
    requires lo <= |mid| && mid <= routes && Through(adj, mid, lo, p, done, start, end)
    requires Extend(routes, |mid|, p + [next]) && Covers(adj, routes, |mid|, p + [next], start, end)
    ensures Through(adj, routes, lo, p, done + {next}, start, end)
  {
    PassingNext(mid, routes, lo, p, done, next);
    ReachingNext(adj, mid, routes, lo, p, done, next, start, end);
  }

  lemma PassingNext(mid: seq<seq<GraphNode>>, routes: seq<seq<GraphNode>>, lo: nat, p: seq<string>, done: set<string>, next: string)
    requires lo <= |mid| && mid <= routes && Passing(mid, lo, p, done) && Extend(routes, |mid|, p + [next])
    ensures Passing(routes, lo, p, done + {next})
  {
    forall i | lo <= i < |routes| ensures p <= Labels(routes[i]) && |p| < |routes[i]| && Labels(routes[i])[|p|] in done + {next} {
      if i < |mid| {
        assert routes[i] == mid[i];
      } else {
        PrefixAppend(p, next, Labels(routes[i]));
        assert Labels(routes[i])[|p|] == (p + [next])[|p|];
      }
    }
  }

  lemma ReachingNext(adj: map<string, set<string>>, mid: seq<seq<GraphNode>>, routes: seq<seq<GraphNode>>, lo: nat, p: seq<string>,
                     done: set<string>, next: string, start: string, end: string)
    requires lo <= |mid| && mid <= routes && Reaching(adj, mid, lo, p, done, start, end)
    requires Covers(adj, routes, |mid|, p + [next], start, end)
    ensures Reaching(adj, routes, lo, p, done + {next}, start, end)
  {
    forall r | ValidRoute(adj, r, start, end) && p <= r && |p| < |r| && r[|p|] in done + {next}
      ensures exists i :: lo <= i < |routes| && Labels(routes[i]) == r
    {
      if r[|p|] in done {
        var i :| lo <= i < |mid| && Labels(mid[i]) == r;
        assert routes[i] == mid[i];
      } else {
        assert r[..|p| + 1] == p + [next];
      }
    }
  }

  /** Out of the loop: every neighbour done, so every valid route going on
      from p was found. */
  lemma ThroughAll(adj: map<string, set<string>>, routes: seq<seq<GraphNode>>, lo: nat, p: seq<string>, edges: set<string>,
                   done: set<string>, start: string, end: string)
    requires p != [] && p[|p| - 1] != end && p[|p| - 1] in adj && adj[p[|p| - 1]] == edges
    requires Through(adj, routes, lo, p, done, start, end) && edges <= done
    ensures Extend(routes, lo, p) && Covers(adj, routes, lo, p, start, end)
  {
    forall r | ValidRoute(adj, r, start, end) && p <= r ensures exists i :: lo <= i < |routes| && Labels(routes[i]) == r {
      assert r[|p| - 1] == p[|p| - 1];
      assert |p| < |r|;
      assert r[|p| - 1] in adj && r[|p|] in adj[r[|p| - 1]];
    }
  }

  /** At end the stack is the one route going on from its path. */
  lemma ArrivedOnce(adj: map<string, set<string>>, routes: seq<seq<GraphNode>>, route: seq<GraphNode>, start: string, end: string)
    requires Unique(routes) && Fresh(routes, Labels(route)) && Labels(route) != [] && Labels(route)[|route| - 1] == end
    ensures Unique(routes + [route])
    ensures Extend(routes + [route], |routes|, Labels(route)) && Covers(adj, routes + [route], |routes|, Labels(route), start, end)
  {
    var all := routes + [route];
    forall i, j | 0 <= i < j < |all| ensures Labels(all[i]) != Labels(all[j]) {
      if j == |routes| {
        assert all[i] == routes[i];
        assert !(Labels(route) <= Labels(all[i]));
      } else {
        assert all[i] == routes[i] && all[j] == routes[j];
      }
    }
    forall r | ValidRoute(adj, r, start, end) && Labels(route) <= r ensures exists i :: |routes| <= i < |all| && Labels(all[i]) == r {
      assert r[|route| - 1] == end;
      assert |r| == |route|;
      assert Labels(all[|routes|]) == r;
    }
  }

  /** Every valid route starts with start. */
  lemma CoversStart(adj: map<string, set<string>>, routes: seq<seq<GraphNode>>, start: string, end: string)
    requires Covers(adj, routes, 0, [start], start, end)
    ensures forall r :: ValidRoute(adj, r, start, end) ==> exists i :: 0 <= i < |routes| && Labels(routes[i]) == r
  {
    forall r | ValidRoute(adj, r, start, end) ensures exists i :: 0 <= i < |routes| && Labels(routes[i]) == r {
      assert [start] <= r;
    }
  }

  /** The stack at end, reversed, is a route keeping the visit rule. */
  lemma Arrived(adj: map<string, set<string>>, nodes: map<string, GraphNode>, visits: map<string, int>,
                stack: seq<GraphNode>, start: string, end: string)
    requires SearchState(adj, nodes, visits, stack, start, end) && stack[0].name == end
    ensures IsRoute(adj, Labels(Reversed(stack)), start, end) && VisitRule(multiset(Labels(Reversed(stack))))
  {
    assert Labels(stack)[0] == end;
    StackRoute(adj, Labels(stack), start, end);
    LabelsReversed(stack);
    ReversedMultiset(Labels(stack));
  }

  /** Taking the visit back after the recursive call. */
  lemma Uncount(visits: map<string, int>, counted: map<string, int>, name: string)
    requires SameCounts(visits, AddCount(counted, name, 1)) && Lookup(counted, name) >= 0
    ensures name in visits && SameCounts(visits[name := visits[name] - 1], counted)
  {
    LookupAddCount(counted, name, 1, name);
    assert Lookup(visits, name) == Lookup(counted, name) + 1;
    forall l ensures Lookup(visits[name := visits[name] - 1], l) == Lookup(counted, l) {
      LookupAddCount(counted, name, 1, l);
    }
  }

  /** The state FindRoutes shares with its recursive calls: visit counts by
      label, the route stack (top first), and the routes found so far. */
  class RouteSearch {
    var nodesVisited: map<string, int>
    var currentRoute: seq<GraphNode>
    var routes: seq<seq<GraphNode>>

    constructor ()
      ensures nodesVisited == map[] && currentRoute == [] && routes == []
    {
      nodesVisited := map[];
      currentRoute := [];
      routes := [];
    }

    /** AddVisit: one more visit, inserting the label first when absent. */
    method AddVisit(name: string)
      modifies this
      ensures nodesVisited == AddCount(old(nodesVisited), name, 1)
      ensures currentRoute == old(currentRoute) && routes == old(routes)
    {
      if name !in nodesVisited {
        nodesVisited := nodesVisited[name := 0];
      }
      nodesVisited := nodesVisited[name := nodesVisited[name] + 1];
    }

    /** GetVisits: the visit count, inserting the label with 0 when absent. */
    method GetVisits(name: string) returns (visits: int)
      modifies this
      ensures visits == Lookup(old(nodesVisited), name)
      ensures nodesVisited == AddCount(old(nodesVisited), name, 0)
      ensures currentRoute == old(currentRoute) && routes == old(routes)
    {
      if name !in nodesVisited {
        nodesVisited := nodesVisited[name := 0];
      }
      visits := nodesVisited[name];
    }

    /** ShouldExplore: never back to start, always into a big cave, and into
        a small cave while no small cave has two visits or when this one has
        none yet. */
    method ShouldExplore(start: string, nextNodeLabel: string) returns (explore: bool)
      requires nextNodeLabel != "" && forall l :: l in nodesVisited ==> l != ""
      modifies this
      ensures nextNodeLabel == start ==> !explore
      ensures nextNodeLabel != start && IsBigCave(nextNodeLabel) ==> explore
      ensures nextNodeLabel != start && !IsBigCave(nextNodeLabel) ==>
        (explore <==> !HasDoubleVisit(old(nodesVisited)) || Lookup(old(nodesVisited), nextNodeLabel) == 0)
      ensures nodesVisited ==
        if nextNodeLabel != start && !IsBigCave(nextNodeLabel) && HasDoubleVisit(old(nodesVisited))
        then AddCount(old(nodesVisited), nextNodeLabel, 0) else old(nodesVisited)
      ensures currentRoute == old(currentRoute) && routes == old(routes)
    {
      if nextNodeLabel == start {
        return false;
      }
      if IsBigCave(nextNodeLabel) {
        return true;
      }
      var hasDoubleVisit := HasDoubleVisit(nodesVisited);
      if !hasDoubleVisit {
        return true;
      }
      var visits := GetVisits(nextNodeLabel);
      return visits == 0;
    }

    /** The recursive FindRoutes: records the stack when it reaches end,
        otherwise tries every neighbour of the current node. */
    method FindRoutesFrom(currentNode: GraphNode, g: Graph, start: string, end: string, ghost adj: map<string, set<string>>)
      requires Represents(g.nodes, adj) && SearchGraph(adj, g.nodes)
      requires SearchState(adj, g.nodes, nodesVisited, currentRoute, start, end) && AllRoutes(adj, routes, start, end)
      requires |currentRoute| > 0 && currentRoute[0] == currentNode
      requires Unique(routes) && Fresh(routes, Path(currentRoute))
      modifies this
      decreases Unused(adj.Keys, nodesVisited), Rank(currentNode.name), 3
      ensures SearchState(adj, g.nodes, nodesVisited, currentRoute, start, end) && AllRoutes(adj, routes, start, end)
      ensures currentRoute == old(currentRoute) && old(routes) <= routes
      ensures SameCounts(nodesVisited, old(nodesVisited))
      ensures Unique(routes) && Extend(routes, |old(routes)|, Path(currentRoute))
      ensures Covers(adj, routes, |old(routes)|, Path(currentRoute), start, end)
    {
      if currentNode.name == end {
        Record(start, end, adj, g.nodes);
      } else {
        ExploreAll(currentNode, g, start, end, adj);
      }
    }

    /** The end reached: the stack, reversed, joins the routes. */
    method Record(ghost start: string, ghost end: string, ghost adj: map<string, set<string>>, ghost nodes: map<string, GraphNode>)
      requires SearchState(adj, nodes, nodesVisited, currentRoute, start, end) && AllRoutes(adj, routes, start, end)
      requires |currentRoute| > 0 && currentRoute[0].name == end
      requires Unique(routes) && Fresh(routes, Path(currentRoute))
      modifies this
      ensures nodesVisited == old(nodesVisited) && currentRoute == old(currentRoute) && old(routes) <= routes
      ensures AllRoutes(adj, routes, start, end)
      ensures Unique(routes) && Extend(routes, |old(routes)|, Path(currentRoute))
      ensures Covers(adj, routes, |old(routes)|, Path(currentRoute), start, end)
    {
      PathTop(currentRoute);
      var route := Reverse(currentRoute);
      Arrived(adj, nodes, nodesVisited, currentRoute, start, end);
      LabelsReversed(currentRoute);
      ArrivedOnce(adj, routes, route, start, end);
      AddRoute(adj, routes, route, start, end);
      routes := routes + [route];
    }

    /** The loop of FindRoutes over the neighbours of the current node. */
    method ExploreAll(currentNode: GraphNode, g: Graph, start: string, end: string, ghost adj: map<string, set<string>>)
      requires Represents(g.nodes, adj) && SearchGraph(adj, g.nodes)
      requires SearchState(adj, g.nodes, nodesVisited, currentRoute, start, end) && AllRoutes(adj, routes, start, end)
      requires |currentRoute| > 0 && currentRoute[0] == currentNode && currentNode.name != end
      requires Unique(routes) && Fresh(routes, Path(currentRoute))
      modifies this
      decreases Unused(adj.Keys, nodesVisited), Rank(currentNode.name), 2
      ensures SearchState(adj, g.nodes, nodesVisited, currentRoute, start, end) && AllRoutes(adj, routes, start, end)
      ensures currentRoute == old(currentRoute) && old(routes) <= routes
      ensures SameCounts(nodesVisited, old(nodesVisited))
      ensures Unique(routes) && Extend(routes, |old(routes)|, Path(currentRoute))
      ensures Covers(adj, routes, |old(routes)|, Path(currentRoute), start, end)
    {
      ghost var p := Path(currentRoute);
      var edges := currentNode.edges;
      var todo := edges;
      ghost var done: set<string> := {};
      ThroughNone(adj, routes, p, start, end);
      while todo != {}
        invariant todo <= edges
        invariant SearchState(adj, g.nodes, nodesVisited, currentRoute, start, end) && AllRoutes(adj, routes, start, end)
        invariant currentRoute == old(currentRoute) && old(routes) <= routes
        invariant SameCounts(nodesVisited, old(nodesVisited))
        invariant done !! todo && edges <= done + todo
        invariant Unique(routes) && Through(adj, routes, |old(routes)|, p, done, start, end)
        decreases todo
      {
        var connectedNodeLabel :| connectedNodeLabel in todo;
        todo := todo - {connectedNodeLabel};
        SameUnused(adj.Keys, nodesVisited, old(nodesVisited));
        FreshNext(old(routes), routes, p, done, connectedNodeLabel, adj, start, end);
        ghost var mid := routes;
        Explore(currentNode, connectedNodeLabel, g, start, end, adj);
        ThroughNext(adj, mid, routes, |old(routes)|, p, done, connectedNodeLabel, start, end);
        done := done + {connectedNodeLabel};
      }
      PathTop(currentRoute);
      assert Labels(currentRoute)[0] == currentNode.name;
      ThroughAll(adj, routes, |old(routes)|, p, edges, done, start, end);
    }

    /** The loop body of FindRoutes: descend into one neighbour when
        ShouldExplore allows it, then pop it and take its visit back. */
    method Explore(currentNode: GraphNode, connectedNodeLabel: string, g: Graph, start: string, end: string, ghost adj: map<string, set<string>>)
      requires Represents(g.nodes, adj) && SearchGraph(adj, g.nodes)
      requires SearchState(adj, g.nodes, nodesVisited, currentRoute, start, end) && AllRoutes(adj, routes, start, end)
      requires |currentRoute| > 0 && currentRoute[0] == currentNode && currentNode.name != end
      requires connectedNodeLabel in currentNode.edges
      requires Unique(routes) && Fresh(routes, Path(currentRoute) + [connectedNodeLabel])
      modifies this
      decreases Unused(adj.Keys, nodesVisited), Rank(currentNode.name), 1
      ensures SearchState(adj, g.nodes, nodesVisited, currentRoute, start, end) && AllRoutes(adj, routes, start, end)
      ensures currentRoute == old(currentRoute) && old(routes) <= routes
      ensures SameCounts(nodesVisited, old(nodesVisited))
      ensures Unique(routes) && Extend(routes, |old(routes)|, Path(currentRoute) + [connectedNodeLabel])
      ensures Covers(adj, routes, |old(routes)|, Path(currentRoute) + [connectedNodeLabel], start, end)
    {
      assert Labels(currentRoute)[0] == currentNode.name;
      assert currentNode.name in g.nodes && g.nodes[currentNode.name] == currentNode;
      assert connectedNodeLabel in adj[currentNode.name];
      var nextNode := g.nodes[connectedNodeLabel];
      ghost var visits := nodesVisited;
      var explore := ShouldExplore(start, connectedNodeLabel);
      if explore {
        assert Small(nextNode.name) ==> !HasDoubleVisit(nodesVisited) || Lookup(nodesVisited, nextNode.name) == 0;
        Recount(adj, g.nodes, visits, nodesVisited, currentRoute, start, end);
        Descend(currentNode, nextNode, g, start, end, adj);
      } else {
        assert SameCounts(visits, nodesVisited);
        Recount(adj, g.nodes, visits, nodesVisited, currentRoute, start, end);
        PathTop(currentRoute);
        Rejected(adj, Path(currentRoute), visits, connectedNodeLabel, start, end);
      }
    }

    /** Into an accepted neighbour and back: AddVisit and Push, the search
        from there, then Pop and the visit taken back. */
    method Descend(currentNode: GraphNode, nextNode: GraphNode, g: Graph, start: string, end: string, ghost adj: map<string, set<string>>)
      requires Represents(g.nodes, adj) && SearchGraph(adj, g.nodes)
      requires SearchState(adj, g.nodes, nodesVisited, currentRoute, start, end) && AllRoutes(adj, routes, start, end)
      requires currentRoute[0] == currentNode && currentNode.name != end
      requires nextNode.name in g.nodes && g.nodes[nextNode.name] == nextNode
      requires nextNode.name in adj[currentNode.name] && nextNode.name != start
      requires Small(nextNode.name) ==> !HasDoubleVisit(nodesVisited) || Lookup(nodesVisited, nextNode.name) == 0
      requires Unique(routes) && Fresh(routes, Path(currentRoute) + [nextNode.name])
      modifies this
      decreases Unused(adj.Keys, nodesVisited), Rank(currentNode.name), 0
      ensures SearchState(adj, g.nodes, nodesVisited, currentRoute, start, end) && AllRoutes(adj, routes, start, end)
      ensures currentRoute == old(currentRoute) && old(routes) <= routes
      ensures SameCounts(nodesVisited, old(nodesVisited))
      ensures Unique(routes) && Extend(routes, |old(routes)|, Path(currentRoute) + [nextNode.name])
      ensures Covers(adj, routes, |old(routes)|, Path(currentRoute) + [nextNode.name], start, end)
    {
      ghost var stack := currentRoute;
      PathPush(nextNode, stack);
      ghost var counted := Enter(nextNode, g.nodes, start, end, adj);
      FindRoutesFrom(nextNode, g, start, end, adj);
      Leave(nextNode, g.nodes, start, end, adj, counted, stack);
    }

    /** AddVisit and Push on the way into a neighbour. */
    method Enter(nextNode: GraphNode, ghost nodes: map<string, GraphNode>, ghost start: string, ghost end: string,
                 ghost adj: map<string, set<string>>) returns (ghost counted: map<string, int>)
      requires SearchGraph(adj, nodes) && SearchState(adj, nodes, nodesVisited, currentRoute, start, end)
      requires currentRoute[0].name != end && nextNode.name in nodes && nodes[nextNode.name] == nextNode
      requires nextNode.name in adj[currentRoute[0].name] && nextNode.name != start
      requires Small(nextNode.name) ==> !HasDoubleVisit(nodesVisited) || Lookup(nodesVisited, nextNode.name) == 0
      modifies this
      ensures counted == old(nodesVisited) && Lookup(counted, nextNode.name) >= 0
      ensures nodesVisited == AddCount(counted, nextNode.name, 1)
      ensures currentRoute == [nextNode] + old(currentRoute) && routes == old(routes)
      ensures SearchState(adj, nodes, nodesVisited, currentRoute, start, end)
      ensures Small(nextNode.name) ==> Unused(adj.Keys, nodesVisited) < Unused(adj.Keys, counted)
      ensures !Small(nextNode.name) ==> Unused(adj.Keys, nodesVisited) == Unused(adj.Keys, counted) && Small(old(currentRoute)[0].name)
    {
      counted := nodesVisited;
      assert Labels(currentRoute)[0] == currentRoute[0].name;
      Push(adj, nodes, nodesVisited, currentRoute, nextNode, start, end);
      PushSlots(adj, nodes, nodesVisited, currentRoute[0].name, nextNode.name);
      AddVisit(nextNode.name);
      currentRoute := [nextNode] + currentRoute;
    }

    /** Pop and the decrement of the visit count on the way back. */
    method Leave(nextNode: GraphNode, ghost nodes: map<string, GraphNode>, ghost start: string, ghost end: string,
                 ghost adj: map<string, set<string>>, ghost counted: map<string, int>, ghost stack: seq<GraphNode>)
      requires SearchState(adj, nodes, counted, stack, start, end) && Lookup(counted, nextNode.name) >= 0
      requires SameCounts(nodesVisited, AddCount(counted, nextNode.name, 1)) && nodesVisited.Keys <= nodes.Keys
      requires currentRoute == [nextNode] + stack
      modifies this
      ensures currentRoute == stack && routes == old(routes)
      ensures SearchState(adj, nodes, nodesVisited, currentRoute, start, end)
      ensures SameCounts(nodesVisited, counted)
    {
      currentRoute := currentRoute[1..];
      assert currentRoute == stack;
      Uncount(nodesVisited, counted, nextNode.name);
      nodesVisited := nodesVisited[nextNode.name := nodesVisited[nextNode.name] - 1];
      Recount(adj, nodes, counted, nodesVisited, stack, start, end);
    }
  }

  /** FindRoutes: every route from start to end the rule allows, each read
      from start; a start label that is not in the graph throws. */
  method FindRoutes(g: Graph, start: string, end: string) returns (result: Result<seq<seq<GraphNode>>>)
    requires Searchable(g)
    ensures result.Err? <==> start !in g.nodes
    ensures result.Ok? ==> AllRoutes(g.Adjacency(), result.value, start, end)
    ensures result.Ok? ==> Unique(result.value)
    ensures result.Ok? ==> forall r :: ValidRoute(g.Adjacency(), r, start, end) ==>
      exists i :: 0 <= i < |result.value| && Labels(result.value[i]) == r
  {
    ghost var adj := g.Adjacency();
    assert Represents(g.nodes, adj);
    var search := new RouteSearch();
    search.AddVisit(start);
    if start !in g.nodes {
      return Err("The given key was not present in the dictionary.");
    }
    var startNode := g.nodes[start];
    search.currentRoute := [startNode];
    StartState(adj, g.nodes, startNode, start, end);
    assert search.nodesVisited == map[start := 1];
    PathStart(search.currentRoute, start);
    PathTop(search.currentRoute);
    assert Path(search.currentRoute) == [start];
    search.FindRoutesFrom(startNode, g, start, end, adj);
    CoversStart(adj, search.routes, start, end);
    assert g.Adjacency() == adj;
    return Ok(search.routes);
  }
}
