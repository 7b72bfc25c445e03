/** Extended polymerization on a doubly linked list: every insertion rule
    AB -> C is applied by splicing a new node between each A node and a
    following B node. A tracker indexes the nodes by the element they hold.
    The matches are all collected before any node is inserted, so a round
    only looks at the pairs of the list as it was when the round began. */
module Day14Bad {
  import opened Common
  import Day14

  type InsertionRule = Day14.InsertionRule

  /** A list node. Its value is set once, when it is created. */
  class Node<T> {
    const value: T
    var next: Node?<T>
    var last: Node?<T>

    constructor (value: T)
      ensures this.value == value && next == null && last == null
    {
      this.value := value;
      next := null;
      last := null;
    }
  }

  /** The successor that node i should have in a list of these nodes. */
  function NextOf<T>(nodes: seq<Node<T>>, i: int): Node?<T>
  {
    if 0 <= i && i + 1 < |nodes| then nodes[i + 1] else null
  }

  /** The predecessor that node i should have. */
  function LastOf<T>(nodes: seq<Node<T>>, i: int): Node?<T>
  {
    if 0 < i <= |nodes| then nodes[i - 1] else null
  }

  predicate Distinct<T>(nodes: seq<Node<T>>)
  {
    forall i, j :: 0 <= i < j < |nodes| ==> nodes[i] != nodes[j]
  }

  /** The values held by a sequence of nodes, in order. */
  function ValuesOf<T>(nodes: seq<Node<T>>): (r: seq<T>)
    ensures |r| == |nodes|
    ensures forall i :: 0 <= i < |nodes| ==> r[i] == nodes[i].value
  {
    if nodes == [] then [] else ValuesOf(nodes[..|nodes| - 1]) + [nodes[|nodes| - 1].value]
  }

  /** The values of a concatenation are the concatenated values. */
  lemma ValuesOfConcat<T>(a: seq<Node<T>>, b: seq<Node<T>>)
    ensures ValuesOf(a + b) == ValuesOf(a) + ValuesOf(b)
  {
    assert |ValuesOf(a + b)| == |ValuesOf(a) + ValuesOf(b)|;
    forall i | 0 <= i < |a + b| ensures ValuesOf(a + b)[i] == (ValuesOf(a) + ValuesOf(b))[i] {
      if i < |a| {
        assert (a + b)[i] == a[i];
      } else {
        assert (a + b)[i] == b[i - |a|];
      }
    }
  }

  /** The position of a node in a sequence holding it (the only one when
      the sequence is Distinct). */
  ghost function IndexIn<T>(nodes: seq<Node<T>>, n: Node<T>): (k: int)
    requires n in nodes
    ensures 0 <= k < |nodes| && nodes[k] == n
  {
    var k :| 0 <= k < |nodes| && nodes[k] == n; k
  }

  class DoublyLinkedList<T> {
    var head: Node?<T>
    var tail: Node?<T>
    /** The nodes from head to tail. */
    ghost var Nodes: seq<Node<T>>

    /** head and tail are the ends, and every node links to its neighbours
        in both directions. */
    ghost predicate Valid()
      reads this, Nodes
    {
      && (Nodes == [] ==> head == null && tail == null)
      && (Nodes != [] ==> head == Nodes[0] && tail == Nodes[|Nodes| - 1])
      && Distinct(Nodes)
      && (forall i {:trigger Nodes[i].next} :: 0 <= i < |Nodes| ==> Nodes[i].next == NextOf(Nodes, i))
      && (forall i {:trigger Nodes[i].last} :: 0 <= i < |Nodes| ==> Nodes[i].last == LastOf(Nodes, i))
    }

    ghost function Values(): seq<T>
      reads this
    {
      ValuesOf(Nodes)
    }

    constructor ()
      ensures Valid() && Nodes == []
    {
      head := null;
      tail := null;
      Nodes := [];
    }

    /** InsertTail: a new node after the tail. */
    method InsertTail(value: T)
      requires Valid()
      modifies this, Nodes
      ensures Valid()
      ensures |Nodes| == |old(Nodes)| + 1 && Nodes[..|old(Nodes)|] == old(Nodes)
      ensures fresh(Nodes[|Nodes| - 1])
      ensures Values() == old(Values()) + [value]
    {
      var node := new Node(value);
      if tail == null {
        head := node;
        tail := head;
        Nodes := [node];
      } else {
        ghost var nodes := Nodes;
        var prevTail := tail;
        tail := node;
        node.last := prevTail;
        prevTail.next := node;
        Nodes := nodes + [node];
        forall i | 0 <= i < |nodes| - 1 ensures nodes[i].next == NextOf(nodes, i) {
          assert nodes[i] != prevTail;
        }
        AppendValid(this, nodes, node);
      }
    }

    /** InsertHead: a new node before the head. */
    method InsertHead(value: T)
      requires Valid()
      modifies this, Nodes
      ensures Valid()
      ensures |Nodes| == |old(Nodes)| + 1 && Nodes[1..] == old(Nodes)
      ensures fresh(Nodes[0])
      ensures Values() == [value] + old(Values())
    {
      var node := new Node(value);
      if head == null {
        head := node;
        tail := head;
        Nodes := [node];
      } else {
        var prevHead := head;
        head := node;
        head.next := prevHead;
        prevHead.last := head;
        Nodes := [node] + Nodes;
      }
    }

    /** Copy: a new list of new nodes holding the same values. */
    method Copy() returns (newList: DoublyLinkedList<T>)
      requires Valid()
      ensures fresh(newList) && newList.Valid()
      ensures forall i :: 0 <= i < |newList.Nodes| ==> fresh(newList.Nodes[i])
      ensures newList.Values() == Values()
    {
      newList := new DoublyLinkedList<T>();
      var node := head;
      ghost var k := 0;
      while node != null
        invariant 0 <= k <= |Nodes|
        invariant Valid()
        invariant node == if k < |Nodes| then Nodes[k] else null
        invariant fresh(newList) && newList.Valid()
        invariant forall i :: 0 <= i < |newList.Nodes| ==> fresh(newList.Nodes[i])
        invariant newList.Values() == Values()[..k]
        decreases |Nodes| - k
      {
        assert Values()[..k + 1] == Values()[..k] + [node.value];
        newList.InsertTail(node.value);
        node := node.next;
        k := k + 1;
      }
      assert Values()[..k] == Values();
    }
  }

  /** Linking a new node m after the last of the nodes, and changing no
      other link, gives a valid list of the nodes followed by m. */
  lemma AppendValid<T>(list: DoublyLinkedList<T>, nodes: seq<Node<T>>, m: Node<T>)
    requires nodes != [] && Distinct(nodes) && m !in nodes
    requires list.Nodes == nodes + [m] && list.head == nodes[0] && list.tail == m
    requires forall i :: 0 <= i < |nodes| - 1 ==> nodes[i].next == NextOf(nodes, i)
    requires forall i :: 0 <= i < |nodes| ==> nodes[i].last == LastOf(nodes, i)
    requires nodes[|nodes| - 1].next == m && m.last == nodes[|nodes| - 1] && m.next == null
    ensures list.Valid()
    ensures list.Nodes[..|nodes|] == nodes
  {
    var all := nodes + [m];
    assert all[..|nodes|] == nodes;
    forall i | 0 <= i < |all| ensures all[i].next == NextOf(all, i) && all[i].last == LastOf(all, i) {
      if i < |nodes| { assert all[i] == nodes[i]; }
    }
  }

  /** GetListFromString: InsertTail for each character in turn. */
  method GetListFromString(s: string) returns (newList: DoublyLinkedList<char>)
    ensures fresh(newList) && newList.Valid()
    ensures forall i :: 0 <= i < |newList.Nodes| ==> fresh(newList.Nodes[i])
    ensures newList.Values() == s
  {
    newList := new DoublyLinkedList<char>();
    var i := 0;
    while i < |s|
      invariant 0 <= i <= |s|
      invariant fresh(newList) && newList.Valid()
      invariant forall j :: 0 <= j < |newList.Nodes| ==> fresh(newList.Nodes[j])
      invariant newList.Values() == s[..i]
    {
      assert s[..i + 1] == s[..i] + [s[i]];
      newList.InsertTail(s[i]);
      i := i + 1;
    }
    assert s[..i] == s;
  }

  /** The nodes of a list that hold c. */
  function NodesWithValue(nodes: seq<Node<char>>, c: char): set<Node<char>>
  {
    set n | n in nodes && n.value == c
  }

  /** The tracking map that adding the nodes one by one builds. */
  function IndexOf(nodes: seq<Node<char>>): map<char, set<Node<char>>>
  {
    if nodes == [] then map[]
    else
      var before := IndexOf(nodes[..|nodes| - 1]);
      var n := nodes[|nodes| - 1];
      before[n.value := (if n.value in before then before[n.value] else {}) + {n}]
  }

  /** That map has a key for every value present, holding exactly the nodes
      with that value. */
  lemma {:induction false} IndexOfTracks(nodes: seq<Node<char>>)
    ensures forall c :: c in IndexOf(nodes) ==> IndexOf(nodes)[c] == NodesWithValue(nodes, c)
    ensures forall i :: 0 <= i < |nodes| ==> nodes[i].value in IndexOf(nodes)
  {
    if nodes != [] {
      var init := nodes[..|nodes| - 1];
      var n := nodes[|nodes| - 1];
      IndexOfTracks(init);
      assert nodes == init + [n];
      forall c | c in IndexOf(nodes) ensures IndexOf(nodes)[c] == NodesWithValue(nodes, c) {
        if c != n.value {
          assert NodesWithValue(nodes, c) == NodesWithValue(init, c);
        } else if c in IndexOf(init) {
          assert NodesWithValue(nodes, c) == NodesWithValue(init, c) + {n};
        } else {
          assert NodesWithValue(init, c) == {} by {
            forall m | m in init ensures m.value != c {
              var i :| 0 <= i < |init| && init[i] == m;
            }
          }
          assert NodesWithValue(nodes, c) == {n};
        }
      }
      forall i | 0 <= i < |nodes| ensures nodes[i].value in IndexOf(nodes) {
        if i < |init| {
          assert init[i] == nodes[i];
        }
      }
    }
  }

  /** Tracker: from each element to the set of nodes holding it. */
  class Tracker {
    var TrackingMap: map<char, set<Node<char>>>

    /** The map indexes exactly the nodes of the list: a key for every
        element present, holding precisely the nodes with that element. */
    ghost predicate Tracks(list: DoublyLinkedList<char>)
      reads this, list
    {
      && (forall c :: c in TrackingMap ==> TrackingMap[c] == NodesWithValue(list.Nodes, c))
      && (forall i :: 0 <= i < |list.Nodes| ==> list.Nodes[i].value in TrackingMap)
    }

    /** Add: put node into the set of c, creating the set when needed. */
    method Add(c: char, node: Node<char>)
      modifies this
      ensures TrackingMap == old(TrackingMap)[c := (if c in old(TrackingMap) then old(TrackingMap)[c] else {}) + {node}]
    {
      if c !in TrackingMap {
        TrackingMap := TrackingMap[c := {}];
      }
      TrackingMap := TrackingMap[c := TrackingMap[c] + {node}];
    }

    /** The constructor walks the list from the head and adds every node. */
    constructor (initial: DoublyLinkedList<char>)
      requires initial.Valid()
      ensures Tracks(initial)
    {
      TrackingMap := map[];
      new;
      var node := initial.head;
      ghost var k := 0;
      while node != null
        invariant 0 <= k <= |initial.Nodes|
        invariant initial.Valid()
        invariant node == if k < |initial.Nodes| then initial.Nodes[k] else null
        invariant TrackingMap == IndexOf(initial.Nodes[..k])
        decreases |initial.Nodes| - k
      {
        assert initial.Nodes[..k + 1][..k] == initial.Nodes[..k];
        Add(node.value, node);
        k := k + 1;
        node := node.next;
      }
      assert initial.Nodes[..k] == initial.Nodes;
      IndexOfTracks(initial.Nodes);
    }
  }

  // ---------------------------------------------------------------------
  // One round of rules

  /** A rule found to apply at a node, kept until every match is known. */
  datatype DelayedRule = DelayedRule(rule: InsertionRule, node: Node<char>)

  /** The rule's pair is the value at k followed by the value at k + 1. */
  predicate MatchesAt(values: seq<char>, k: int, rule: InsertionRule)
  {
    0 <= k && k + 1 < |values| && values[k] == rule.from.0 && values[k + 1] == rule.from.1
  }

  /** Every delayed rule is one of the rules, at a node of the list where it
      matches. */
  ghost predicate AllMatch(delayedRules: seq<DelayedRule>, rules: seq<InsertionRule>, nodes: seq<Node<char>>)
  {
    forall j :: 0 <= j < |delayedRules| ==>
      && delayedRules[j].rule in rules
      && delayedRules[j].node in nodes
      && MatchesAt(ValuesOf(nodes), IndexIn(nodes, delayedRules[j].node), delayedRules[j].rule)
  }

  /** Every match of a rule at a node of the list is among the delayed
      rules. */
  ghost predicate AllFound(delayedRules: seq<DelayedRule>, rules: seq<InsertionRule>, nodes: seq<Node<char>>)
  {
    forall i, k ::
      0 <= i < |rules| && MatchesAt(ValuesOf(nodes), k, rules[i]) ==> DelayedRule(rules[i], nodes[k]) in delayedRules
  }

  /** No node appears in two delayed rules. */
  predicate DistinctNodes(delayedRules: seq<DelayedRule>)
  {
    forall j1, j2 :: 0 <= j1 < j2 < |delayedRules| ==> delayedRules[j1].node != delayedRules[j2].node
  }

  /** GetDelayedRulesToApply: for each rule whose first element is tracked,
      every tracked node with that element, visited in the set's own order,
      whose successor holds the second element. Each match found names a
      rule and a node of the list, every match is found, and when no two
      rules share a pair no node is named twice. */
  method GetDelayedRulesToApply(rules: seq<InsertionRule>, list: DoublyLinkedList<char>, tracker: Tracker)
    returns (delayedRules: seq<DelayedRule>)
    requires list.Valid() && tracker.Tracks(list)
    ensures AllMatch(delayedRules, rules, list.Nodes)
    ensures AllFound(delayedRules, rules, list.Nodes)
    ensures Day14.DistinctFroms(rules) ==> DistinctNodes(delayedRules)
  {
    delayedRules := [];
    ghost var nodes := list.Nodes;
    var i := 0;
    while i < |rules|
      invariant 0 <= i <= |rules|
      invariant AllMatch(delayedRules, rules[..i], nodes)
      invariant FoundFirst(delayedRules, rules, i, nodes)
      invariant Day14.DistinctFroms(rules) ==> DistinctNodes(delayedRules)
    {
      ghost var prior := delayedRules;
      delayedRules := CollectMatches(rules, i, list, tracker, delayedRules);
      FoundStep(prior, delayedRules, rules, i, nodes);
      i := i + 1;
    }
    assert rules[..i] == rules;
  }

  /** The matches of the first n rules are all among the delayed rules. */
  ghost predicate FoundFirst(ds: seq<DelayedRule>, rules: seq<InsertionRule>, n: int, nodes: seq<Node<char>>)
  {
    forall i, k ::
      0 <= i < n && i < |rules| && MatchesAt(ValuesOf(nodes), k, rules[i]) ==> DelayedRule(rules[i], nodes[k]) in ds
  }

  /** Collecting the matches of rule i, and keeping the earlier ones, covers
      one more rule. */
  lemma FoundStep(before: seq<DelayedRule>, after: seq<DelayedRule>, rules: seq<InsertionRule>, i: int,
                  nodes: seq<Node<char>>)
    requires 0 <= i < |rules| && FoundFirst(before, rules, i, nodes)
    requires forall d :: d in before ==> d in after
    requires forall k :: MatchesAt(ValuesOf(nodes), k, rules[i]) ==> DelayedRule(rules[i], nodes[k]) in after
    ensures FoundFirst(after, rules, i + 1, nodes)
  {
  }

  /** The inner loop of GetDelayedRulesToApply, for rules[i]. */
  method CollectMatches(rules: seq<InsertionRule>, i: int, list: DoublyLinkedList<char>, tracker: Tracker,
                        before: seq<DelayedRule>)
    returns (delayedRules: seq<DelayedRule>)
    requires 0 <= i < |rules|
    requires list.Valid() && tracker.Tracks(list)
    requires AllMatch(before, rules[..i], list.Nodes)
    requires Day14.DistinctFroms(rules) ==> DistinctNodes(before)
    ensures AllMatch(delayedRules, rules[..i + 1], list.Nodes)
    ensures forall d :: d in before ==> d in delayedRules
    ensures forall k :: MatchesAt(list.Values(), k, rules[i]) ==> DelayedRule(rules[i], list.Nodes[k]) in delayedRules
    ensures Day14.DistinctFroms(rules) ==> DistinctNodes(delayedRules)
  {
    var rule := rules[i];
    delayedRules := before;
    assert rules[..i + 1] == rules[..i] + [rule];
    if rule.from.0 !in tracker.TrackingMap {
      UntrackedNeverMatches(list, tracker, rule);
      return;
    }
    var startNodes := tracker.TrackingMap[rule.from.0];
    ghost var visited: set<Node<char>> := {};
    while startNodes != {}
      invariant startNodes + visited == NodesWithValue(list.Nodes, rule.from.0)
      invariant startNodes !! visited
      invariant Collected(rules, i, list, before, delayedRules, visited)
      decreases startNodes
    {
      ghost var some := SomeNode(startNodes);
      var node :| node in startNodes;
      MatchesAtNode(list, node, rule);
      var matched := node.value == rule.from.0 && node.next != null && node.next.value == rule.from.1;
      CollectVisit(rules, i, list, before, delayedRules, visited, node, matched);
      if matched {
        delayedRules := delayedRules + [DelayedRule(rule, node)];
      }
      startNodes := startNodes - {node};
      visited := visited + {node};
    }
    CollectedAll(rules, i, list, before, delayedRules, visited);
  }

  /** What the inner loop has established once the nodes in visited are
      done. */
  ghost predicate Collected(rules: seq<InsertionRule>, i: int, list: DoublyLinkedList<char>,
                            before: seq<DelayedRule>, ds: seq<DelayedRule>, visited: set<Node<char>>)
    requires 0 <= i < |rules|
    reads list
  {
    && AllMatch(ds, rules[..i + 1], list.Nodes)
    && |before| <= |ds| && ds[..|before|] == before
    && (forall j :: |before| <= j < |ds| ==> ds[j].rule == rules[i] && ds[j].node in visited)
    && (forall k ::
          MatchesAt(list.Values(), k, rules[i]) && list.Nodes[k] in visited ==> DelayedRule(rules[i], list.Nodes[k]) in ds)
    && (Day14.DistinctFroms(rules) ==> DistinctNodes(ds))
  }

  /** The test on a node is the match at its position. */
  lemma MatchesAtNode(list: DoublyLinkedList<char>, node: Node<char>, rule: InsertionRule)
    requires list.Valid() && node in list.Nodes
    ensures (node.value == rule.from.0 && node.next != null && node.next.value == rule.from.1)
      <==> MatchesAt(list.Values(), IndexIn(list.Nodes, node), rule)
  {
  }

  /** Visiting one more node keeps the inner loop's invariant. */
  lemma CollectVisit(rules: seq<InsertionRule>, i: int, list: DoublyLinkedList<char>,
                     before: seq<DelayedRule>, ds: seq<DelayedRule>, visited: set<Node<char>>,
                     node: Node<char>, matched: bool)
    requires 0 <= i < |rules| && list.Valid()
    requires AllMatch(before, rules[..i], list.Nodes)
    requires Collected(rules, i, list, before, ds, visited)
    requires node in list.Nodes && node !in visited
    requires matched <==> MatchesAt(list.Values(), IndexIn(list.Nodes, node), rules[i])
    ensures Collected(rules, i, list, before, if matched then ds + [DelayedRule(rules[i], node)] else ds, visited + {node})
  {
    if matched {
      CollectMatched(rules, i, list, before, ds, visited, node);
    } else {
      CollectUnmatched(rules, i, list, before, ds, visited, node);
    }
  }

  lemma CollectMatched(rules: seq<InsertionRule>, i: int, list: DoublyLinkedList<char>,
                       before: seq<DelayedRule>, ds: seq<DelayedRule>, visited: set<Node<char>>,
                       node: Node<char>)
    requires 0 <= i < |rules| && list.Valid()
    requires AllMatch(before, rules[..i], list.Nodes)
    requires Collected(rules, i, list, before, ds, visited)
    requires node in list.Nodes && node !in visited
    requires MatchesAt(list.Values(), IndexIn(list.Nodes, node), rules[i])
    ensures Collected(rules, i, list, before, ds + [DelayedRule(rules[i], node)], visited + {node})
  {
    var next := ds + [DelayedRule(rules[i], node)];
    if Day14.DistinctFroms(rules) {
      NewNodeIsDistinct(rules, i, list, before, ds, node);
    }
    AllMatchSnoc(ds, rules[..i + 1], list, DelayedRule(rules[i], node));
    assert next[..|before|] == before by {
      assert next[..|ds|] == ds;
    }
    forall k' | MatchesAt(list.Values(), k', rules[i]) && list.Nodes[k'] in visited + {node}
      ensures DelayedRule(rules[i], list.Nodes[k']) in next
    {
      if list.Nodes[k'] != node {
        assert DelayedRule(rules[i], list.Nodes[k']) in ds;
      }
    }
  }

  lemma CollectUnmatched(rules: seq<InsertionRule>, i: int, list: DoublyLinkedList<char>,
                         before: seq<DelayedRule>, ds: seq<DelayedRule>, visited: set<Node<char>>,
                         node: Node<char>)
    requires 0 <= i < |rules| && list.Valid()
    requires Collected(rules, i, list, before, ds, visited)
    requires node in list.Nodes && node !in visited
    requires !MatchesAt(list.Values(), IndexIn(list.Nodes, node), rules[i])
    ensures Collected(rules, i, list, before, ds, visited + {node})
  {
    forall k' | MatchesAt(list.Values(), k', rules[i]) && list.Nodes[k'] in visited + {node}
      ensures DelayedRule(rules[i], list.Nodes[k']) in ds
    {
      if list.Nodes[k'] == node {
        assert false;
      }
    }
  }

  /** Once every tracked node is visited, every match of rules[i] is found. */
  lemma CollectedAll(rules: seq<InsertionRule>, i: int, list: DoublyLinkedList<char>,
                     before: seq<DelayedRule>, ds: seq<DelayedRule>, visited: set<Node<char>>)
    requires 0 <= i < |rules| && list.Valid()
    requires Collected(rules, i, list, before, ds, visited)
    requires visited == NodesWithValue(list.Nodes, rules[i].from.0)
    ensures forall d :: d in before ==> d in ds
    ensures forall k :: MatchesAt(list.Values(), k, rules[i]) ==> DelayedRule(rules[i], list.Nodes[k]) in ds
  {
    forall d | d in before ensures d in ds {
      var j :| 0 <= j < |before| && before[j] == d;
      assert ds[j] == d;
    }
    forall k | MatchesAt(list.Values(), k, rules[i]) ensures DelayedRule(rules[i], list.Nodes[k]) in ds {
      assert list.Nodes[k] in visited;
    }
  }

  /** A rule whose first element is not tracked matches nowhere. */
  lemma UntrackedNeverMatches(list: DoublyLinkedList<char>, tracker: Tracker, rule: InsertionRule)
    requires list.Valid() && tracker.Tracks(list)
    requires rule.from.0 !in tracker.TrackingMap
    ensures forall k :: !MatchesAt(list.Values(), k, rule)
  {
  }

  lemma AllMatchSnoc(ds: seq<DelayedRule>, rules: seq<InsertionRule>, list: DoublyLinkedList<char>, d: DelayedRule)
    requires AllMatch(ds, rules, list.Nodes)
    requires d.rule in rules && d.node in list.Nodes
    requires MatchesAt(list.Values(), IndexIn(list.Nodes, d.node), d.rule)
    ensures AllMatch(ds + [d], rules, list.Nodes)
  {
  }

  /** With one rule per pair, a node matched by rules[i] was not matched by
      an earlier rule, nor already by rules[i] itself. */
  lemma NewNodeIsDistinct(rules: seq<InsertionRule>, i: int, list: DoublyLinkedList<char>,
                          before: seq<DelayedRule>, ds: seq<DelayedRule>, node: Node<char>)
    requires 0 <= i < |rules| && Day14.DistinctFroms(rules)
    requires AllMatch(before, rules[..i], list.Nodes)
    requires node in list.Nodes && MatchesAt(list.Values(), IndexIn(list.Nodes, node), rules[i])
    requires DistinctNodes(ds) && |before| <= |ds| && ds[..|before|] == before
    requires forall j :: |before| <= j < |ds| ==> ds[j].node != node
    ensures DistinctNodes(ds + [DelayedRule(rules[i], node)])
  {
    forall j | 0 <= j < |ds| ensures ds[j].node != node {
      if j < |before| {
        assert ds[j] == before[j];
        var r := before[j].rule;
        var i' :| 0 <= i' < i && rules[..i][i'] == r;
        assert rules[i'] == r;
        assert r.from != rules[i].from;
      }
    }
  }

  /** A set of nodes that is not empty has an element. */
  lemma SomeNode(s: set<Node<char>>) returns (n: Node<char>)
    requires s != {}
    ensures n in s
  {
    n :| n in s;
  }

  /** The nodes after a new node m is spliced in after position p. */
  function SpliceAfter<T>(nodes: seq<Node<T>>, p: int, m: Node<T>): seq<Node<T>>
    requires 0 <= p < |nodes|
  {
    nodes[..p + 1] + [m] + nodes[p + 1..]
  }

  /** Splicing keeps every node and adds exactly m. */
  lemma SpliceAfterMembers<T>(nodes: seq<Node<T>>, p: int, m: Node<T>)
    requires 0 <= p < |nodes|
    ensures forall n :: n in SpliceAfter(nodes, p, m) <==> n in nodes || n == m
  {
    assert nodes == nodes[..p + 1] + nodes[p + 1..];
  }

  /** Splicing in the middle keeps both ends, and a new node keeps the
      nodes distinct. */
  lemma SpliceAfterShape<T>(nodes: seq<Node<T>>, p: int, m: Node<T>)
    requires 0 <= p && p + 1 < |nodes|
    requires Distinct(nodes) && m !in nodes
    ensures SpliceAfter(nodes, p, m)[0] == nodes[0]
    ensures SpliceAfter(nodes, p, m)[|nodes|] == nodes[|nodes| - 1]
    ensures Distinct(SpliceAfter(nodes, p, m))
  {
    var spliced := SpliceAfter(nodes, p, m);
    forall i, j | 0 <= i < j < |spliced| ensures spliced[i] != spliced[j] {
      if j == p + 1 {
        assert spliced[i] == nodes[i];
      } else if i == p + 1 {
        assert spliced[j] == nodes[j - 1];
      } else {
        var i' := if i <= p then i else i - 1;
        var j' := if j <= p then j else j - 1;
        assert spliced[i] == nodes[i'] && spliced[j] == nodes[j'];
      }
    }
  }

  /** Splicing puts m's value after the value at p. */
  lemma SpliceAfterValues<T>(nodes: seq<Node<T>>, p: int, m: Node<T>)
    requires 0 <= p < |nodes|
    ensures ValuesOf(SpliceAfter(nodes, p, m)) == ValuesOf(nodes)[..p + 1] + [m.value] + ValuesOf(nodes)[p + 1..]
  {
    var spliced := SpliceAfter(nodes, p, m);
    var values := ValuesOf(nodes);
    var expected := values[..p + 1] + [m.value] + values[p + 1..];
    assert |ValuesOf(spliced)| == |expected|;
    forall i | 0 <= i < |spliced| ensures ValuesOf(spliced)[i] == expected[i] {
      if i <= p {
        assert spliced[i] == nodes[i];
      } else if i > p + 1 {
        assert spliced[i] == nodes[i - 1];
      }
    }
  }

  /** ApplyRule: a new node holding the rule's element, linked in right after
      the delayed node and before its successor, and added to the tracker.
      The list's ends stay where they are. */
  method ApplyRule(delayedRule: DelayedRule, tracker: Tracker, ghost list: DoublyLinkedList<char>)
    requires list.Valid() && tracker.Tracks(list)
    requires delayedRule.node in list.Nodes && delayedRule.node.next != null
    modifies list, delayedRule.node, delayedRule.node.next, tracker
    ensures list.Valid() && tracker.Tracks(list)
    ensures list.head == old(list.head) && list.tail == old(list.tail)
    ensures var p := IndexIn(old(list.Nodes), delayedRule.node);
      && p + 1 < |old(list.Nodes)| && |list.Nodes| == |old(list.Nodes)| + 1
      && list.Nodes == SpliceAfter(old(list.Nodes), p, list.Nodes[p + 1])
      && fresh(list.Nodes[p + 1]) && list.Nodes[p + 1].value == delayedRule.rule.to
  {
    var node := delayedRule.node;
    ghost var p := IndexIn(list.Nodes, node);
    ghost var nodes := list.Nodes;
    ghost var before := tracker.TrackingMap;
    var newNode := new Node(delayedRule.rule.to);
    var far := node.next;
    assert far == nodes[p + 1];
    Link(node, newNode, far);
    list.Nodes := SpliceAfter(nodes, p, newNode);
    forall i | 0 <= i < |nodes| && i != p ensures nodes[i].next == NextOf(nodes, i) {
      assert nodes[i] != node;
      assert nodes[i].next == old(nodes[i].next);
    }
    forall i | 0 <= i < |nodes| && i != p + 1 ensures nodes[i].last == LastOf(nodes, i) {
      assert nodes[i] != far;
      assert nodes[i].last == old(nodes[i].last);
    }
    tracker.Add(newNode.value, newNode);
    SpliceValid(list, nodes, p, newNode);
    TracksSplice(tracker, list, before, nodes, p, newNode);
  }

  /** Links m in between node and far, which are adjacent. */
  method Link(node: Node<char>, m: Node<char>, far: Node<char>)
    requires node != far && m != node && m != far
    modifies node, m, far
    ensures node.next == m && far.last == m && m.next == far && m.last == node
    ensures node.last == old(node.last) && far.next == old(far.next)
  {
    node.next := m;
    far.last := m;
    m.next := far;
    m.last := node;
  }

  /** Relinking nodes[p], nodes[p + 1] and a new node m between them, and
      nothing else, leaves the links of the spliced sequence consistent. */
  lemma SpliceLinks(nodes: seq<Node<char>>, p: int, m: Node<char>)
    requires 0 <= p && p + 1 < |nodes| && Distinct(nodes) && m !in nodes
    requires forall i :: 0 <= i < |nodes| && i != p ==> nodes[i].next == NextOf(nodes, i)
    requires forall i :: 0 <= i < |nodes| && i != p + 1 ==> nodes[i].last == LastOf(nodes, i)
    requires nodes[p].next == m && m.next == nodes[p + 1] && m.last == nodes[p] && nodes[p + 1].last == m
    ensures forall i :: 0 <= i < |SpliceAfter(nodes, p, m)| ==>
              && SpliceAfter(nodes, p, m)[i].next == NextOf(SpliceAfter(nodes, p, m), i)
              && SpliceAfter(nodes, p, m)[i].last == LastOf(SpliceAfter(nodes, p, m), i)
  {
    var spliced := SpliceAfter(nodes, p, m);
    forall i | 0 <= i < |spliced|
      ensures spliced[i].next == NextOf(spliced, i) && spliced[i].last == LastOf(spliced, i)
    {
      if i < p {
        assert spliced[i] == nodes[i] && spliced[i + 1] == nodes[i + 1];
        assert nodes[i] != nodes[p] && nodes[i] != nodes[p + 1];
        if i > 0 {
          assert spliced[i - 1] == nodes[i - 1];
        }
      } else if i > p + 2 {
        assert spliced[i] == nodes[i - 1] && spliced[i - 1] == nodes[i - 2];
        assert nodes[i - 1] != nodes[p] && nodes[i - 1] != nodes[p + 1];
        if i + 1 < |spliced| {
          assert spliced[i + 1] == nodes[i];
        }
      } else if i == p + 2 {
        assert spliced[i] == nodes[p + 1];
        if i + 1 < |spliced| {
          assert spliced[i + 1] == nodes[p + 2];
        }
      } else if i == p {
        assert spliced[i] == nodes[p];
        if p > 0 {
          assert spliced[p - 1] == nodes[p - 1];
        }
      }
    }
  }

  /** A list whose nodes are relinked as SpliceLinks describes is valid. */
  lemma SpliceValid(list: DoublyLinkedList<char>, nodes: seq<Node<char>>, p: int, m: Node<char>)
    requires 0 <= p && p + 1 < |nodes| && Distinct(nodes) && m !in nodes
    requires list.Nodes == SpliceAfter(nodes, p, m)
    requires list.head == nodes[0] && list.tail == nodes[|nodes| - 1]
    requires forall i :: 0 <= i < |nodes| && i != p ==> nodes[i].next == NextOf(nodes, i)
    requires forall i :: 0 <= i < |nodes| && i != p + 1 ==> nodes[i].last == LastOf(nodes, i)
    requires nodes[p].next == m && m.next == nodes[p + 1] && m.last == nodes[p] && nodes[p + 1].last == m
    ensures list.Valid()
  {
    SpliceLinks(nodes, p, m);
    SpliceAfterShape(nodes, p, m);
  }

  /** Tracking the new node keeps the tracker exact for the longer list. */
  lemma TracksSplice(tracker: Tracker, list: DoublyLinkedList<char>, before: map<char, set<Node<char>>>,
                      nodes: seq<Node<char>>, p: int, m: Node<char>)
    requires 0 <= p < |nodes|
    requires forall c :: c in before ==> before[c] == NodesWithValue(nodes, c)
    requires forall i :: 0 <= i < |nodes| ==> nodes[i].value in before
    requires tracker.TrackingMap == before[m.value := (if m.value in before then before[m.value] else {}) + {m}]
    requires list.Nodes == SpliceAfter(nodes, p, m)
    ensures tracker.Tracks(list)
  {
    var spliced := SpliceAfter(nodes, p, m);
    SpliceAfterMembers(nodes, p, m);
    forall c ensures NodesWithValue(spliced, c) == NodesWithValue(nodes, c) + (if m.value == c then {m} else {}) {
    }
    if m.value !in before {
      assert NodesWithValue(nodes, m.value) == {} by {
        forall n | n in nodes ensures n.value != m.value {
          var i :| 0 <= i < |nodes| && nodes[i] == n;
        }
      }
    }
    forall i | 0 <= i < |spliced| ensures spliced[i].value in before || spliced[i] == m {
      assert spliced[i] in nodes || spliced[i] == m;
      if spliced[i] in nodes {
        var j :| 0 <= j < |nodes| && nodes[j] == spliced[i];
      }
    }
  }

  // ---------------------------------------------------------------------
  // A whole round

  /** The element the first rule for pair p inserts, if any rule has it. */
  function RuleFor(rules: seq<InsertionRule>, p: Day14.Pair): (r: Option<char>)
    ensures r.Some? <==> p in Day14.Froms(rules)
  {
    if rules == [] then None
    else if rules[0].from == p then Some(rules[0].to)
    else
      var r := RuleFor(rules[1..], p);
      assert Day14.Froms(rules) == {rules[0].from} + Day14.Froms(rules[1..]) by {
        forall q | q in Day14.Froms(rules) ensures q in {rules[0].from} + Day14.Froms(rules[1..]) {
          var i :| 0 <= i < |rules| && rules[i].from == q;
          if i > 0 { assert rules[1..][i - 1] == rules[i]; }
        }
        forall q | q in Day14.Froms(rules[1..]) ensures q in Day14.Froms(rules) {
          var i :| 0 <= i < |rules[1..]| && rules[1..][i].from == q;
          assert rules[i + 1] == rules[1..][i];
        }
      }
      r
  }

  /** With one rule per pair, the rule found for a rule's own pair is that
      rule. */
  lemma {:induction false} RuleForDistinct(rules: seq<InsertionRule>, i: int)
    requires Day14.DistinctFroms(rules) && 0 <= i < |rules|
    ensures RuleFor(rules, rules[i].from) == Some(rules[i].to)
  {
    if i > 0 {
      assert rules[0].from != rules[i].from;
      assert Day14.DistinctFroms(rules[1..]);
      assert rules[1..][i - 1] == rules[i];
      RuleForDistinct(rules[1..], i - 1);
    }
  }

  /** One round on a sequence of elements, every match taken from the
      sequence as it was: after each element that has a successor comes the
      element the rule for that pair inserts, if any. */
  function Polymerize(values: seq<char>, rules: seq<InsertionRule>): seq<char>
  {
    if |values| < 2 then values
    else
      [values[0]]
        + (match RuleFor(rules, (values[0], values[1])) case Some(c) => [c] case None => [])
        + Polymerize(values[1..], rules)
  }

  /** A round keeps the original elements in order: dropping the inserted
      ones gives the input back, and the result grows by one element per
      pair that has a rule. */
  lemma {:induction false} PolymerizeLength(values: seq<char>, rules: seq<InsertionRule>)
    ensures |Polymerize(values, rules)| == |values| + MatchedPairs(values, rules)
    ensures |values| > 0 ==> Polymerize(values, rules)[0] == values[0]
    ensures |values| > 0 ==> Polymerize(values, rules)[|Polymerize(values, rules)| - 1] == values[|values| - 1]
  {
    if |values| >= 2 {
      PolymerizeLength(values[1..], rules);
    }
  }

  /** The number of adjacent pairs that some rule rewrites. */
  function MatchedPairs(values: seq<char>, rules: seq<InsertionRule>): nat
  {
    if |values| < 2 then 0
    else (if (values[0], values[1]) in Day14.Froms(rules) then 1 else 0) + MatchedPairs(values[1..], rules)
  }

  /** The nodes of a list, each followed by the node inserted after it, if
      any. */
  ghost function Spliced(nodes: seq<Node<char>>, ins: map<Node<char>, Node<char>>): seq<Node<char>>
  {
    if nodes == [] then []
    else [nodes[0]] + (if nodes[0] in ins then [ins[nodes[0]]] else []) + Spliced(nodes[1..], ins)
  }

  lemma {:induction false} SplicedNone(nodes: seq<Node<char>>)
    ensures Spliced(nodes, map[]) == nodes
  {
    if nodes != [] {
      SplicedNone(nodes[1..]);
    }
  }

  /** An insertion after a node that is not in the list changes nothing. */
  lemma {:induction false} SplicedIgnores(nodes: seq<Node<char>>, ins: map<Node<char>, Node<char>>, x: Node<char>, m: Node<char>)
    requires x !in nodes
    ensures Spliced(nodes, ins[x := m]) == Spliced(nodes, ins)
  {
    if nodes != [] {
      SplicedIgnores(nodes[1..], ins, x, m);
    }
  }

  /** One more insertion after x, which has none yet, splices the new node in
      right after x's position. */
  lemma {:induction false} SplicedInsert(nodes: seq<Node<char>>, ins: map<Node<char>, Node<char>>, x: Node<char>, m: Node<char>)
    returns (p: int)
    requires Distinct(nodes) && x in nodes && x !in ins
    ensures 0 <= p < |Spliced(nodes, ins)| && Spliced(nodes, ins)[p] == x
    ensures Spliced(nodes, ins[x := m]) == SpliceAfter(Spliced(nodes, ins), p, m)
  {
    var rest := nodes[1..];
    assert Distinct(rest);
    if nodes[0] == x {
      assert x !in rest;
      SplicedIgnores(rest, ins, x, m);
      p := 0;
    } else {
      assert x in rest;
      var p' := SplicedInsert(rest, ins, x, m);
      var head := [nodes[0]] + (if nodes[0] in ins then [ins[nodes[0]]] else []);
      var tail := Spliced(rest, ins);
      assert Spliced(nodes, ins) == head + tail;
      assert Spliced(nodes, ins[x := m]) == head + SpliceAfter(tail, p', m);
      p := |head| + p';
      SpliceAfterPrefix(head, tail, p', m);
    }
  }

  /** Splicing after a position of the tail is splicing after its shifted
      position in the whole. */
  lemma SpliceAfterPrefix<T>(head: seq<Node<T>>, tail: seq<Node<T>>, p: int, m: Node<T>)
    requires 0 <= p < |tail|
    ensures (head + tail)[|head| + p] == tail[p]
    ensures head + SpliceAfter(tail, p, m) == SpliceAfter(head + tail, |head| + p, m)
  {
    assert (head + tail)[..|head| + p + 1] == head + tail[..p + 1];
    assert (head + tail)[|head| + p + 1..] == tail[p + 1..];
  }

  /** What the inserted nodes hold determines the spliced values: when
      exactly the nodes followed by a pair with a rule carry an inserted node
      holding that rule's element, the spliced list holds Polymerize of the
      original. */
  lemma {:induction false} SplicedPolymerize(nodes: seq<Node<char>>, ins: map<Node<char>, Node<char>>, rules: seq<InsertionRule>)
    requires forall k :: 0 <= k < |nodes| && nodes[k] in ins ==> k + 1 < |nodes|
    requires forall k :: 0 <= k < |nodes| - 1 ==>
               if nodes[k] in ins then RuleFor(rules, (nodes[k].value, nodes[k + 1].value)) == Some(ins[nodes[k]].value)
               else RuleFor(rules, (nodes[k].value, nodes[k + 1].value)) == None
    ensures ValuesOf(Spliced(nodes, ins)) == Polymerize(ValuesOf(nodes), rules)
  {
    if |nodes| == 1 {
      assert nodes[0] !in ins;
      assert Spliced(nodes[1..], ins) == [];
      assert Spliced(nodes, ins) == nodes;
    } else if |nodes| >= 2 {
      var rest := nodes[1..];
      forall k | 0 <= k < |rest| && rest[k] in ins ensures k + 1 < |rest| {
        assert rest[k] == nodes[k + 1];
      }
      forall k | 0 <= k < |rest| - 1
        ensures if rest[k] in ins then RuleFor(rules, (rest[k].value, rest[k + 1].value)) == Some(ins[rest[k]].value)
                else RuleFor(rules, (rest[k].value, rest[k + 1].value)) == None
      {
        assert rest[k] == nodes[k + 1] && rest[k + 1] == nodes[k + 2];
      }
      SplicedPolymerize(rest, ins, rules);
      SplicedPolymerizeStep(nodes, ins, rules);
    }
  }

  lemma SplicedPolymerizeStep(nodes: seq<Node<char>>, ins: map<Node<char>, Node<char>>, rules: seq<InsertionRule>)
    requires |nodes| >= 2
    requires if nodes[0] in ins then RuleFor(rules, (nodes[0].value, nodes[1].value)) == Some(ins[nodes[0]].value)
             else RuleFor(rules, (nodes[0].value, nodes[1].value)) == None
    requires ValuesOf(Spliced(nodes[1..], ins)) == Polymerize(ValuesOf(nodes[1..]), rules)
    ensures ValuesOf(Spliced(nodes, ins)) == Polymerize(ValuesOf(nodes), rules)
  {
    var rest := nodes[1..];
    var values := ValuesOf(nodes);
    var head := [nodes[0]] + (if nodes[0] in ins then [ins[nodes[0]]] else []);
    SplicedHeadValues(nodes, ins, rules);
    ValuesOfDrop(nodes);
    assert Spliced(nodes, ins) == head + Spliced(rest, ins);
    ValuesOfConcat(head, Spliced(rest, ins));
  }

  /** The first node and what is inserted after it hold the first value and
      the element its pair's rule inserts. */
  lemma SplicedHeadValues(nodes: seq<Node<char>>, ins: map<Node<char>, Node<char>>, rules: seq<InsertionRule>)
    requires |nodes| >= 2
    requires if nodes[0] in ins then RuleFor(rules, (nodes[0].value, nodes[1].value)) == Some(ins[nodes[0]].value)
             else RuleFor(rules, (nodes[0].value, nodes[1].value)) == None
    ensures var values := ValuesOf(nodes);
      ValuesOf([nodes[0]] + (if nodes[0] in ins then [ins[nodes[0]]] else []))
        == [values[0]] + (match RuleFor(rules, (values[0], values[1])) case Some(c) => [c] case None => [])
  {
    if nodes[0] in ins {
      assert ValuesOf([nodes[0], ins[nodes[0]]]) == [nodes[0].value, ins[nodes[0]].value];
    } else {
      assert ValuesOf([nodes[0]]) == [nodes[0].value];
    }
  }

  lemma ValuesOfDrop<T>(nodes: seq<Node<T>>)
    requires nodes != []
    ensures ValuesOf(nodes[1..]) == ValuesOf(nodes)[1..]
  {
  }

  /** The nodes the delayed rules name. */
  function DelayedNodes(ds: seq<DelayedRule>): set<Node<char>>
  {
    set t | 0 <= t < |ds| :: ds[t].node
  }

  /** ProcessRules: all matches are collected from the list as it stands,
      then applied one after another. The list stays valid and tracked, its
      ends stay put, no node is lost and every other node is new; and when
      no two rules share a pair, the list afterwards holds Polymerize of
      what it held before. */
  method ProcessRules(rules: seq<InsertionRule>, list: DoublyLinkedList<char>, tracker: Tracker)
    requires list.Valid() && tracker.Tracks(list)
    modifies list, list.Nodes, tracker
    ensures list.Valid() && tracker.Tracks(list)
    ensures list.head == old(list.head) && list.tail == old(list.tail)
    ensures forall n :: n in old(list.Nodes) ==> n in list.Nodes
    ensures forall n :: n in list.Nodes ==> n in old(list.Nodes) || fresh(n)
    ensures Day14.DistinctFroms(rules) ==> list.Values() == Polymerize(old(list.Values()), rules)
  {
    var rulesToApply := GetDelayedRulesToApply(rules, list, tracker);
    ghost var original := list.Nodes;
    ghost var planned := Day14.DistinctFroms(rules) && RoundPlan(rules, rulesToApply, original);
    ghost var ins := ApplyDelayedRules(rulesToApply, tracker, list, rules, planned);
    if planned {
      RoundValues(rulesToApply, rules, original, ins);
    }
  }

  /** The loop of ProcessRules: every delayed rule applied in turn. Each
      adds one node; when the plan holds, the list is the original one with
      a node spliced in after each matched node. */
  method ApplyDelayedRules(rulesToApply: seq<DelayedRule>, tracker: Tracker, list: DoublyLinkedList<char>,
                           ghost rules: seq<InsertionRule>, ghost planned: bool)
    returns (ghost ins: map<Node<char>, Node<char>>)
    requires list.Valid() && tracker.Tracks(list)
    requires AllMatch(rulesToApply, rules, list.Nodes)
    requires planned ==> RoundPlan(rules, rulesToApply, list.Nodes)
    modifies list, list.Nodes, tracker
    ensures list.Valid() && tracker.Tracks(list)
    ensures list.head == old(list.head) && list.tail == old(list.tail)
    ensures forall n :: n in old(list.Nodes) ==> n in list.Nodes
    ensures forall n :: n in list.Nodes ==> n in old(list.Nodes) || fresh(n)
    ensures planned ==> list.Nodes == Spliced(old(list.Nodes), ins) && InsertedFor(ins, rulesToApply, |rulesToApply|)
  {
    ghost var original := list.Nodes;
    ghost var grown: set<Node<char>> := {};
    ins := map[];
    SplicedNone(original);
    DelayedNotTail(rulesToApply, rules, original);
    var j := 0;
    while j < |rulesToApply|
      invariant 0 <= j <= |rulesToApply|
      invariant list.Valid() && tracker.Tracks(list)
      invariant list.head == old(list.head) && list.tail == old(list.tail)
      invariant Grown(original, grown, list.Nodes) && fresh(grown)
      invariant planned ==> list.Nodes == Spliced(original, ins) && InsertedFor(ins, rulesToApply, j)
    {
      var delayedRule := rulesToApply[j];
      ghost var prev := list.Nodes;
      HasNext(list, delayedRule.node);
      ApplyRule(delayedRule, tracker, list);
      ghost var p := IndexIn(prev, delayedRule.node);
      ghost var m := list.Nodes[p + 1];
      GrownSplice(original, grown, prev, p, m);
      if planned {
        ProcessStep(rules, rulesToApply, j, original, ins, prev, p, m, list.Nodes);
      }
      ins := ins[delayedRule.node := m];
      grown := grown + {m};
      j := j + 1;
    }
  }

  /** The nodes keep every original node, and any other node is one of the
      grown ones. */
  ghost predicate Grown<T>(original: seq<Node<T>>, grown: set<Node<T>>, nodes: seq<Node<T>>)
  {
    && (forall n :: n in original ==> n in nodes)
    && (forall n :: n in nodes ==> n in original || n in grown)
  }

  lemma GrownSplice<T>(original: seq<Node<T>>, grown: set<Node<T>>, nodes: seq<Node<T>>, p: int, m: Node<T>)
    requires Grown(original, grown, nodes) && 0 <= p < |nodes|
    ensures Grown(original, grown + {m}, SpliceAfter(nodes, p, m))
  {
    SpliceAfterMembers(nodes, p, m);
  }

  /** At the end of a round with one rule per pair, the spliced list holds
      Polymerize of the original values. */
  lemma RoundValues(ds: seq<DelayedRule>, rules: seq<InsertionRule>, nodes: seq<Node<char>>,
                    ins: map<Node<char>, Node<char>>)
    requires RoundPlan(rules, ds, nodes)
    requires InsertedFor(ins, ds, |ds|)
    ensures ValuesOf(Spliced(nodes, ins)) == Polymerize(ValuesOf(nodes), rules)
  {
    DelayedInsertions(ds, rules, nodes, ins);
    SplicedPolymerize(nodes, ins, rules);
  }

  /** What a round with one rule per pair starts from: distinct nodes, and
      the delayed rules are exactly the matches, at distinct nodes. */
  ghost predicate RoundPlan(rules: seq<InsertionRule>, ds: seq<DelayedRule>, nodes: seq<Node<char>>)
  {
    && Day14.DistinctFroms(rules) && Distinct(nodes)
    && AllMatch(ds, rules, nodes) && AllFound(ds, rules, nodes) && DistinctNodes(ds)
  }

  /** The insertions made for the first j delayed rules, one per rule. */
  ghost predicate InsertedFor(ins: map<Node<char>, Node<char>>, ds: seq<DelayedRule>, j: int)
  {
    && 0 <= j <= |ds|
    && ins.Keys == DelayedNodes(ds[..j])
    && forall t :: 0 <= t < j ==> ds[t].node in ins && ins[ds[t].node].value == ds[t].rule.to
  }

  /** A matched node is never the last one. */
  lemma DelayedNotTail(ds: seq<DelayedRule>, rules: seq<InsertionRule>, nodes: seq<Node<char>>)
    requires AllMatch(ds, rules, nodes) && Distinct(nodes)
    ensures forall t :: 0 <= t < |ds| ==> ds[t].node != nodes[|nodes| - 1]
  {
  }

  /** In a valid list every node but the tail has a successor. */
  lemma HasNext(list: DoublyLinkedList<char>, node: Node<char>)
    requires list.Valid() && node in list.Nodes && node != list.tail
    ensures node.next != null && node.next in list.Nodes
  {
    var k := IndexIn(list.Nodes, node);
    assert list.Nodes[k].next == NextOf(list.Nodes, k);
  }

  /** The insertions made for a complete, sound set of matches with one
      rule per pair are exactly what SplicedPolymerize asks for. */
  lemma DelayedInsertions(ds: seq<DelayedRule>, rules: seq<InsertionRule>, nodes: seq<Node<char>>,
                          ins: map<Node<char>, Node<char>>)
    requires Distinct(nodes) && Day14.DistinctFroms(rules)
    requires AllMatch(ds, rules, nodes) && AllFound(ds, rules, nodes)
    requires InsertedFor(ins, ds, |ds|)
    ensures forall k :: 0 <= k < |nodes| && nodes[k] in ins ==> k + 1 < |nodes|
    ensures forall k :: 0 <= k < |nodes| - 1 ==>
              if nodes[k] in ins then RuleFor(rules, (nodes[k].value, nodes[k + 1].value)) == Some(ins[nodes[k]].value)
              else RuleFor(rules, (nodes[k].value, nodes[k + 1].value)) == None
  {
    assert ds[..|ds|] == ds;
    forall k | 0 <= k < |nodes| && nodes[k] in ins
      ensures k + 1 < |nodes| && RuleFor(rules, (nodes[k].value, nodes[k + 1].value)) == Some(ins[nodes[k]].value)
    {
      InsertedMatch(ds, rules, nodes, ins, k);
    }
    forall k | 0 <= k < |nodes| - 1 && nodes[k] !in ins
      ensures RuleFor(rules, (nodes[k].value, nodes[k + 1].value)) == None
    {
      UninsertedUnmatched(ds, rules, nodes, ins, k);
    }
  }

  /** A node with an insertion was matched by a rule, the only rule for its
      pair. */
  lemma InsertedMatch(ds: seq<DelayedRule>, rules: seq<InsertionRule>, nodes: seq<Node<char>>,
                      ins: map<Node<char>, Node<char>>, k: int)
    requires Distinct(nodes) && Day14.DistinctFroms(rules) && AllMatch(ds, rules, nodes)
    requires ins.Keys == DelayedNodes(ds)
    requires forall t :: 0 <= t < |ds| ==> ds[t].node in ins && ins[ds[t].node].value == ds[t].rule.to
    requires 0 <= k < |nodes| && nodes[k] in ins
    ensures k + 1 < |nodes| && RuleFor(rules, (nodes[k].value, nodes[k + 1].value)) == Some(ins[nodes[k]].value)
  {
    var t :| 0 <= t < |ds| && ds[t].node == nodes[k];
    assert IndexIn(nodes, nodes[k]) == k;
    var i :| 0 <= i < |rules| && rules[i] == ds[t].rule;
    RuleForDistinct(rules, i);
  }

  /** A node without an insertion is followed by a pair no rule rewrites:
      every match was delayed. */
  lemma UninsertedUnmatched(ds: seq<DelayedRule>, rules: seq<InsertionRule>, nodes: seq<Node<char>>,
                            ins: map<Node<char>, Node<char>>, k: int)
    requires AllFound(ds, rules, nodes) && ins.Keys == DelayedNodes(ds)
    requires 0 <= k < |nodes| - 1 && nodes[k] !in ins
    ensures RuleFor(rules, (nodes[k].value, nodes[k + 1].value)) == None
  {
    var pair := (nodes[k].value, nodes[k + 1].value);
    if pair in Day14.Froms(rules) {
      var i :| 0 <= i < |rules| && rules[i].from == pair;
      assert MatchesAt(ValuesOf(nodes), k, rules[i]);
      assert false;
    }
  }

  /** Applying the j-th delayed rule extends the splice by one insertion. */
  lemma ProcessStep(rules: seq<InsertionRule>, ds: seq<DelayedRule>, j: int, original: seq<Node<char>>,
                    ins: map<Node<char>, Node<char>>, prev: seq<Node<char>>, p: int, m: Node<char>,
                    now: seq<Node<char>>)
    requires Day14.DistinctFroms(rules) && DistinctNodes(ds) && Distinct(original)
    requires AllMatch(ds, rules, original) && 0 <= j < |ds|
    requires prev == Spliced(original, ins) && Distinct(prev)
    requires InsertedFor(ins, ds, j)
    requires 0 <= p < |prev| && prev[p] == ds[j].node && m.value == ds[j].rule.to
    requires now == SpliceAfter(prev, p, m)
    ensures now == Spliced(original, ins[ds[j].node := m])
    ensures InsertedFor(ins[ds[j].node := m], ds, j + 1)
  {
    var node := ds[j].node;
    assert node !in ins;
    var p' := SplicedInsert(original, ins, node, m);
    assert p' == p;
    DelayedNodesSnoc(ds, j);
  }

  lemma DelayedNodesSnoc(ds: seq<DelayedRule>, j: int)
    requires 0 <= j < |ds|
    ensures DelayedNodes(ds[..j + 1]) == DelayedNodes(ds[..j]) + {ds[j].node}
  {
    forall n | n in DelayedNodes(ds[..j + 1]) ensures n in DelayedNodes(ds[..j]) + {ds[j].node} {
      var t :| 0 <= t < j + 1 && ds[..j + 1][t].node == n;
      if t < j {
        assert ds[..j][t] == ds[t];
      }
    }
    forall n | n in DelayedNodes(ds[..j]) + {ds[j].node} ensures n in DelayedNodes(ds[..j + 1]) {
      if n == ds[j].node {
        assert ds[..j + 1][j] == ds[j];
      } else {
        var t :| 0 <= t < j && ds[..j][t].node == n;
        assert ds[..j + 1][t] == ds[t];
      }
    }
  }
}
