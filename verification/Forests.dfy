/** Graphs of keys, their cycles, and the forest a depth-first search takes through one. */
module Forests {
  type Key = string

  /** Node to the keys its row names, in ascending order. */
  type Graph = map<Key, seq<Key>>

  function Neighbours(graph: Graph, k: Key): seq<Key> {
    if k in graph then graph[k] else []
  }

  ghost predicate Edge(graph: Graph, a: Key, b: Key) {
    b in Neighbours(graph, a)
  }

  ghost function Universe(graph: Graph): set<Key> {
    graph.Keys + set k, n | k in graph && n in graph[k] :: n
  }

  // ----- what a cycle is ---------------------------------------------------------------

  ghost predicate Walk(graph: Graph, w: seq<Key>) {
    forall i | 0 <= i < |w| - 1 :: Edge(graph, w[i], w[i + 1])
  }

  /** A walk along at least one edge, back to where it began. */
  ghost predicate ClosedWalk(graph: Graph, w: seq<Key>) {
    |w| >= 2 && w[0] == w[|w| - 1] && Walk(graph, w)
  }

  ghost predicate Acyclic(graph: Graph) {
    forall w :: !ClosedWalk(graph, w)
  }

  ghost predicate Distinct<T>(xs: seq<T>) {
    forall i, j | 0 <= i < j < |xs| :: xs[i] != xs[j]
  }

  /** A closed walk that meets no node twice on the way. */
  ghost predicate Elementary(graph: Graph, w: seq<Key>) {
    ClosedWalk(graph, w) && Distinct(w[..|w| - 1])
  }

  function Nodes(w: seq<Key>): set<Key> {
    set k | k in w
  }

  // ----- forests -------------------------------------------------------------------------

  /** A forest: the node each node was entered from. */
  type Forest = map<Key, Key>

  ghost predicate Child(forest: Forest, parent: Key, k: Key) {
    k in forest && forest[k] == parent
  }

  /** A walk that goes down the forest but for its last edge. */
  ghost predicate DownForest(forest: Forest, w: seq<Key>) {
    forall i | 1 <= i < |w| - 1 :: Child(forest, w[i - 1], w[i])
  }

  ghost predicate ForestPath(forest: Forest, t: seq<Key>) {
    forall i | 1 <= i < |t| :: Child(forest, t[i - 1], t[i])
  }

  /** A node itself, or one it was entered below. */
  ghost predicate Above(forest: Forest, upper: Key, lower: Key) {
    exists t :: |t| >= 1 && t[0] == upper && t[|t| - 1] == lower && ForestPath(forest, t)
  }

  // ----- the forest of a search --------------------------------------------------------------

  /** The nodes entered, in order, and where each that is not a start was entered from. */
  datatype Entered = Entered(order: seq<Key>, forest: Forest)

  /** Follow a node's edges from one of them on, entering what has not been entered. */
  ghost function Visit(graph: Graph, e: Entered, node: Key, next: nat): (r: Entered)
    ensures e.order <= r.order
    decreases Universe(graph) - Nodes(e.order), |Neighbours(graph, node)| - next
  {
    if next >= |Neighbours(graph, node)| then e
    else
      var k := Neighbours(graph, node)[next];
      if k in e.order then Visit(graph, e, node, next + 1)
      else
        var inner := Entered(e.order + [k], e.forest[k := node]);
        assert k in Nodes(inner.order) && k !in Nodes(e.order) && k in graph[node];
        var below := Visit(graph, inner, k, 0);
        assert k in below.order;
        Visit(graph, below, node, next + 1)
  }

  /** Everything to be reached from one start that was not reached before. */
  ghost function Started(graph: Graph, e: Entered, start: Key): Entered {
    if start in e.order then e else Visit(graph, Entered(e.order + [start], e.forest), start, 0)
  }

  ghost function Swept(graph: Graph, starts: seq<Key>): Entered {
    if starts == [] then Entered([], map[])
    else Started(graph, Swept(graph, starts[..|starts| - 1]), starts[|starts| - 1])
  }

  /** Where a depth-first search of the starts in turn, each node's edges in their order, enters each node. */
  ghost function ForestOf(starts: seq<Key>, graph: Graph): Forest {
    Swept(graph, starts).forest
  }

  lemma NothingSwept(graph: Graph)
    ensures Swept(graph, []) == Entered([], map[])
  {
  }

  lemma SweptMore(graph: Graph, front: seq<Key>, start: Key)
    ensures Swept(graph, front + [start]) == Started(graph, Swept(graph, front), start)
  {
    hide Visit, Started;
    assert (front + [start])[..|front|] == front;
  }

  // ----- forests go down -----------------------------------------------------------------------

  function Position(trail: seq<Key>, k: Key): (at: nat)
    ensures k in trail ==> at < |trail| && trail[at] == k
  {
    if trail == [] || trail[0] == k then 0 else 1 + Position(trail[1..], k)
  }

  /** Every node is entered after the one it is entered from. */
  ghost predicate Falls(order: seq<Key>, forest: Forest) {
    forall k | k in forest ::
      k in order && forest[k] in order && Position(order, forest[k]) < Position(order, k)
  }

  lemma {:induction false} PositionStays(order: seq<Key>, last: Key, k: Key)
    ensures k in order ==> Position(order + [last], k) == Position(order, k)
    ensures k !in order ==> Position(order + [last], k) >= |order|
  {
    if order != [] && order[0] != k {
      assert (order + [last])[1..] == order[1..] + [last];
      PositionStays(order[1..], last, k);
    }
  }

  lemma FallsOneMore(e: Entered, k: Key, node: Key)
    requires Falls(e.order, e.forest) && k !in e.order && node in e.order
    ensures Falls(e.order + [k], e.forest) && Falls(e.order + [k], e.forest[k := node])
  {
    forall x | x in e.order + [k] ensures x in e.order ==> Position(e.order + [k], x) == Position(e.order, x) {
      PositionStays(e.order, k, x);
    }
    PositionStays(e.order, k, k);
  }

  lemma {:induction false} VisitFalls(graph: Graph, e: Entered, node: Key, next: nat)
    requires Falls(e.order, e.forest) && node in e.order
    ensures var r := Visit(graph, e, node, next); Falls(r.order, r.forest)
    decreases Universe(graph) - Nodes(e.order), |Neighbours(graph, node)| - next
  {
    hide Falls;
    if next < |Neighbours(graph, node)| {
      var k := Neighbours(graph, node)[next];
      if k in e.order {
        VisitFalls(graph, e, node, next + 1);
      } else {
        var inner := Entered(e.order + [k], e.forest[k := node]);
        assert k in Nodes(inner.order) && k !in Nodes(e.order) && k in graph[node];
        FallsOneMore(e, k, node);
        VisitFalls(graph, inner, k, 0);
        var below := Visit(graph, inner, k, 0);
        assert forall x | x in inner.order :: x in below.order;
        VisitFalls(graph, below, node, next + 1);
      }
    }
  }

  lemma {:induction false} SweptFalls(graph: Graph, starts: seq<Key>)
    ensures var e := Swept(graph, starts); Falls(e.order, e.forest)
  {
    hide Visit;
    if starts != [] {
      var e, start := Swept(graph, starts[..|starts| - 1]), starts[|starts| - 1];
      SweptFalls(graph, starts[..|starts| - 1]);
      if start !in e.order {
        StartFalls(e, start);
        VisitFalls(graph, Entered(e.order + [start], e.forest), start, 0);
      }
    }
  }

  lemma StartFalls(e: Entered, start: Key)
    requires Falls(e.order, e.forest) && start !in e.order
    ensures Falls(e.order + [start], e.forest)
  {
    forall x | x in e.order ensures Position(e.order + [start], x) == Position(e.order, x) {
      PositionStays(e.order, start, x);
    }
  }
}
