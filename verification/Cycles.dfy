/**
 The search that decides whether a table's graph is acyclic: a three-colour
 depth-first search with its own stack and trail.
 */
module Cycles {
  import opened Json
  import opened Forests

  // ----- what the search promises -----------------------------------------------------------

  /**
   The cycles reported run down the search's forest, each closed by one edge
   back up; no two have the same nodes, and the nodes of every such cycle are
   reported; and nothing is reported exactly when there is nothing to report.
   */
  ghost predicate SearchResult(starts: seq<Key>, graph: Graph, out: seq<seq<Key>>) {
    && (out == [] <==> Acyclic(graph))
    && (forall i | 0 <= i < |out| :: Elementary(graph, out[i]) && DownForest(ForestOf(starts, graph), out[i]))
    && (forall i, j | 0 <= i < j < |out| :: Nodes(out[i]) != Nodes(out[j]))
    && (forall w | Elementary(graph, w) && DownForest(ForestOf(starts, graph), w) :: Reported(out, Nodes(w)))
  }

  ghost predicate Reported(out: seq<seq<Key>>, nodes: set<Key>) {
    exists i | 0 <= i < |out| :: Nodes(out[i]) == nodes
  }

  // ----- the state of the search -----------------------------------------------------------------

  datatype Colour = Grey | Black

  datatype Frame = Frame(node: Key, neighbours: seq<Key>, next: nat)

  /** The trail is the path from the start to the node being expanded, and holds every grey node. */
  ghost predicate OnTrail(
    graph: Graph, colour: map<Key, Colour>, stack: seq<Frame>, trail: seq<Key>, forest: Forest)
  {
    && |stack| == |trail| && Distinct(trail)
    && (forall k :: k in trail <==> k in colour && colour[k] == Grey)
    && (forall i | 0 <= i < |stack| ::
          && stack[i].node == trail[i]
          && stack[i].neighbours == Neighbours(graph, trail[i])
          && stack[i].next <= |stack[i].neighbours|)
    && (forall i | 1 <= i < |trail| :: Linked(stack[i - 1], trail[i - 1], trail[i], forest))
    && forest.Keys <= colour.Keys
  }

  /** The last edge taken from a frame led to the next node of the trail, entered by that edge. */
  ghost predicate Linked(frame: Frame, node: Key, below: Key, forest: Forest) {
    && 0 < frame.next <= |frame.neighbours| && frame.neighbours[frame.next - 1] == below
    && Child(forest, node, below)
  }

  /** While no cycle has been found, every edge out of a finished node leads to one finished before it. */
  ghost predicate Descending(graph: Graph, colour: map<Key, Colour>, finish: map<Key, nat>, clock: nat) {
    && (forall k :: k in finish <==> k in colour && colour[k] == Black)
    && (forall k | k in finish :: finish[k] < clock)
    && (forall a, b | a in finish && Edge(graph, a, b) :: b in finish && finish[b] < finish[a])
  }

  /** And every edge already taken from a node on the trail leads to a finished node, or down the trail. */
  ghost predicate Expanded(stack: seq<Frame>, finish: map<Key, nat>) {
    forall i, j | 0 <= i < |stack| && 0 <= j < stack[i].next && j < |stack[i].neighbours| ::
      (i < |stack| - 1 && j == stack[i].next - 1) || stack[i].neighbours[j] in finish
  }

  ghost predicate Found(graph: Graph, out: seq<seq<Key>>, reported: set<set<Key>>, forest: Forest) {
    && (forall i | 0 <= i < |out| :: Elementary(graph, out[i]) && DownForest(forest, out[i]))
    && (forall i, j | 0 <= i < j < |out| :: Nodes(out[i]) != Nodes(out[j]))
    && (forall s :: s in reported <==> exists i | 0 <= i < |out| :: Nodes(out[i]) == s)
  }

  /** An edge the search has taken. */
  ghost predicate Taken(graph: Graph, colour: map<Key, Colour>, stack: seq<Frame>, a: Key, b: Key) {
    || (a in colour && colour[a] == Black && Edge(graph, a, b))
    || exists i, j | 0 <= i < |stack| && 0 <= j < stack[i].next && j < |stack[i].neighbours| ::
      stack[i].node == a && stack[i].neighbours[j] == b
  }

  /** The nodes of every cycle down the forest whose edge back up has been taken are reported. */
  ghost predicate Told(
    graph: Graph, colour: map<Key, Colour>, stack: seq<Frame>, reported: set<set<Key>>, forest: Forest)
  {
    forall w | Elementary(graph, w) && DownForest(forest, w) && TakenBack(graph, colour, stack, w) ::
      Nodes(w) in reported
  }

  /** The edge that ends a walk, back up to where it began, has been taken. */
  ghost predicate TakenBack(graph: Graph, colour: map<Key, Colour>, stack: seq<Frame>, w: seq<Key>) {
    |w| >= 2 && Taken(graph, colour, stack, w[|w| - 2], w[0])
  }

  /** The trail starts at a root, and parents have been entered. */
  ghost predicate Rooted(colour: map<Key, Colour>, trail: seq<Key>, forest: Forest) {
    && (trail != [] ==> trail[0] !in forest)
    && (forall k | k in forest :: forest[k] in colour)
  }

  function Remaining(stack: seq<Frame>): nat
  {
    if stack == [] then 0
    else
      var top := stack[|stack| - 1];
      Remaining(stack[..|stack| - 1]) + 1 + if top.next <= |top.neighbours| then |top.neighbours| - top.next else 0
  }

  // ----- why it decides --------------------------------------------------------------------------

  lemma {:induction false} FinishFalls(
    graph: Graph, colour: map<Key, Colour>, finish: map<Key, nat>, clock: nat, w: seq<Key>)
    requires Descending(graph, colour, finish, clock)
    requires |w| >= 2 && Walk(graph, w) && w[0] in finish
    ensures w[|w| - 1] in finish && finish[w[|w| - 1]] < finish[w[0]]
  {
    assert Edge(graph, w[0], w[1]);
    if |w| > 2 {
      var rest := w[1..];
      forall i | 0 <= i < |rest| - 1 ensures Edge(graph, rest[i], rest[i + 1]) {
        assert Edge(graph, w[i + 1], w[i + 1 + 1]);
      }
      FinishFalls(graph, colour, finish, clock, rest);
    }
  }

  lemma FinishedIsAcyclic(graph: Graph, colour: map<Key, Colour>, finish: map<Key, nat>, clock: nat)
    requires Descending(graph, colour, finish, clock)
    requires forall k | k in graph :: k in finish
    ensures Acyclic(graph)
  {
    forall w ensures !ClosedWalk(graph, w) {
      if ClosedWalk(graph, w) {
        assert Edge(graph, w[0], w[1]);
        FinishFalls(graph, colour, finish, clock, w);
      }
    }
  }

  /** A grey neighbour is on the trail, so the trail from it, closed by it, is a cycle. */
  lemma TrailCloses(
    graph: Graph, colour: map<Key, Colour>, stack: seq<Frame>, trail: seq<Key>, forest: Forest, from: nat)
    requires OnTrail(graph, colour, stack, trail, forest)
    requires from < |trail| && Edge(graph, trail[|trail| - 1], trail[from])
    ensures Elementary(graph, trail[from..] + [trail[from]])
    ensures DownForest(forest, trail[from..] + [trail[from]])
    ensures Nodes(trail[from..] + [trail[from]]) == Nodes(trail[from..])
  {
    var cycle := trail[from..] + [trail[from]];
    forall i | 0 <= i < |cycle| - 1 ensures Edge(graph, cycle[i], cycle[i + 1]) {
      if i < |cycle| - 2 {
        assert cycle[i + 1] == trail[from + i + 1];
        assert Linked(stack[from + i + 1 - 1], trail[from + i + 1 - 1], trail[from + i + 1], forest);
      }
    }
    forall i | 1 <= i < |cycle| - 1 ensures Child(forest, cycle[i - 1], cycle[i]) {
      assert Linked(stack[from + i - 1], trail[from + i - 1], trail[from + i], forest);
    }
    assert cycle[..|cycle| - 1] == trail[from..];
    assert cycle[0] == trail[from..][0];
  }

  lemma AddReport(graph: Graph, out: seq<seq<Key>>, reported: set<set<Key>>, forest: Forest, cycle: seq<Key>)
    requires Found(graph, out, reported, forest)
    requires Elementary(graph, cycle) && DownForest(forest, cycle) && Nodes(cycle) !in reported
    ensures Found(graph, out + [cycle], reported + {Nodes(cycle)}, forest)
  {
    var more := out + [cycle];
    assert more[|out|] == cycle;
    forall s ensures s in reported + {Nodes(cycle)} <==> exists i | 0 <= i < |more| :: Nodes(more[i]) == s {
      if s in reported {
        var i :| 0 <= i < |out| && Nodes(out[i]) == s;
        assert more[i] == out[i];
      }
    }
    forall i, j | 0 <= i < j < |more| ensures Nodes(more[i]) != Nodes(more[j]) {
      if j == |out| { assert Nodes(out[i]) in reported; }
    }
  }

  /** A node is entered once, so a later entry of another node leaves every reported cycle as it was. */
  lemma ForestGrows(
    graph: Graph, out: seq<seq<Key>>, reported: set<set<Key>>, forest: Forest, k: Key, parent: Key)
    requires Found(graph, out, reported, forest) && k !in forest
    ensures Found(graph, out, reported, forest[k := parent])
  {
    forall i | 0 <= i < |out| ensures DownForest(forest[k := parent], out[i]) {
      assert DownForest(forest, out[i]);
    }
  }

  lemma RetreatTrail(graph: Graph, colour: map<Key, Colour>, stack: seq<Frame>, trail: seq<Key>, forest: Forest)
    requires OnTrail(graph, colour, stack, trail, forest) && stack != []
    ensures OnTrail(graph, colour[stack[|stack| - 1].node := Black], stack[..|stack| - 1], trail[..|trail| - 1], forest)
  {
    var node := stack[|stack| - 1].node;
    var shorter := trail[..|trail| - 1];
    assert node == trail[|trail| - 1];
    assert trail == shorter + [node];
    assert forall k :: k in trail <==> k in shorter || k == node;
    assert forall i | 0 <= i < |shorter| :: shorter[i] == trail[i] != node;
  }

  /** A node is finished when every edge out of it has been taken. */
  lemma RetreatFinish(
    graph: Graph, colour: map<Key, Colour>, stack: seq<Frame>, trail: seq<Key>, forest: Forest,
    finish: map<Key, nat>, clock: nat)
    requires OnTrail(graph, colour, stack, trail, forest) && stack != []
    requires var top := stack[|stack| - 1]; top.next >= |top.neighbours|
    requires Descending(graph, colour, finish, clock) && Expanded(stack, finish)
    ensures var node :=
      stack[|stack| - 1].node; Descending(graph, colour[node := Black], finish[node := clock], clock + 1)
  {
    var top := stack[|stack| - 1];
    var node := top.node;
    assert top.neighbours == Neighbours(graph, node) && colour[node] == Grey by {
      TopOfStack(graph, colour, stack, trail, forest);
    }
    hide OnTrail;
    assert forall j | 0 <= j < |top.neighbours| :: top.neighbours[j] in finish;
    assert forall b | Edge(graph, node, b) :: b in finish;
  }

  /** The last edge taken from the node below the trail's end leads to its end. */
  lemma LedToTop(graph: Graph, colour: map<Key, Colour>, stack: seq<Frame>, trail: seq<Key>, forest: Forest)
    requires OnTrail(graph, colour, stack, trail, forest) && |stack| >= 2
    ensures var frame := stack[|stack| - 2];
      0 < frame.next <= |frame.neighbours| && frame.neighbours[frame.next - 1] == stack[|stack| - 1].node
  {
    hide Distinct;
    var at := |stack| - 1;
    assert Linked(stack[at - 1], trail[at - 1], trail[at], forest);
  }

  lemma RetreatExpanded(
    graph: Graph, colour: map<Key, Colour>, stack: seq<Frame>, trail: seq<Key>, forest: Forest,
    finish: map<Key, nat>, clock: nat)
    requires OnTrail(graph, colour, stack, trail, forest) && stack != [] && Expanded(stack, finish)
    ensures Expanded(stack[..|stack| - 1], finish[stack[|stack| - 1].node := clock])
  {
    hide OnTrail;
    var node := stack[|stack| - 1].node;
    var below := stack[..|stack| - 1];
    if below != [] { LedToTop(graph, colour, stack, trail, forest); }
    forall i, j | 0 <= i < |below| && 0 <= j < below[i].next && j < |below[i].neighbours|
      ensures (i < |below| - 1 && j == below[i].next - 1) || below[i].neighbours[j] in finish[node := clock]
    {
      assert below[i] == stack[i];
    }
  }

  lemma Advance(
    graph: Graph, colour: map<Key, Colour>, stack: seq<Frame>, trail: seq<Key>, forest: Forest,
    finish: map<Key, nat>, clock: nat)
    requires OnTrail(graph, colour, stack, trail, forest) && stack != []
    requires var top := stack[|stack| - 1]; top.next < |top.neighbours|
    ensures var top := stack[|stack| - 1];
      var neighbour := top.neighbours[top.next];
      var moved := stack[..|stack| - 1] + [top.(next := top.next + 1)];
      && (OnTrail(graph, colour, moved, trail, forest))
      && Edge(graph, trail[|trail| - 1], neighbour)
      && Remaining(moved) < Remaining(stack)
      && (Descending(graph, colour, finish, clock) && Expanded(stack, finish) && neighbour in finish ==>
            Expanded(moved, finish))
  {
    hide OnTrail, Descending, Expanded;
    AdvanceTrail(graph, colour, stack, trail, forest);
    if Descending(graph, colour, finish, clock) && Expanded(stack, finish) && Advanced(stack).1 in finish {
      AdvanceExpanded(stack, finish);
    }
  }

  /** The stack with one more edge of its top taken, and the node that edge leads to. */
  ghost function Advanced(stack: seq<Frame>): (seq<Frame>, Key)
    requires stack != [] && stack[|stack| - 1].next < |stack[|stack| - 1].neighbours|
  {
    var top := stack[|stack| - 1];
    (stack[..|stack| - 1] + [top.(next := top.next + 1)], top.neighbours[top.next])
  }

  lemma AdvanceTrail(graph: Graph, colour: map<Key, Colour>, stack: seq<Frame>, trail: seq<Key>, forest: Forest)
    requires OnTrail(graph, colour, stack, trail, forest) && stack != []
    requires stack[|stack| - 1].next < |stack[|stack| - 1].neighbours|
    ensures OnTrail(graph, colour, Advanced(stack).0, trail, forest)
    ensures Edge(graph, trail[|trail| - 1], Advanced(stack).1)
    ensures Remaining(Advanced(stack).0) < Remaining(stack)
  {
    hide Distinct, Linked;
    var top, moved := stack[|stack| - 1], Advanced(stack).0;
    assert moved[..|moved| - 1] == stack[..|stack| - 1];
    forall i | 1 <= i < |trail| ensures Linked(moved[i - 1], trail[i - 1], trail[i], forest) {
      assert moved[i - 1] == stack[i - 1];
    }
  }

  lemma AdvanceExpanded(stack: seq<Frame>, finish: map<Key, nat>)
    requires stack != [] && stack[|stack| - 1].next < |stack[|stack| - 1].neighbours|
    requires Expanded(stack, finish) && Advanced(stack).1 in finish
    ensures Expanded(Advanced(stack).0, finish)
  {
    var moved := Advanced(stack).0;
    forall i, j | 0 <= i < |moved| && 0 <= j < moved[i].next && j < |moved[i].neighbours|
      ensures (i < |moved| - 1 && j == moved[i].next - 1) || moved[i].neighbours[j] in finish
    {
      assert i < |moved| - 1 ==> moved[i] == stack[i];
    }
  }

  lemma EnterTrail(
    graph: Graph, colour: map<Key, Colour>, stack: seq<Frame>, trail: seq<Key>, forest: Forest, neighbour: Key)
    requires OnTrail(graph, colour, stack, trail, forest) && stack != []
    requires var top := stack[|stack| - 1];
      0 < top.next <= |top.neighbours| && top.neighbours[top.next - 1] == neighbour
    requires neighbour !in colour
    ensures OnTrail(graph, colour[neighbour := Grey], stack + [Frame(neighbour, Neighbours(graph, neighbour), 0)],
                    trail + [neighbour], forest[neighbour := stack[|stack| - 1].node])
  {
    var longer, deeper := trail + [neighbour], stack + [Frame(neighbour, Neighbours(graph, neighbour), 0)];
    var grown := forest[neighbour := stack[|stack| - 1].node];
    assert forall k :: k in longer <==> k in trail || k == neighbour;
    forall i | 1 <= i < |longer| ensures Linked(deeper[i - 1], longer[i - 1], longer[i], grown) {
      if i < |trail| { assert Linked(stack[i - 1], trail[i - 1], trail[i], forest); }
    }
  }

  lemma EnterFinish(
    graph: Graph, colour: map<Key, Colour>, before: seq<Frame>, stack: seq<Frame>, finish: map<Key, nat>, clock: nat,
    neighbour: Key)
    requires Descending(graph, colour, finish, clock) && Expanded(before, finish)
    requires before != []
    requires stack == before[..|before| - 1] + [before[|before| - 1].(next := before[|before| - 1].next + 1)]
    requires neighbour !in colour
    ensures Descending(graph, colour[neighbour := Grey], finish, clock)
    ensures Expanded(stack + [Frame(neighbour, Neighbours(graph, neighbour), 0)], finish)
  {
    var entered := stack + [Frame(neighbour, Neighbours(graph, neighbour), 0)];
    forall i, j | 0 <= i < |entered| && 0 <= j < entered[i].next && j < |entered[i].neighbours|
      ensures (i < |entered| - 1 && j == entered[i].next - 1) || entered[i].neighbours[j] in finish
    {
      assert i < |before| && entered[i].neighbours == before[i].neighbours;
      if i < |before| - 1 { assert entered[i] == before[i]; }
    }
  }

  // ----- why it reports every cycle down its forest -------------------------------------------------

  /** A way down the forest to the end of the trail is the end of the trail. */
  lemma {:induction false} EndsTheTrail(
    graph: Graph, colour: map<Key, Colour>, stack: seq<Frame>, trail: seq<Key>, forest: Forest, w: seq<Key>,
      n: nat)
    requires OnTrail(graph, colour, stack, trail, forest) && Rooted(colour, trail, forest) && trail != []
    requires |w| >= 2 && DownForest(forest, w) && w[|w| - 2] == trail[|trail| - 1] && n < |w| - 1
    ensures n < |trail| && w[|w| - 2 - n] == trail[|trail| - 1 - n]
  {
    if n > 0 {
      EndsTheTrail(graph, colour, stack, trail, forest, w, n - 1);
      var i, k := |w| - 2 - n, |trail| - n;
      assert Child(forest, w[i + 1 - 1], w[i + 1]);
      assert w[i + 1] == trail[k];
      assert k > 0;
      assert Linked(stack[k - 1], trail[k - 1], trail[k], forest);
    }
  }

  /** A cycle whose edge back up leaves the end of the trail is the trail from where that edge leads. */
  lemma {:induction false} ClosesTheTrail(
    graph: Graph, colour: map<Key, Colour>, stack: seq<Frame>, trail: seq<Key>, forest: Forest, w: seq<Key>)
    requires OnTrail(graph, colour, stack, trail, forest) && Rooted(colour, trail, forest) && trail != []
    requires Elementary(graph, w) && DownForest(forest, w) && w[|w| - 2] == trail[|trail| - 1]
    ensures w[0] in trail && Nodes(w) == Nodes(trail[Position(trail, w[0])..])
  {
    hide OnTrail, Rooted, DownForest, Elementary, Position;
    Unmet(graph, w);
    TrailIsDistinct(graph, colour, stack, trail, forest);
    var m := |w| - 1;
    EndsTheTrail(graph, colour, stack, trail, forest, w, m - 1);
    var from := |trail| - m;
    OnlyPosition(trail, from);
    forall i | 0 <= i < m ensures w[i] == trail[from..][i] {
      EndsTheTrail(graph, colour, stack, trail, forest, w, m - 1 - i);
    }
    assert w[..m] == trail[from..];
    WalkNodes(graph, w);
  }

  lemma WalkNodes(graph: Graph, w: seq<Key>)
    requires Elementary(graph, w)
    ensures |w| >= 2 && Nodes(w) == Nodes(w[..|w| - 1])
  {
    assert w == w[..|w| - 1] + [w[0]] && w[0] == w[..|w| - 1][0];
  }

  lemma TrailIsDistinct(
    graph: Graph, colour: map<Key, Colour>, stack: seq<Frame>, trail: seq<Key>, forest: Forest)
    requires OnTrail(graph, colour, stack, trail, forest)
    ensures Distinct(trail) && |stack| == |trail|
  {
  }

  lemma {:induction false} OnlyPosition(trail: seq<Key>, from: nat)
    requires Distinct(trail) && from < |trail|
    ensures Position(trail, trail[from]) == from
  {
    if from > 0 {
      assert trail[1..][from - 1] == trail[from];
      OnlyPosition(trail[1..], from - 1);
    }
  }

  /** Taking one more edge of the trail's end closes the cycle it closes, or none. */
  lemma {:induction false} TellsOneMore(
    graph: Graph, colour: map<Key, Colour>, stack: seq<Frame>, trail: seq<Key>, forest: Forest,
    reported: set<set<Key>>, more: set<set<Key>>)
    requires OnTrail(graph, colour, stack, trail, forest) && Rooted(colour, trail, forest) && stack != []
    requires stack[|stack| - 1].next < |stack[|stack| - 1].neighbours|
    requires Told(graph, colour, stack, reported, forest) && reported <= more
    requires var to := Advanced(stack).1; to in trail ==> Nodes(trail[Position(trail, to)..]) in more
    ensures Told(graph, colour, Advanced(stack).0, more, forest)
  {
    hide OnTrail, Rooted, Elementary, DownForest, Nodes;
    TopOfStack(graph, colour, stack, trail, forest);
    forall w | Elementary(graph, w) && DownForest(forest, w) && TakenBack(graph, colour, Advanced(stack).0, w)
      ensures Nodes(w) in more
    {
      if !Taken(graph, colour, stack, w[|w| - 2], w[0]) {
        TakenLast(graph, colour, stack, w[|w| - 2], w[0]);
        ClosesTheTrail(graph, colour, stack, trail, forest, w);
      }
    }
  }

  lemma Unmet(graph: Graph, w: seq<Key>)
    requires Elementary(graph, w)
    ensures |w| >= 2 && Distinct(w[..|w| - 1])
  {
  }

  lemma TakenLast(graph: Graph, colour: map<Key, Colour>, stack: seq<Frame>, a: Key, b: Key)
    requires stack != [] && stack[|stack| - 1].next < |stack[|stack| - 1].neighbours|
    requires Taken(graph, colour, Advanced(stack).0, a, b) && !Taken(graph, colour, stack, a, b)
    ensures a == stack[|stack| - 1].node && b == Advanced(stack).1
  {
    var moved, top := Advanced(stack).0, stack[|stack| - 1];
    assert forall i | 0 <= i < |stack| - 1 :: moved[i] == stack[i];
    var i, j :| 0 <= i < |moved| && 0 <= j < moved[i].next && j < |moved[i].neighbours|
      && moved[i].node == a && moved[i].neighbours[j] == b;
  }

  /** A node finished has had its every edge taken. */
  lemma {:induction false} TellsNoMore(
    graph: Graph, colour: map<Key, Colour>, stack: seq<Frame>, trail: seq<Key>, forest: Forest,
    reported: set<set<Key>>)
    requires OnTrail(graph, colour, stack, trail, forest) && stack != []
    requires stack[|stack| - 1].next >= |stack[|stack| - 1].neighbours|
    requires Told(graph, colour, stack, reported, forest)
    ensures Told(graph, colour[stack[|stack| - 1].node := Black], stack[..|stack| - 1], reported, forest)
  {
    hide OnTrail, Elementary, DownForest, Nodes;
    TopOfStack(graph, colour, stack, trail, forest);
    var top, below := stack[|stack| - 1], stack[..|stack| - 1];
    forall a, b | Taken(graph, colour[top.node := Black], below, a, b) ensures Taken(graph, colour, stack, a, b) {
      if i, j :|
        && 0 <= i < |below| && 0 <= j < below[i].next && j < |below[i].neighbours|
        && below[i].node == a && below[i].neighbours[j] == b
      {
        assert stack[i] == below[i];
      } else if a == top.node {
        var j :| 0 <= j < |top.neighbours| && top.neighbours[j] == b;
        assert stack[|stack| - 1].neighbours[j] == b;
      }
    }
  }

  /** A node just entered closes nothing: none of its edges is taken, and nothing is below it. */
  lemma {:induction false} TellsAsEntered(
    graph: Graph, colour: map<Key, Colour>, stack: seq<Frame>, reported: set<set<Key>>, forest: Forest,
    k: Key, parent: Key)
    requires Told(graph, colour, stack, reported, forest) && Rooted(colour, [], forest)
    requires k !in colour && forest.Keys <= colour.Keys && parent in colour
    requires forall i | 0 <= i < |stack| :: stack[i].node in colour
    ensures Told(graph, colour[k := Grey], stack + [Frame(k, Neighbours(graph, k), 0)], reported, forest[k := parent])
  {
    hide Elementary, Nodes;
    var grown, deeper := forest[k := parent], stack + [Frame(k, Neighbours(graph, k), 0)];
    forall w | Elementary(graph, w) && DownForest(grown, w) && TakenBack(graph, colour[k := Grey], deeper, w)
      ensures Nodes(w) in reported
    {
      Unmet(graph, w);
      TakenBefore(graph, colour, stack, k, w[|w| - 2], w[0]);
      NotOnTheWay(graph, colour, forest, k, parent, w, |w| - 2);
    }
  }

  lemma TakenBefore(graph: Graph, colour: map<Key, Colour>, stack: seq<Frame>, k: Key, a: Key, b: Key)
    requires Taken(graph, colour[k := Grey], stack + [Frame(k, Neighbours(graph, k), 0)], a, b)
    requires k !in colour && forall i | 0 <= i < |stack| :: stack[i].node in colour
    ensures Taken(graph, colour, stack, a, b) && a != k
  {
    var deeper := stack + [Frame(k, Neighbours(graph, k), 0)];
    if i, j :|
      && 0 <= i < |deeper| && 0 <= j < deeper[i].next && j < |deeper[i].neighbours|
      && deeper[i].node == a && deeper[i].neighbours[j] == b
    {
      assert deeper[i] == stack[i];
    }
  }

  /** Up the forest from a node that was entered before, every node was. */
  lemma {:induction false} NotOnTheWay(
    graph: Graph, colour: map<Key, Colour>, forest: Forest, k: Key, parent: Key, w: seq<Key>, n: nat)
    requires k !in colour && forest.Keys <= colour.Keys && Rooted(colour, [], forest)
    requires n < |w| && n < |w| - 1 && DownForest(forest[k := parent], w) && w[n] != k && |w| >= 2
    requires forall i | n < i < |w| - 1 :: w[i] != k
    ensures forall i | 1 <= i <= n :: w[i] != k && Child(forest, w[i - 1], w[i])
    decreases n
  {
    if n > 0 {
      assert Child(forest[k := parent], w[n - 1], w[n]);
      NotOnTheWay(graph, colour, forest, k, parent, w, n - 1);
    }
  }

  lemma ToldAtFirst(graph: Graph)
    ensures Told(graph, map[], [], {}, map[]) && Rooted(map[], [], map[])
  {
  }

  lemma ToldBegins(graph: Graph, colour: map<Key, Colour>, reported: set<set<Key>>, forest: Forest, start: Key)
    requires Told(graph, colour, [], reported, forest) && Rooted(colour, [], forest) && start !in colour
    requires start !in forest
    ensures Told(graph, colour[start := Grey], [Frame(start, Neighbours(graph, start), 0)], reported, forest)
    ensures Rooted(colour[start := Grey], [start], forest)
  {
    hide Elementary, DownForest, Nodes;
    forall w | TakenBack(graph, colour[start := Grey], [Frame(start, Neighbours(graph, start), 0)], w)
      ensures TakenBack(graph, colour, [], w)
    {
      assert [] + [Frame(start, Neighbours(graph, start), 0)] == [Frame(start, Neighbours(graph, start), 0)];
      TakenBefore(graph, colour, [], start, w[|w| - 2], w[0]);
    }
  }

  /** When everything is finished, every edge has been taken. */
  lemma ToldAtLast(
    graph: Graph, colour: map<Key, Colour>, out: seq<seq<Key>>, reported: set<set<Key>>, forest: Forest)
    requires Told(graph, colour, [], reported, forest) && Found(graph, out, reported, forest)
    requires forall k | k in graph :: k in colour && colour[k] == Black
    ensures forall w | Elementary(graph, w) && DownForest(forest, w) :: Reported(out, Nodes(w))
  {
    hide DownForest, Nodes;
    forall w | Elementary(graph, w) && DownForest(forest, w) ensures Reported(out, Nodes(w)) {
      var m := |w| - 2;
      assert Edge(graph, w[m], w[m + 1]);
      assert TakenBack(graph, colour, [], w);
    }
  }

  // ----- the forest it goes down -----------------------------------------------------------------

  /** What has been entered has a colour. */
  ghost predicate Colours(entered: Entered, colour: map<Key, Colour>) {
    forall k :: k in entered.order <==> k in colour
  }

  /** What will have been entered once every node on the stack is left. */
  ghost function Unwound(graph: Graph, entered: Entered, stack: seq<Frame>): Entered
    decreases |stack|
  {
    if stack == [] then entered
    else
      var top := stack[|stack| - 1];
      Unwound(graph, Visit(graph, entered, top.node, top.next), stack[..|stack| - 1])
  }

  lemma Starts(graph: Graph, colour: map<Key, Colour>, entered: Entered, start: Key)
    requires Colours(entered, colour) && start !in colour
    ensures var inner := Entered(entered.order + [start], entered.forest);
      && Colours(inner, colour[start := Grey])
      && Unwound(graph, inner, [Frame(start, Neighbours(graph, start), 0)]) == Started(graph, entered, start)
  {
    hide Visit;
    var stack := [Frame(start, Neighbours(graph, start), 0)];
    assert stack[..|stack| - 1] == [];
  }

  lemma NothingUnwinds(graph: Graph, entered: Entered)
    ensures Unwound(graph, entered, []) == entered
  {
  }

  lemma Leaves(graph: Graph, colour: map<Key, Colour>, entered: Entered, stack: seq<Frame>)
    requires stack != [] && Colours(entered, colour) && stack[|stack| - 1].node in colour
    requires var top := stack[|stack| - 1];
      top.neighbours == Neighbours(graph, top.node) && top.next >= |top.neighbours|
    ensures Unwound(graph, entered, stack[..|stack| - 1]) == Unwound(graph, entered, stack)
    ensures Colours(entered, colour[stack[|stack| - 1].node := Black])
  {
  }

  /** One more edge followed, and the node it leads to entered if it was not. */
  lemma Follows(graph: Graph, colour: map<Key, Colour>, entered: Entered, stack: seq<Frame>)
    requires stack != [] && Colours(entered, colour)
    requires var top := stack[|stack| - 1];
      top.neighbours == Neighbours(graph, top.node) && top.next < |top.neighbours|
    ensures var (moved, to) := Advanced(stack);
      if to in colour then Unwound(graph, entered, moved) == Unwound(graph, entered, stack)
      else
        var inner := Entered(entered.order + [to], entered.forest[to := stack[|stack| - 1].node]);
        && Unwound(graph, inner, moved + [Frame(to, Neighbours(graph, to), 0)]) == Unwound(graph, entered, stack)
        && Colours(inner, colour[to := Grey])
  {
    var (moved, to) := Advanced(stack);
    assert moved[..|moved| - 1] == stack[..|stack| - 1];
    if to !in colour {
      var deeper := moved + [Frame(to, Neighbours(graph, to), 0)];
      assert deeper[..|deeper| - 1] == moved;
    }
  }

  // ----- small facts the search leans on -------------------------------------------------------------

  lemma AtRest(graph: Graph, forest: Forest)
    requires forest == map[]
    ensures OnTrail(graph, map[], [], [], forest) && Descending(graph, map[], map[], 0) && Found(graph, [], {}, forest)
  {
  }

  lemma ReportedIsFound(
    graph: Graph, out: seq<seq<Key>>, reported: set<set<Key>>, forest: Forest, nodes: set<Key>)
    requires Found(graph, out, reported, forest) && nodes in reported
    ensures out != []
  {
  }

  lemma Begin(
    graph: Graph, colour: map<Key, Colour>, forest: Forest, finish: map<Key, nat>, clock: nat, start: Key)
    requires OnTrail(graph, colour, [], [], forest) && start !in colour
    ensures start !in forest
    ensures OnTrail(graph, colour[start := Grey], [Frame(start, Neighbours(graph, start), 0)], [start], forest)
    ensures Descending(graph, colour, finish, clock) ==>
      && Descending(graph, colour[start := Grey], finish, clock)
      && Expanded([Frame(start, Neighbours(graph, start), 0)], finish)
  {
    assert forall k :: k in [start] <==> k == start;
  }

  /** What the top of the stack is: the trail's end, grey, with its own neighbours. */
  lemma TopOfStack(graph: Graph, colour: map<Key, Colour>, stack: seq<Frame>, trail: seq<Key>, forest: Forest)
    requires OnTrail(graph, colour, stack, trail, forest) && stack != []
    ensures |stack| == |trail|
    ensures var top := stack[|stack| - 1];
      top.node == trail[|trail| - 1] && top.node in colour && colour[top.node] == Grey
        && top.neighbours == Neighbours(graph, top.node)
    ensures forest.Keys <= colour.Keys
    ensures forall k :: k in trail <==> k in colour && colour[k] == Grey
  {
    assert trail[|trail| - 1] in trail;
  }

  lemma PopShrinks(stack: seq<Frame>)
    requires stack != []
    ensures Remaining(stack[..|stack| - 1]) < Remaining(stack)
  {
  }

  lemma BlackIsFinished(graph: Graph, colour: map<Key, Colour>, finish: map<Key, nat>, clock: nat, k: Key)
    requires Descending(graph, colour, finish, clock) && k in colour && colour[k] != Grey
    ensures k in finish
  {
  }

  lemma AllFinished(graph: Graph, colour: map<Key, Colour>, forest: Forest, finish: map<Key, nat>, clock: nat)
    requires OnTrail(graph, colour, [], [], forest) && Descending(graph, colour, finish, clock)
    ensures forall k | k in colour :: k in finish
  {
    forall k | k in colour ensures k in finish {
      var none: seq<Key> := [];
      assert k !in none;
    }
  }

  lemma FoundIsResult(
    starts: seq<Key>, graph: Graph, out: seq<seq<Key>>, reported: set<set<Key>>, forest: Forest)
    requires Found(graph, out, reported, forest) && forest == ForestOf(starts, graph)
    requires out == [] ==> Acyclic(graph)
    requires forall w | Elementary(graph, w) && DownForest(forest, w) :: Reported(out, Nodes(w))
    ensures SearchResult(starts, graph, out)
  {
    if out != [] { assert ClosedWalk(graph, out[0]); }
  }

  // ----- the search ----------------------------------------------------------------------------------

  /** What holds between one start and the next: nothing grey, and everything coloured finished. */
  ghost predicate Settled(
    graph: Graph, colour: map<Key, Colour>, out: seq<seq<Key>>, reported: set<set<Key>>, entered: Entered,
    finish: map<Key, nat>, clock: nat)
  {
    && OnTrail(graph, colour, [], [], entered.forest)
    && Found(graph, out, reported, entered.forest)
    && (out == [] ==> Descending(graph, colour, finish, clock))
    && Told(graph, colour, [], reported, entered.forest) && Rooted(colour, [], entered.forest)
    && Colours(entered, colour)
    && colour.Keys <= Universe(graph)
  }

  method Search(starts: seq<Key>, graph: Graph) returns (out: seq<seq<Key>>)
    requires forall k :: k in starts <==> k in graph
    ensures out == [] <==> Acyclic(graph)
    ensures forall cycle | cycle in out :: Elementary(graph, cycle)
    ensures forall i, j | 0 <= i < j < |out| :: Nodes(out[i]) != Nodes(out[j])
    ensures SearchResult(starts, graph, out)
  {
    hide OnTrail, Found, Descending, Acyclic, Told, Rooted, Elementary, DownForest, Reported, Started, Visit;
    ToldAtFirst(graph);
    var colour: map<Key, Colour> := map[];
    var reported: set<set<Key>> := {};
    ghost var entered := Entered([], map[]);
    ghost var finish: map<Key, nat> := map[];
    ghost var clock := 0;
    out := [];
    AtRest(graph, entered.forest);
    for at := 0 to |starts|
      invariant Settled(graph, colour, out, reported, entered, finish, clock)
      invariant forall i | 0 <= i < at :: starts[i] in colour
      invariant entered == Swept(graph, starts[..at])
    {
      var start := starts[at];
      assert starts[..at + 1][..at] == starts[..at];
      StartedBefore(graph, colour, entered, start);
      if start in colour { continue; }
      colour, out, reported, entered, finish,
        clock := Explore(graph, start, colour, out, reported, entered, finish, clock);
    }
    assert starts[..|starts|] == starts;
    if out == [] {
      AllFinished(graph, colour, entered.forest, finish, clock);
      assert forall k | k in graph :: k in colour;
      FinishedIsAcyclic(graph, colour, finish, clock);
    }
    AllBlack(graph, colour, entered.forest);
    ToldAtLast(graph, colour, out, reported, entered.forest);
    FoundIsResult(starts, graph, out, reported, entered.forest);
  }

  lemma StartedBefore(graph: Graph, colour: map<Key, Colour>, entered: Entered, start: Key)
    requires Colours(entered, colour)
    ensures start in colour ==> Started(graph, entered, start) == entered
  {
  }

  lemma AllBlack(graph: Graph, colour: map<Key, Colour>, forest: Forest)
    requires OnTrail(graph, colour, [], [], forest)
    ensures forall k | k in colour :: colour[k] == Black
  {
    forall k | k in colour ensures colour[k] == Black {
      var none: seq<Key> := [];
      assert k !in none;
    }
  }

  /** Everything reachable from one start that was not reached before. */
  method Explore(
    graph: Graph, start: Key, colour0: map<Key, Colour>, out0: seq<seq<Key>>, reported0: set<set<Key>>,
    ghost entered0: Entered, ghost finish0: map<Key, nat>, ghost clock0: nat)
    returns (colour: map<Key, Colour>, out: seq<seq<Key>>, reported: set<set<Key>>,
             ghost entered: Entered, ghost finish: map<Key, nat>, ghost clock: nat)
    requires Settled(graph, colour0, out0, reported0, entered0, finish0, clock0)
    requires start in graph && start !in colour0
    ensures Settled(graph, colour, out, reported, entered, finish, clock)
    ensures colour0.Keys + {start} <= colour.Keys
    ensures entered == Started(graph, entered0, start)
  {
    hide OnTrail, Found, Descending, Expanded, Remaining, Nodes, Elementary, DownForest, Told, Rooted, Unwound, Visit,
      Colours;
    colour, out, reported, finish, clock := colour0, out0, reported0, finish0, clock0;
    ghost var order, forest := entered0.order, entered0.forest;
    var stack := [Frame(start, Neighbours(graph, start), 0)];
    var trail := [start];
    Begin(graph, colour, forest, finish, clock, start);
    ToldBegins(graph, colour, reported, forest, start);
    Starts(graph, colour, entered0, start);
    order := order + [start];
    colour := colour[start := Grey];
    while stack != []
      invariant OnTrail(graph, colour, stack, trail, forest)
      invariant Found(graph, out, reported, forest)
      invariant out == [] ==> Descending(graph, colour, finish, clock) && Expanded(stack, finish)
      invariant Told(graph, colour, stack, reported, forest) && Rooted(colour, trail, forest)
      invariant colour0.Keys + {start} <= colour.Keys <= Universe(graph)
      invariant Colours(Entered(order, forest), colour)
      invariant Unwound(graph, Entered(order, forest), stack) == Started(graph, entered0, start)
      invariant |stack| == |trail|
      decreases Universe(graph) - colour.Keys, Remaining(stack)
    {
      var top := stack[|stack| - 1];
      TopOfStack(graph, colour, stack, trail, forest);
      if top.next >= |top.neighbours| {
        RetreatTrail(graph, colour, stack, trail, forest);
        TellsNoMore(graph, colour, stack, trail, forest, reported);
        StaysRooted(colour, trail, forest, top.node);
        if out == [] {
          RetreatFinish(graph, colour, stack, trail, forest, finish, clock);
          RetreatExpanded(graph, colour, stack, trail, forest, finish, clock);
        }
        PopShrinks(stack);
        Leaves(graph, colour, Entered(order, forest), stack);
        colour := colour[top.node := Black];
        finish := finish[top.node := clock];
        clock := clock + 1;
        stack := stack[..|stack| - 1];
        trail := trail[..|trail| - 1];
        continue;
      }
      var neighbour := top.neighbours[top.next];
      Advance(graph, colour, stack, trail, forest, finish, clock);
      assert neighbour in Universe(graph);
      if out == [] && neighbour in colour && colour[neighbour] != Grey {
        BlackIsFinished(graph, colour, finish, clock, neighbour);
      }
      ghost var before := stack;
      Follows(graph, colour, Entered(order, forest), stack);
      stack := stack[..|stack| - 1] + [top.(next := top.next + 1)];
      if neighbour in colour && colour[neighbour] == Grey {
        var from := Position(trail, neighbour);
        var cycle := trail[from..];
        var signature := Nodes(cycle);
        TrailCloses(graph, colour, stack, trail, forest, from);
        TellsOneMore(graph, colour, before, trail, forest, reported, reported + {signature});
        if signature !in reported {
          AddReport(graph, out, reported, forest, cycle + [neighbour]);
          reported := reported + {signature};
          out := out + [cycle + [neighbour]];
        } else {
          ReportedIsFound(graph, out, reported, forest, signature);
          assert reported + {signature} == reported;
        }
      } else if neighbour !in colour {
        TellsOneMore(graph, colour, before, trail, forest, reported, reported);
        EntersRooted(graph, colour, stack, trail, forest, neighbour);
        TellsAsEntered(graph, colour, stack, reported, forest, neighbour, top.node);
        EnterTrail(graph, colour, stack, trail, forest, neighbour);
        if out == [] { EnterFinish(graph, colour, before, stack, finish, clock, neighbour); }
        ForestGrows(graph, out, reported, forest, neighbour, top.node);
        assert neighbour in Universe(graph) - colour.Keys;
        colour := colour[neighbour := Grey];
        trail := trail + [neighbour];
        order, forest := order + [neighbour], forest[neighbour := top.node];
        stack := stack + [Frame(neighbour, Neighbours(graph, neighbour), 0)];
      } else {
        TellsOneMore(graph, colour, before, trail, forest, reported, reported);
      }
    }
    entered := Entered(order, forest);
    assert trail == [];
    NothingUnwinds(graph, entered);
  }

  lemma StaysRooted(colour: map<Key, Colour>, trail: seq<Key>, forest: Forest, k: Key)
    requires Rooted(colour, trail, forest) && trail != []
    ensures Rooted(colour[k := Black], trail[..|trail| - 1], forest)
  {
  }

  lemma EntersRooted(
    graph: Graph, colour: map<Key, Colour>, stack: seq<Frame>, trail: seq<Key>, forest: Forest, k: Key)
    requires OnTrail(graph, colour, stack, trail, forest) && Rooted(colour, trail, forest) && stack != []
    requires k !in colour
    ensures Rooted(colour, [], forest) && forest.Keys <= colour.Keys
    ensures forall i | 0 <= i < |stack| :: stack[i].node in colour
    ensures Rooted(colour[k := Grey], trail + [k], forest[k := stack[|stack| - 1].node])
  {
    assert forall i | 0 <= i < |trail| :: trail[i] in trail;
  }
}
