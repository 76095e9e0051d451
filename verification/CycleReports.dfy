/** Which cycles the search reports: what its forest decides, and when that is all of them. */
module CycleReports {
  import opened Forests
  import opened Cycles

  ghost predicate Reaches(graph: Graph, a: Key, b: Key) {
    exists w :: |w| >= 1 && w[0] == a && w[|w| - 1] == b && Walk(graph, w)
  }

  /** Every edge that lies on a cycle goes to a node entered by it, or back up the forest. */
  ghost predicate KeepsToForest(graph: Graph, forest: Forest) {
    forall u, v | Edge(graph, u, v) && Reaches(graph, v, u) :: Keeps(forest, u, v)
  }

  ghost predicate Keeps(forest: Forest, u: Key, v: Key) {
    Child(forest, u, v) || Above(forest, v, u)
  }

  /** Every elementary cycle has the nodes of one reported. */
  ghost predicate AllReported(graph: Graph, out: seq<seq<Key>>) {
    forall w | Elementary(graph, w) :: Reported(out, Nodes(w))
  }

  // ----- walks and cycles ------------------------------------------------------------------

  lemma {:induction false} SimplePath(graph: Graph, w: seq<Key>) returns (p: seq<Key>)
    requires |w| >= 1 && Walk(graph, w)
    ensures |p| >= 1 && p[0] == w[0] && p[|p| - 1] == w[|w| - 1] && Walk(graph, p) && Distinct(p)
    decreases |w|
  {
    if Distinct(w) { return w; }
    var i, j :| 0 <= i < j < |w| && w[i] == w[j];
    var shorter := w[..i] + w[j..];
    forall m | 0 <= m < |shorter| - 1 ensures Edge(graph, shorter[m], shorter[m + 1]) {
      if m + 1 < i {
        assert Edge(graph, w[m], w[m + 1]);
      } else if m + 1 == i {
        assert Edge(graph, w[m], w[m + 1]);
      } else {
        assert Edge(graph, w[m - i + j], w[m - i + j + 1]);
      }
    }
    p := SimplePath(graph, shorter);
  }

  /** An edge back to where a walk begins lies on an elementary cycle. */
  lemma {:induction false} OnACycle(graph: Graph, u: Key, v: Key) returns (w: seq<Key>)
    requires Edge(graph, u, v) && Reaches(graph, v, u)
    ensures Elementary(graph, w) && u in Nodes(w) && v in Nodes(w)
  {
    var walk :| |walk| >= 1 && walk[0] == v && walk[|walk| - 1] == u && Walk(graph, walk);
    var p := SimplePath(graph, walk);
    w := p + [v];
    forall i | 0 <= i < |w| - 1 ensures Edge(graph, w[i], w[i + 1]) {
      if i < |p| - 1 { assert Edge(graph, p[i], p[i + 1]); }
    }
    assert w[..|w| - 1] == p && w[|p| - 1] == u && w[0] == v;
  }

  /** A closed walk entered at another of its nodes. */
  function Turned(w: seq<Key>, k: nat): seq<Key>
    requires k < |w| - 1
  {
    w[k..|w| - 1] + w[..k] + [w[k]]
  }

  lemma TurnedAt(w: seq<Key>, k: nat, i: nat)
    requires k < |w| - 1 && i < |w| - 1 && w[0] == w[|w| - 1]
    ensures |Turned(w, k)| == |w| && Turned(w, k)[0] == Turned(w, k)[|w| - 1] == w[k]
    ensures Turned(w, k)[i] == w[From(k, |w| - 1, i)] && Turned(w, k)[i + 1] == w[From(k, |w| - 1, i) + 1]
  {
  }

  /** Where a node of the turned walk comes from. */
  function From(k: nat, m: nat, i: nat): nat {
    if k + i < m then k + i else if k + i < 2 * m then k + i - m else 0
  }

  lemma {:induction false} TurnedIsElementary(graph: Graph, w: seq<Key>, k: nat)
    requires Elementary(graph, w) && k < |w| - 1
    ensures Elementary(graph, Turned(w, k)) && Nodes(Turned(w, k)) == Nodes(w)
  {
    var r, m := Turned(w, k), |w| - 1;
    TurnedAt(w, k, 0);
    forall i | 0 <= i < m ensures r[i] == w[From(k, m, i)] && r[i + 1] == w[From(k, m, i) + 1] { TurnedAt(w, k, i); }
    hide Turned, Nodes;
    forall i | 0 <= i < m ensures Edge(graph, r[i], r[i + 1]) {
      assert Edge(graph, w[From(k, m, i)], w[From(k, m, i) + 1]);
    }
    TurnedIsDistinct(w, k, r);
    TurnedNodes(w, k, r);
  }

  lemma TurnedIsDistinct(w: seq<Key>, k: nat, r: seq<Key>)
    requires |r| == |w| >= 2 && k < |w| - 1 && Distinct(w[..|w| - 1])
    requires forall i | 0 <= i < |w| - 1 :: r[i] == w[From(k, |w| - 1, i)]
    ensures Distinct(r[..|r| - 1])
  {
    var m := |w| - 1;
    forall i, j | 0 <= i < j < m ensures r[..m][i] != r[..m][j] {
      var a, b := From(k, m, i), From(k, m, j);
      assert a != b && w[..m][a] == w[a] && w[..m][b] == w[b];
    }
  }

  lemma TurnedNodes(w: seq<Key>, k: nat, r: seq<Key>)
    requires |r| == |w| >= 2 && k < |w| - 1 && w[0] == w[|w| - 1] && r[0] == r[|w| - 1]
    requires forall i | 0 <= i < |w| - 1 :: r[i] == w[From(k, |w| - 1, i)]
    ensures Nodes(r) == Nodes(w)
  {
    var m := |w| - 1;
    forall x | x in w ensures x in r {
      var at :| 0 <= at < |w| && w[at] == x;
      var a := if at == m then 0 else at;
      var i := if k <= a then a - k else a - k + m;
      assert From(k, m, i) == a && r[i] == x;
    }
    forall x | x in r ensures x in w {
      var at :| 0 <= at < |r| && r[at] == x;
      assert r[if at == m then 0 else at] == x;
    }
  }

  // ----- down the forest ---------------------------------------------------------------------

  lemma {:induction false} RankRises(order: seq<Key>, forest: Forest, t: seq<Key>, i: nat, j: nat)
    requires Falls(order, forest) && ForestPath(forest, t) && i < j < |t|
    ensures Position(order, t[i]) < Position(order, t[j])
    decreases j
  {
    hide Position;
    assert Child(forest, t[j - 1], t[j]);
    if i < j - 1 { RankRises(order, forest, t, i, j - 1); }
  }

  /** Two ways down the forest to one node are one, as far as both go. */
  lemma {:induction false} PathsAgree(forest: Forest, s: seq<Key>, t: seq<Key>, n: nat)
    requires ForestPath(forest, s) && ForestPath(forest, t) && n < |s| && n < |t|
    requires s[|s| - 1] == t[|t| - 1]
    ensures s[|s| - 1 - n] == t[|t| - 1 - n]
  {
    if n > 0 {
      PathsAgree(forest, s, t, n - 1);
      assert Child(forest, s[|s| - n - 1], s[|s| - n]) && Child(forest, t[|t| - n - 1], t[|t| - n]);
    }
  }

  /** No way down from the last node of one that starts where a cycle was entered first leads back into the cycle. */
  lemma {:induction false} NotBackUp(order: seq<Key>, forest: Forest, s: seq<Key>, k: Key)
    requires Falls(order, forest) && ForestPath(forest, s) && |s| >= 1 && k !in s
    requires Position(order, s[0]) <= Position(order, k)
    ensures !Above(forest, k, s[|s| - 1])
  {
    hide Position, Falls;
    if Above(forest, k, s[|s| - 1]) {
      var t :| |t| >= 1 && t[0] == k && t[|t| - 1] == s[|s| - 1] && ForestPath(forest, t);
      if |t| <= |s| {
        PathsAgree(forest, s, t, |t| - 1);
        assert false;
      } else {
        PathsAgree(forest, s, t, |s| - 1);
        RankRises(order, forest, t, 0, |t| - |s|);
        assert false;
      }
    }
  }

  /** From the node of a cycle entered first, edges that keep to the forest go down it but for the last. */
  lemma {:induction false} GoesDown(order: seq<Key>, forest: Forest, t: seq<Key>, n: nat)
    requires Falls(order, forest) && Distinct(t) && 1 <= n <= |t|
    requires forall i | 0 <= i < |t| - 1 :: Keeps(forest, t[i], t[i + 1])
    requires forall i | 0 <= i < |t| :: Position(order, t[0]) <= Position(order, t[i])
    ensures ForestPath(forest, t[..n])
  {
    hide Position, Falls, Above;
    if n > 1 {
      var s := t[..n - 1];
      GoesDown(order, forest, t, n - 1);
      NotBackUp(order, forest, s, t[n - 1]);
      assert Keeps(forest, t[n - 2], t[n - 2 + 1]);
      forall i | 1 <= i < n ensures Child(forest, t[..n][i - 1], t[..n][i]) {
        if i < n - 1 { assert Child(forest, s[i - 1], s[i]); }
      }
    }
  }

  lemma {:induction false} EnteredFirst(order: seq<Key>, w: seq<Key>, n: nat) returns (k: nat)
    requires 1 <= n <= |w|
    ensures k < n && forall i | 0 <= i < n :: Position(order, w[k]) <= Position(order, w[i])
  {
    hide Position;
    if n == 1 { return 0; }
    k := EnteredFirst(order, w, n - 1);
    if Position(order, w[n - 1]) < Position(order, w[k]) { k := n - 1; }
  }

  lemma EdgesAreOnCycles(graph: Graph, w: seq<Key>, i: nat)
    requires Elementary(graph, w) && i < |w| - 1
    ensures Edge(graph, w[i], w[i + 1]) && Reaches(graph, w[i + 1], w[i])
  {
    var back := w[i + 1..] + w[1..i + 1];
    forall m | 0 <= m < |back| - 1 ensures Edge(graph, back[m], back[m + 1]) {
      var at := if m < |w| - i - 2 then i + 1 + m else m - (|w| - i - 2);
      assert Edge(graph, w[at], w[at + 1]);
    }
    assert back[0] == w[i + 1] && back[|back| - 1] == w[i];
  }

  /** Where edges keep to the forest, every cycle is one down it. */
  lemma {:induction false} KeptCycleGoesDown(graph: Graph, order: seq<Key>, forest: Forest, w: seq<Key>)
    returns (r: seq<Key>)
    requires Falls(order, forest) && KeepsToForest(graph, forest) && Elementary(graph, w)
    ensures Elementary(graph, r) && DownForest(forest, r) && Nodes(r) == Nodes(w)
  {
    hide Falls, Position, Keeps, Turned;
    var m := |w| - 1;
    var k := EnteredFirst(order, w, m);
    r := Turned(w, k);
    TurnedIsElementary(graph, w, k);
    TurnedAt(w, k, 0);
    forall i | 0 <= i < m ensures Keeps(forest, r[i], r[i + 1]) { EdgesAreOnCycles(graph, r, i); }
    forall i | 0 <= i < m ensures Position(order, r[0]) <= Position(order, r[i]) { TurnedAt(w, k, i); }
    var t := r[..m];
    assert r[..|r| - 1] == t;
    GoesDown(order, forest, t, m);
    assert t[..m] == t;
    forall i | 1 <= i < |r| - 1 ensures Child(forest, r[i - 1], r[i]) { assert Child(forest, t[i - 1], t[i]); }
  }

  // ----- and edges that do not keep to the forest -------------------------------------------------

  /** The forest a cycle down it runs through, without its last node. */
  lemma {:induction false} IsPath(graph: Graph, forest: Forest, c: seq<Key>)
    requires Elementary(graph, c) && DownForest(forest, c)
    ensures |c| >= 2 && ForestPath(forest, c[..|c| - 1]) && Distinct(c[..|c| - 1]) && Nodes(c) == Nodes(c[..|c| - 1])
  {
    var t := c[..|c| - 1];
    forall i | 1 <= i < |t| ensures Child(forest, t[i - 1], t[i]) {
      assert Child(forest, c[i - 1], c[i]);
    }
    assert c == t + [c[0]] && c[0] == t[0];
  }

  /** Some nodes of a way down the forest make another only if none is missing in between. */
  lemma {:induction false} NoneMissing(order: seq<Key>, forest: Forest, t: seq<Key>, s: seq<Key>, j: nat)
    requires Falls(order, forest) && ForestPath(forest, t) && ForestPath(forest, s) && Distinct(t)
    requires Nodes(s) <= Nodes(t) && 1 <= j < |t| && t[0] in s && t[j] in s
    ensures t[j - 1] in s
  {
    hide Falls, Position;
    var a :| 0 <= a < |s| && s[a] == t[0];
    var b :| 0 <= b < |s| && s[b] == t[j];
    assert Child(forest, t[j - 1], t[j]);
    if b > 0 {
      assert Child(forest, s[b - 1], s[b]);
    } else {
      assert a > 0;
      assert s[0] in Nodes(t);
      RankRises(order, forest, s, 0, a);
      RankRises(order, forest, t, 0, j);
      assert false;
    }
  }

  /** A cycle that leaves out what lies between two of its nodes. */
  function Cut(t: seq<Key>, i: nat, j: nat): seq<Key>
    requires i < j < |t|
  {
    t[..i + 1] + t[j..] + [t[0]]
  }

  lemma CutAt(t: seq<Key>, i: nat, j: nat, a: nat)
    requires i < j < |t| && a <= |t| - j + i
    ensures var w := Cut(t, i, j);
      && |w| == |t| - j + i + 2 && w[0] == w[|w| - 1] == t[0] && w[a] == t[if a <= i then a else a - i - 1 + j]
  {
  }

  lemma {:induction false} CutIsElementary(graph: Graph, c: seq<Key>, i: nat, j: nat)
    requires Elementary(graph, c) && i < j < |c| - 1 && Edge(graph, c[i], c[j])
    ensures Elementary(graph, Cut(c[..|c| - 1], i, j))
  {
    var t := c[..|c| - 1];
    var w := Cut(t, i, j);
    CutAt(t, i, j, 0);
    forall a | 0 <= a < |w| - 1 ensures w[a] == t[if a <= i then a else a - i - 1 + j] { CutAt(t, i, j, a); }
    hide Cut;
    forall m | 0 <= m < |w| - 1 ensures Edge(graph, w[m], w[m + 1]) {
      var x := if m <= i then m else m - i - 1 + j;
      assert Edge(graph, c[x], c[x + 1]);
    }
    var open := w[..|w| - 1];
    forall a, b | 0 <= a < b < |open| ensures open[a] != open[b] {
      var x, y := if a <= i then a else a - i - 1 + j, if b <= i then b else b - i - 1 + j;
      assert w[a] == t[x] && w[b] == t[y];
    }
  }

  lemma {:induction false} CutNodes(t: seq<Key>, i: nat, j: nat)
    requires Distinct(t) && i < j < |t|
    ensures var nodes := Nodes(Cut(t, i, j));
      t[0] in nodes && t[j] in nodes && nodes <= Nodes(t) && (j > i + 1 ==> t[j - 1] !in nodes)
  {
    var w := Cut(t, i, j);
    assert w[0] == t[0] && w[i + 1] == t[j];
    assert forall k | k in w :: k in t[..i + 1] || k in t[j..] || k == t[0];
    forall k | k in w && j > i + 1 ensures k != t[j - 1] {
      if k in t[j..] { var a :| 0 <= a < |t[j..]| && t[j..][a] == k; }
    }
  }

  /** Every cycle has the nodes of one down the forest. */
  ghost predicate AllGoDown(graph: Graph, forest: Forest) {
    forall w | Elementary(graph, w) :: GoesDownAs(graph, forest, w)
  }

  ghost predicate GoesDownAs(graph: Graph, forest: Forest, w: seq<Key>) {
    exists r :: Elementary(graph, r) && DownForest(forest, r) && Nodes(r) == Nodes(w)
  }

  /** The nodes of a cycle, in the order a way down the forest takes them. */
  lemma {:induction false} WayDown(graph: Graph, forest: Forest, w: seq<Key>) returns (c: seq<Key>)
    requires AllGoDown(graph, forest) && Elementary(graph, w)
    ensures Elementary(graph, c) && |c| >= 2
    ensures var t := c[..|c| - 1]; ForestPath(forest, t) && Distinct(t) && Nodes(t) == Nodes(w)
  {
    hide Elementary, DownForest, Nodes, ForestPath, Distinct;
    assert GoesDownAs(graph, forest, w);
    c :| Elementary(graph, c) && DownForest(forest, c) && Nodes(c) == Nodes(w);
    IsPath(graph, forest, c);
  }

  lemma {:induction false} EdgeKeeps(graph: Graph, order: seq<Key>, forest: Forest, u: Key, v: Key)
    requires Falls(order, forest) && AllGoDown(graph, forest)
    requires Edge(graph, u, v) && Reaches(graph, v, u)
    ensures Keeps(forest, u, v)
  {
    hide Falls, Elementary, Cut, Child, Distinct, Nodes, ForestPath, AllGoDown, Edge, Reaches;
    var w := OnACycle(graph, u, v);
    var c := WayDown(graph, forest, w);
    var t := c[..|c| - 1];
    var i := IndexIn(t, u);
    var j := IndexIn(t, v);
    if j <= i {
      PartIsAbove(forest, t, j, i);
    } else {
      StepDown(forest, t, j);
      if j > i + 1 { LeapIsMissed(graph, order, forest, c, i, j); }
    }
  }

  /** An edge over some nodes of a way down makes a cycle of the others, which no way down does. */
  lemma {:induction false} LeapIsMissed(
    graph: Graph, order: seq<Key>, forest: Forest, c: seq<Key>, i: nat, j: nat)
    requires Falls(order, forest) && AllGoDown(graph, forest) && Elementary(graph, c) && |c| >= 2
    requires ForestPath(forest, c[..|c| - 1]) && Distinct(c[..|c| - 1]) && i + 1 < j < |c| - 1
    ensures !Edge(graph, c[i], c[j])
  {
    hide Falls, Elementary, Cut, Child, Distinct, ForestPath, AllGoDown, Edge;
    if Edge(graph, c[i], c[j]) {
      var t := c[..|c| - 1];
      CutIsElementary(graph, c, i, j);
      CutNodes(t, i, j);
      var s := WayDown(graph, forest, Cut(t, i, j));
      NoneMissing(order, forest, t, s[..|s| - 1], j);
      assert false;
    }
  }

  lemma IndexIn(t: seq<Key>, k: Key) returns (i: nat)
    requires k in Nodes(t)
    ensures i < |t| && t[i] == k
  {
    i :| 0 <= i < |t| && t[i] == k;
  }

  lemma PartIsAbove(forest: Forest, t: seq<Key>, j: nat, i: nat)
    requires ForestPath(forest, t) && j <= i < |t|
    ensures Above(forest, t[j], t[i])
  {
    var part := t[j..i + 1];
    forall m | 1 <= m < |part| ensures Child(forest, part[m - 1], part[m]) {
      assert Child(forest, t[j + m - 1], t[j + m]);
    }
    assert part[0] == t[j] && part[|part| - 1] == t[i];
  }

  lemma StepDown(forest: Forest, t: seq<Key>, j: nat)
    requires ForestPath(forest, t) && 1 <= j < |t|
    ensures Child(forest, t[j - 1], t[j])
  {
  }

  // ----- when every cycle is reported ------------------------------------------------------------------

  /**
   Every elementary cycle is reported exactly when each edge that lies on one
   keeps to the forest the search takes: it enters its node, or goes back up.
   */
  lemma {:induction false} EveryCycleIsReportedExactly(starts: seq<Key>, graph: Graph, out: seq<seq<Key>>)
    requires SearchResult(starts, graph, out)
    ensures AllReported(graph, out) <==> KeepsToForest(graph, ForestOf(starts, graph))
  {
    hide Falls, Elementary, DownForest, Nodes, Keeps, Acyclic;
    var order, forest := Swept(graph, starts).order, ForestOf(starts, graph);
    SweptFalls(graph, starts);
    if AllReported(graph, out) {
      forall w | Elementary(graph, w) ensures GoesDownAs(graph, forest, w) {
        var i :| 0 <= i < |out| && Nodes(out[i]) == Nodes(w);
        assert Elementary(graph, out[i]);
      }
      forall u, v | Edge(graph, u, v) && Reaches(graph, v, u) ensures Keeps(forest, u, v) {
        EdgeKeeps(graph, order, forest, u, v);
      }
    }
    if KeepsToForest(graph, forest) {
      forall w | Elementary(graph, w) ensures Reported(out, Nodes(w)) {
        var r := KeptCycleGoesDown(graph, order, forest, w);
      }
    }
  }

  // ----- what is reported is one -------------------------------------------------------------------------

  /** Two ways down the forest with the same nodes are one. */
  lemma {:induction false} PathIsItsNodes(order: seq<Key>, forest: Forest, s: seq<Key>, t: seq<Key>, n: nat)
    requires Falls(order, forest) && ForestPath(forest, s) && ForestPath(forest, t) && Distinct(t)
    requires Nodes(s) == Nodes(t) && n < |s|
    ensures n < |t| && s[n] == t[n]
  {
    hide Falls, Position;
    assert s[0] in Nodes(t) && s[n] in Nodes(t);
    assert t[0] in Nodes(s);
    if n == 0 {
      var a :| 0 <= a < |s| && s[a] == t[0];
      var b :| 0 <= b < |t| && t[b] == s[0];
      if a > 0 && b > 0 {
        RankRises(order, forest, s, 0, a);
        RankRises(order, forest, t, 0, b);
      }
    } else {
      PathIsItsNodes(order, forest, s, t, n - 1);
      PathIsItsNodes(order, forest, s, t, 0);
      var b :| 0 <= b < |t| && t[b] == s[n];
      RankRises(order, forest, s, 0, n);
      assert b > 0;
      assert Child(forest, s[n - 1], s[n]) && Child(forest, t[b - 1], t[b]);
    }
  }

  lemma {:induction false} CycleIsItsNodes(graph: Graph, order: seq<Key>, forest: Forest, c: seq<Key>, d: seq<Key>)
    requires Falls(order, forest) && Nodes(c) == Nodes(d)
    requires Elementary(graph, c) && DownForest(forest, c) && Elementary(graph, d) && DownForest(forest, d)
    ensures c == d
  {
    hide Falls, DownForest, Nodes, ForestPath, Distinct;
    IsPath(graph, forest, c);
    IsPath(graph, forest, d);
    var s, t := c[..|c| - 1], d[..|d| - 1];
    PathIsItsNodes(order, forest, s, t, |s| - 1);
    PathIsItsNodes(order, forest, t, s, |t| - 1);
    forall i | 0 <= i < |s| ensures s[i] == t[i] { PathIsItsNodes(order, forest, s, t, i); }
    assert s == t;
    assert c == s + [c[0]] && d == t + [d[0]] && c[0] == s[0] && d[0] == t[0];
  }

  /** The starts and the graph settle which cycles are reported, and where each begins. */
  lemma {:induction false} ReportsAreOne(starts: seq<Key>, graph: Graph, out: seq<seq<Key>>, other: seq<seq<Key>>)
    requires SearchResult(starts, graph, out) && SearchResult(starts, graph, other)
    ensures forall c :: c in out <==> c in other
  {
    hide SearchResult;
    forall c ensures c in out <==> c in other {
      if c in out { IsReportedToo(starts, graph, out, other, c); }
      if c in other { IsReportedToo(starts, graph, other, out, c); }
    }
  }

  lemma {:induction false} IsReportedToo(
    starts: seq<Key>, graph: Graph, out: seq<seq<Key>>, other: seq<seq<Key>>, c: seq<Key>)
    requires SearchResult(starts, graph, out) && SearchResult(starts, graph, other) && c in out
    ensures c in other
  {
    hide Falls, Elementary, DownForest, Nodes, Acyclic;
    SweptFalls(graph, starts);
    var i :| 0 <= i < |out| && out[i] == c;
    assert Reported(other, Nodes(c));
    var j :| 0 <= j < |other| && Nodes(other[j]) == Nodes(c);
    CycleIsItsNodes(graph, Swept(graph, starts).order, ForestOf(starts, graph), c, other[j]);
  }

  // ----- not every one is ---------------------------------------------------------------------------------

  /** `a` names `b` and `c`, each of them names `d`, and `d` names `a`. */
  const DIAMOND: Graph := map["a" := ["b", "c"], "b" := ["d"], "c" := ["d"], "d" := ["a"]]

  const KEYS := ["a", "b", "c", "d"]

  const TAKEN: Forest := map["b" := "a", "d" := "b", "c" := "a"]

  /** The search goes down `a`, `b`, `d`, and then enters `c`. */
  lemma DiamondForest()
    ensures ForestOf(KEYS, DIAMOND) == TAKEN
  {
    hide Visit, Swept;
    var root, all := Entered(["a"], map[]), Entered(["a", "b", "d", "c"], TAKEN);
    FromA(root, all);
    assert [] + ["a"] == root.order;
    SweptMore(DIAMOND, [], "a");
    SweptMore(DIAMOND, ["a"], "b");
    SweptMore(DIAMOND, ["a"] + ["b"], "c");
    SweptMore(DIAMOND, ["a"] + ["b"] + ["c"], "d");
    assert ["a"] + ["b"] + ["c"] + ["d"] == KEYS;
    NothingSwept(DIAMOND);
    assert "b" in all.order && "c" in all.order && "d" in all.order;
  }

  lemma Enters(e: Entered, node: Key, next: nat, k: Key, below: Entered)
    requires next < |Neighbours(DIAMOND, node)| && Neighbours(DIAMOND, node)[next] == k
    requires below == if k in e.order then e
      else Visit(DIAMOND, Entered(e.order + [k], e.forest[k := node]), k, 0)
    ensures Visit(DIAMOND, e, node, next) == Visit(DIAMOND, below, node, next + 1)
  {
  }

  lemma Left(e: Entered, node: Key, next: nat)
    requires next >= |Neighbours(DIAMOND, node)|
    ensures Visit(DIAMOND, e, node, next) == e
  {
  }

  lemma FromA(root: Entered, all: Entered)
    requires root == Entered(["a"], map[]) && all == Entered(["a", "b", "d", "c"], TAKEN)
    ensures Visit(DIAMOND, root, "a", 0) == all
  {
    hide Visit;
    var b := Entered(["a", "b"], map["b" := "a"]);
    var d := Entered(["a", "b", "d"], map["b" := "a", "d" := "b"]);
    assert root.order + ["b"] == b.order && b.order + ["d"] == d.order && d.order + ["c"] == all.order;
    assert root.forest["b" := "a"] == b.forest && b.forest["d" := "b"] == d.forest
      && d.forest["c" := "a"] == all.forest;
    Enters(d, "d", 0, "a", d);
    Left(d, "d", 1);
    Enters(b, "b", 0, "d", d);
    Left(d, "b", 1);
    Enters(root, "a", 0, "b", d);
    Enters(all, "c", 0, "d", all);
    Left(all, "c", 1);
    Enters(d, "a", 1, "c", all);
    Left(all, "a", 2);
  }

  /** Of two elementary cycles the search reports one: the other comes to a node it has entered. */
  lemma NotEveryElementaryCycleIsReported(out: seq<seq<Key>>)
    requires SearchResult(KEYS, DIAMOND, out)
    ensures Elementary(DIAMOND, ["a", "b", "d", "a"]) && Elementary(DIAMOND, ["a", "c", "d", "a"])
    ensures Reported(out, {"a", "b", "d"}) && !Reported(out, {"a", "c", "d"})
  {
    hide Elementary, DownForest, Nodes, Acyclic;
    TwoCycles();
    DiamondForest();
    if i :| 0 <= i < |out| && Nodes(out[i]) == {"a", "c", "d"} {
      NotThroughC(out[i]);
    }
    FirstGoesDown();
    assert Reported(out, Nodes(["a", "b", "d", "a"]));
  }

  lemma FirstGoesDown()
    ensures DownForest(TAKEN, ["a", "b", "d", "a"]) && Nodes(["a", "b", "d", "a"]) == {"a", "b", "d"}
  {
  }

  lemma TwoCycles()
    ensures Elementary(DIAMOND, ["a", "b", "d", "a"]) && Elementary(DIAMOND, ["a", "c", "d", "a"])
  {
    var one, other := ["a", "b", "d", "a"], ["a", "c", "d", "a"];
    assert Edge(DIAMOND, "a", "b") && Edge(DIAMOND, "b", "d") && Edge(DIAMOND, "d", "a");
    assert Edge(DIAMOND, "a", "c") && Edge(DIAMOND, "c", "d");
    assert one[..3] == ["a", "b", "d"] && other[..3] == ["a", "c", "d"];
  }

  /** A cycle down the forest comes to `d` from `b`. */
  lemma NotThroughC(w: seq<Key>)
    requires Elementary(DIAMOND, w) && Nodes(w) == {"a", "c", "d"}
    ensures !DownForest(TAKEN, w)
  {
    assert "c" in Nodes(w) && "d" in Nodes(w);
    var i :| 0 <= i < |w| && w[i] == "d";
    var j :| 0 <= j < |w| && w[j] == "c";
    if 1 <= i < |w| - 1 {
      assert w[i - 1] in Nodes(w);
      if DownForest(TAKEN, w) {
        assert false;
      }
    } else {
      assert w[j - 1] in Nodes(w) && 1 <= j < |w| - 1;
      if j > 1 { assert !Child(TAKEN, w[j - 1], w[j]) || !Child(TAKEN, w[j - 1 - 1], w[j - 1]); }
      if DownForest(TAKEN, w) {
        assert false;
      }
    }
  }
}
