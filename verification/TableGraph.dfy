/** The graph an acyclic rule lays over a table's rows, and the cycles found in it. */
module TableGraph {
  import opened Json
  import opened Order
  import opened Forests
  import opened Cycles

  /** A row in path order, with the key it holds; and a reference an acyclic rule follows. */
  datatype RowKey = RowKey(path: string, key: Option<Key>)

  datatype Reference = Reference(path: string, target: Key)

  /** A row keyed `a` makes a reference naming `b`, and some row holds `b`. */
  ghost predicate References(rows: seq<RowKey>, edges: seq<Reference>, a: Key, b: Key) {
    && (exists r, e | r in rows && e in edges :: r.key == Some(a) && e.path == r.path && e.target == b)
    && (exists r | r in rows :: r.key == Some(b))
  }

  ghost predicate TableAcyclic(rows: seq<RowKey>, edges: seq<Reference>) {
    forall w: seq<Key> | |w| >= 2 && w[0] == w[|w| - 1] ::
      exists i | 0 <= i < |w| - 1 :: !References(rows, edges, w[i], w[i + 1])
  }

  /** Put a key in its place among ascending keys, once. */
  function Place(keys: seq<Key>, k: Key): (r: seq<Key>)
    ensures forall x :: x in r <==> x in keys || x == k
  {
    if keys == [] then [k]
    else if keys[0] == k then keys
    else if CompareStrings(k, keys[0]) == Less then [k] + keys
    else [keys[0]] + Place(keys[1..], k)
  }

  predicate KeyLess(a: Key, b: Key) {
    CompareStrings(a, b) == Less
  }

  ghost predicate Rising(keys: seq<Key>) {
    forall i, j | 0 <= i < j < |keys| :: KeyLess(keys[i], keys[j])
  }

  lemma {:induction false} PlaceRises(keys: seq<Key>, k: Key)
    requires Rising(keys)
    ensures Rising(Place(keys, k))
  {
    StringsAreTotal();
    hide CompareStrings;
    if keys != [] && keys[0] != k {
      PlaceRises(keys[1..], k);
      var rest := Place(keys[1..], k);
      if CompareStrings(k, keys[0]) == Less {
        forall j | 0 <= j < |keys| ensures KeyLess(k, keys[j]) { assert j > 0 ==> KeyLess(keys[0], keys[j]); }
      } else {
        forall j | 0 <= j < |rest| ensures KeyLess(keys[0], rest[j]) {
          if rest[j] in keys[1..] { var i :| 0 <= i < |keys| - 1 && keys[1..][i] == rest[j]; }
        }
      }
    }
  }

  /** The keys of the rows seen so far, by path; and the first path holding each key. */
  ghost predicate Indexed(rows: seq<RowKey>, keyOfPath: map<string, Key>, paths: map<Key, string>) {
    PathsIndexed(rows, keyOfPath) && KeysIndexed(rows, paths)
  }

  ghost predicate PathsIndexed(rows: seq<RowKey>, keyOfPath: map<string, Key>) {
    && (forall p :: p in keyOfPath <==> exists r | r in rows :: r.path == p && r.key.Some?)
    && (forall r | r in rows && r.key.Some? :: keyOfPath[r.path] == r.key.value)
  }

  ghost predicate KeysIndexed(rows: seq<RowKey>, paths: map<Key, string>) {
    && (forall k :: k in paths <==> exists r | r in rows :: r.key == Some(k))
    && (forall k | k in paths :: FirstHolder(rows, k, paths[k]))
  }

  ghost predicate FirstHolder(rows: seq<RowKey>, k: Key, path: string) {
    exists i | 0 <= i < |rows| :: rows[i] == RowKey(path, Some(k)) && forall j | 0 <= j < i :: rows[j].key != Some(k)
  }

  ghost predicate DistinctPaths(rows: seq<RowKey>) {
    forall i, j | 0 <= i < j < |rows| :: rows[i].path != rows[j].path
  }

  lemma HolderStays(rows: seq<RowKey>, i: nat, k: Key, path: string)
    requires i < |rows| && FirstHolder(rows[..i], k, path)
    ensures FirstHolder(rows[..i + 1], k, path)
  {
    var before, after := rows[..i], rows[..i + 1];
    var m :| 0 <= m < |before| && before[m] == RowKey(path, Some(k)) && forall j | 0 <= j < m ::
      before[j].key != Some(k);
    assert after[m] == before[m] && forall j | 0 <= j < m :: after[j] == before[j];
  }

  lemma NewHolder(rows: seq<RowKey>, i: nat)
    requires i < |rows| && rows[i].key.Some?
    requires forall r | r in rows[..i] :: r.key != rows[i].key
    ensures FirstHolder(rows[..i + 1], rows[i].key.value, rows[i].path)
  {
    var after := rows[..i + 1];
    assert after[i] == rows[i];
    forall j | 0 <= j < i ensures after[j].key != rows[i].key {
      assert after[j] == rows[..i][j];
    }
  }

  lemma IndexPath(rows: seq<RowKey>, i: nat, keyOfPath: map<string, Key>)
    requires DistinctPaths(rows) && i < |rows| && PathsIndexed(rows[..i], keyOfPath)
    ensures rows[i].key.None? ==> PathsIndexed(rows[..i + 1], keyOfPath)
    ensures rows[i].key.Some? ==> PathsIndexed(rows[..i + 1], keyOfPath[rows[i].path := rows[i].key.value])
  {
    var before, after, row := rows[..i], rows[..i + 1], rows[i];
    assert forall r :: r in after <==> r in before || r == row;
    forall r | r in before ensures r.path != row.path {
      var j :| 0 <= j < i && before[j] == r;
      assert rows[j] == r;
    }
  }

  lemma IndexKey(rows: seq<RowKey>, i: nat, paths: map<Key, string>)
    requires i < |rows| && KeysIndexed(rows[..i], paths)
    ensures rows[i].key.None? ==> KeysIndexed(rows[..i + 1], paths)
    ensures rows[i].key.Some? ==>
      KeysIndexed(rows[..i + 1], if rows[i].key.value in paths then paths else paths[rows[i].key.value := rows[i].path])
  {
    hide FirstHolder;
    assert forall r :: r in rows[..i + 1] <==> r in rows[..i] || r == rows[i];
    forall k | k in paths ensures FirstHolder(rows[..i + 1], k, paths[k]) {
      HolderStays(rows, i, k, paths[k]);
    }
    if rows[i].key.Some? && rows[i].key.value !in paths { NewHolder(rows, i); }
  }

  lemma NothingIndexed()
    ensures Indexed([], map[], map[])
  {
  }

  method IndexRows(rows: seq<RowKey>) returns (keyOfPath: map<string, Key>, paths: map<Key, string>)
    requires DistinctPaths(rows)
    ensures Indexed(rows, keyOfPath, paths)
  {
    hide PathsIndexed, KeysIndexed;
    keyOfPath, paths := map[], map[];
    NothingIndexed();
    for i := 0 to |rows|
      invariant Indexed(rows[..i], keyOfPath, paths)
    {
      var row := rows[i];
      IndexPath(rows, i, keyOfPath);
      IndexKey(rows, i, paths);
      if row.key.Some? {
        keyOfPath := keyOfPath[row.path := row.key.value];
        if row.key.value !in paths { paths := paths[row.key.value := row.path]; }
      }
    }
    assert rows[..|rows|] == rows;
  }

  ghost predicate Follows(e: Reference, keyOfPath: map<string, Key>, paths: map<Key, string>, a: Key, b: Key) {
    e.path in keyOfPath && keyOfPath[e.path] == a && e.target == b && b in paths
  }

  /** The nodes in key order, and each one's neighbours. */
  ghost predicate InKeyOrder(starts: seq<Key>, graph: Graph) {
    && (forall k :: k in starts <==> k in graph)
    && Rising(starts) && (forall k | k in graph :: Rising(graph[k]))
  }

  method LinkKeys(edges: seq<Reference>, keyOfPath: map<string, Key>, paths: map<Key, string>)
    returns (starts: seq<Key>, graph: Graph)
    ensures forall a, b :: Edge(graph, a, b) <==> exists e | e in edges :: Follows(e, keyOfPath, paths, a, b)
    ensures InKeyOrder(starts, graph)
  {
    hide Rising;
    graph := map[];
    starts := [];
    NothingRises();
    for i := 0 to |edges|
      invariant InKeyOrder(starts, graph)
      invariant forall a, b :: Edge(graph, a, b) <==> exists e | e in edges[..i] :: Follows(e, keyOfPath, paths, a, b)
    {
      var edge := edges[i];
      assert forall e :: e in edges[..i + 1] <==> e in edges[..i] || e == edge;
      if edge.path in keyOfPath && edge.target in paths {
        var from := keyOfPath[edge.path];
        ghost var before := graph;
        PlaceRises(starts, from);
        PlaceRises(Neighbours(graph, from), edge.target);
        starts := Place(starts, from);
        graph := graph[from := Place(Neighbours(graph, from), edge.target)];
        assert forall a, b :: Edge(graph, a, b) <==> Edge(before, a, b) || Follows(edge, keyOfPath, paths, a, b);
      }
    }
    assert edges[..|edges|] == edges;
  }

  lemma NothingRises()
    ensures Rising([])
  {
  }

  lemma FollowingIsReferring(
    rows: seq<RowKey>, edges: seq<Reference>, keyOfPath: map<string, Key>, paths: map<Key, string>, a: Key, b: Key)
    requires Indexed(rows, keyOfPath, paths)
    ensures (exists e | e in edges :: Follows(e, keyOfPath, paths, a, b)) <==> References(rows, edges, a, b)
  {
    if e :| e in edges && Follows(e, keyOfPath, paths, a, b) {
      var r :| r in rows && r.path == e.path && r.key.Some?;
      assert r.key == Some(a);
    }
    if References(rows, edges, a, b) {
      var r, e :| r in rows && e in edges && r.key == Some(a) && e.path == r.path && e.target == b;
      assert Follows(e, keyOfPath, paths, a, b);
    }
  }

  lemma TableWalks(rows: seq<RowKey>, edges: seq<Reference>, graph: Graph)
    requires forall a, b :: Edge(graph, a, b) <==> References(rows, edges, a, b)
    ensures Acyclic(graph) <==> TableAcyclic(rows, edges)
  {
    forall w | ClosedWalk(graph, w) ensures !TableAcyclic(rows, edges) {
      forall i | 0 <= i < |w| - 1 ensures References(rows, edges, w[i], w[i + 1]) {
        assert Edge(graph, w[i], w[i + 1]);
      }
    }
    if Acyclic(graph) {
      forall w: seq<Key> | |w| >= 2 && w[0] == w[|w| - 1]
        ensures exists i | 0 <= i < |w| - 1 :: !References(rows, edges, w[i], w[i + 1])
      {
        assert !ClosedWalk(graph, w);
        var i :| 0 <= i < |w| - 1 && !Edge(graph, w[i], w[i + 1]);
      }
    }
  }

  /** A cycle as it is reported: each key, with the path of the first row holding it. */
  ghost predicate ReportedCycle(rows: seq<RowKey>, edges: seq<Reference>, cycle: seq<(Key, string)>) {
    && |cycle| >= 2 && cycle[0] == cycle[|cycle| - 1]
    && (forall j | 0 <= j < |cycle| :: FirstHolder(rows, cycle[j].0, cycle[j].1))
    && (forall j | 1 <= j < |cycle| :: References(rows, edges, cycle[j - 1].0, cycle[j].0))
  }

  /** The graph of a table: its keys and their references in key order. */
  ghost predicate Laid(rows: seq<RowKey>, edges: seq<Reference>, starts: seq<Key>, graph: Graph) {
    InKeyOrder(starts, graph) && forall a, b :: Edge(graph, a, b) <==> References(rows, edges, a, b)
  }

  /** The keys of a reported cycle. */
  function KeysOf(cycle: seq<(Key, string)>): seq<Key> {
    seq(|cycle|, m requires 0 <= m < |cycle| => cycle[m].0)
  }

  /**
   The table is acyclic exactly when no cycle is reported, each cycle reported is one, and they
   are those the search of the table's graph in key order comes to.
   */
  method TableCycles(rows: seq<RowKey>, edges: seq<Reference>)
    returns (out: seq<seq<(Key, string)>>, ghost starts: seq<Key>, ghost graph: Graph)
    requires DistinctPaths(rows)
    ensures out == [] <==> TableAcyclic(rows, edges)
    ensures forall cycle | cycle in out :: ReportedCycle(rows, edges, cycle)
    ensures Laid(rows, edges, starts, graph)
    ensures SearchResult(starts, graph, seq(|out|, i requires 0 <= i < |out| => KeysOf(out[i])))
  {
    hide References, Follows, Acyclic, TableAcyclic, FirstHolder, ReportedCycle, ClosedWalk, Edge, InKeyOrder;
    var keyOfPath, paths := IndexRows(rows);
    var nodes, links := LinkKeys(edges, keyOfPath, paths);
    starts, graph := nodes, links;
    forall a, b ensures Edge(graph, a, b) <==> References(rows, edges, a, b) {
      FollowingIsReferring(rows, edges, keyOfPath, paths, a, b);
    }
    StartsAreNodes(nodes, links);
    var found := Search(nodes, links);
    hide SearchResult;
    TableWalks(rows, edges, graph);
    out := [];
    for i := 0 to |found|
      invariant |out| == i
      invariant forall cycle | cycle in out :: ReportedCycle(rows, edges, cycle)
      invariant forall j | 0 <= j < i :: KeysOf(out[j]) == found[j]
    {
      WithPaths(rows, edges, keyOfPath, paths, graph, found[i]);
      out := out + [seq(|found[i]|, m requires 0 <= m < |found[i]| => (found[i][m], paths[found[i][m]]))];
    }
    assert seq(|out|, i requires 0 <= i < |out| => KeysOf(out[i])) == found;
  }

  lemma StartsAreNodes(starts: seq<Key>, graph: Graph)
    requires InKeyOrder(starts, graph)
    ensures forall k :: k in starts <==> k in graph
  {
  }

  lemma WithPaths(
    rows: seq<RowKey>, edges: seq<Reference>, keyOfPath: map<string, Key>, paths: map<Key, string>, graph: Graph,
      w: seq<Key>)
    requires Indexed(rows, keyOfPath, paths) && Elementary(graph, w)
    requires forall a, b :: Edge(graph, a, b) <==> References(rows, edges, a, b)
    ensures forall m | 0 <= m < |w| :: w[m] in paths
    ensures ReportedCycle(rows, edges, seq(|w|, m requires 0 <= m < |w| => (w[m], paths[w[m]])))
  {
    forall m | 1 <= m < |w| ensures References(rows, edges, w[m - 1], w[m]) {
      assert Edge(graph, w[m - 1], w[m - 1 + 1]);
    }
    forall m | 0 <= m < |w| ensures w[m] in paths {
      var at := if m == 0 then |w| - 1 else m;
      assert References(rows, edges, w[at - 1], w[at]);
    }
  }
}
