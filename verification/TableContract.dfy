/** The observed contract of a table: the shape of its rows, which are always records of columns. */
module TableContract {
  import opened Json
  import opened Sequences
  import opened Order
  import opened Shapes
  import opened Tallies
  import opened Inference

  datatype Row = Row(path: string, columns: map<string, Value>)

  datatype Contract =
    | Contract(shape: Shape, rows: nat)
    | DuplicatePath(path: string)

  function ByPath(a: Row, b: Row): Ordering {
    CompareStrings(a.path, b.path)
  }

  /** The first path two neighbours share. */
  function FirstRepeat(rows: seq<Row>): Option<string> {
    if |rows| < 2 then None
    else if rows[0].path == rows[1].path then Some(rows[0].path)
    else FirstRepeat(rows[1..])
  }

  ghost function TallyRows(rows: seq<Row>): ObjectTally {
    if rows == [] then NOBODY
    else AddObject(TallyRows(rows[..|rows| - 1]), rows[|rows| - 1].columns)
  }

  /** Rows are observed in path order; map-likeness is judged below the row, never of the row itself. */
  ghost function FromRows(rows: seq<Row>): Contract {
    var sorted := Sort(ByPath, rows);
    match FirstRepeat(sorted)
    case Some(path) => DuplicatePath(path)
    case None => Contract(BOTTOM.(obj := Some(ObjectShapeOf(TallyRows(sorted), false))), |rows|)
  }

  lemma ByPathIsPreorder()
    ensures Preorder(ByPath)
  {
    forall a, b ensures ByPath(a, b) == ByPath(b, a).Reverse() {
      StringsEqual(a.path, b.path);
    }
    forall a, b, c | ByPath(a, b) != Greater && ByPath(b, c) != Greater ensures ByPath(a, c) != Greater {
      StringsEqual(a.path, b.path);
      StringsEqual(b.path, c.path);
      if ByPath(a, b) == Less && ByPath(b, c) == Less {
        StringsTransitive(a.path, b.path, c.path);
      }
    }
  }

  lemma {:induction false} FirstRepeatFindsLeast(rows: seq<Row>)
    requires SortedBy(ByPath, rows)
    ensures FirstRepeat(rows).None? <==> forall i, j | 0 <= i < j < |rows| :: rows[i].path != rows[j].path
    ensures FirstRepeat(rows).Some? ==>
      && (exists i, j | 0 <= i < j < |rows| :: rows[i].path == rows[j].path == FirstRepeat(rows).value)
      && (forall i, j | 0 <= i < j < |rows| && rows[i].path == rows[j].path ::
            CompareStrings(FirstRepeat(rows).value, rows[i].path) != Greater)
  {
    if |rows| >= 2 {
      var rest := rows[1..];
      assert forall i | 0 <= i < |rest| :: rest[i] == rows[i + 1];
      FirstRepeatFindsLeast(rest);
      forall i, j | 0 <= i < j < |rows| && rows[i].path == rows[j].path
        ensures i == 0 ==> rows[0].path == rows[1].path
        ensures i > 0 ==> rest[i - 1].path == rest[j - 1].path
      {
        if i == 0 {
          StringsEqual(rows[0].path, rows[1].path);
          StringsEqual(rows[0].path, rows[j].path);
          assert ByPath(rows[0], rows[1]) != Greater;
          if j > 1 {
            assert ByPath(rows[1], rows[j]) != Greater;
          }
        }
      }
      if rows[0].path == rows[1].path {
        forall i | 0 <= i < |rows| ensures CompareStrings(rows[0].path, rows[i].path) != Greater {
          StringsEqual(rows[0].path, rows[0].path);
          assert i > 0 ==> ByPath(rows[0], rows[i]) != Greater;
        }
      }
    }
  }

  function AsValue(row: Row): Value {
    Object(row.columns)
  }

  lemma {:induction false} RowsAreTalliedAsObjects(rows: seq<Row>)
    requires rows != []
    ensures TallyOf(Apply(AsValue, rows)).obj == Some(TallyRows(rows))
  {
    var front := rows[..|rows| - 1];
    assert Apply(AsValue, rows)[..|rows| - 1] == Apply(AsValue, front);
    if front == [] {
      assert Apply(AsValue, front) == [];
    } else {
      RowsAreTalliedAsObjects(front);
    }
  }

  /** Two rows of one path are refused, naming the least such path; nothing else is. */
  lemma FromRowsRefusesSharedPaths(rows: seq<Row>)
    ensures FromRows(rows).DuplicatePath? <==> exists i, j | 0 <= i < j < |rows| :: rows[i].path == rows[j].path
    ensures FromRows(rows).DuplicatePath? ==>
      forall i, j | 0 <= i < j < |rows| && rows[i].path == rows[j].path ::
        CompareStrings(FromRows(rows).path, rows[i].path) != Greater
  {
    var sorted := Sort(ByPath, rows);
    ByPathIsPreorder();
    SortSorts(ByPath, rows);
    SortKeepsAll(ByPath, rows);
    FirstRepeatFindsLeast(sorted);
    forall i, j | 0 <= i < j < |rows| && rows[i].path == rows[j].path
      ensures exists m, n | 0 <= m < n < |sorted| :: sorted[m].path == sorted[n].path == rows[i].path
    {
      var m, n := TwoPlaces(rows, sorted, i, j);
    }
    forall i, j | 0 <= i < j < |sorted| && sorted[i].path == sorted[j].path
      ensures exists m, n | 0 <= m < n < |rows| :: rows[m].path == rows[n].path
    {
      var m, n := TwoPlaces(sorted, rows, i, j);
    }
  }

  /** Two places of one arrangement are two places of any other. */
  lemma TwoPlaces(xs: seq<Row>, ys: seq<Row>, i: nat, j: nat) returns (m: nat, n: nat)
    requires multiset(xs) == multiset(ys) && i < j < |xs| && xs[i].path == xs[j].path
    ensures m < n < |ys| && ys[m].path == ys[n].path == xs[i].path
  {
    assert xs[i] in multiset(ys);
    m :| 0 <= m < |ys| && ys[m] == xs[i];
    WithoutLosesOne(xs, i);
    WithoutLosesOne(ys, m);
    CancelOne(multiset(Without(ys, m)), multiset(Without(xs, i)), xs[i]);
    assert xs[j] == Without(xs, i)[j - 1];
    assert xs[j] in multiset(Without(ys, m));
    var k :| 0 <= k < |Without(ys, m)| && Without(ys, m)[k] == xs[j];
    n := if k < m then k else k + 1;
    if n < m { m, n := n, m; }
  }

  /** A table's contract is a record that admits each of its rows. */
  lemma FromRowsAdmitsItsRows(rows: seq<Row>, i: nat)
    requires i < |rows| && FromRows(rows).Contract?
    ensures Admits(FromRows(rows).shape, Object(rows[i].columns))
    ensures FromRows(rows).shape.obj.Some? && FromRows(rows).shape.obj.value.Record?
  {
    hide Sort, FirstRepeat, Sound, Covers, Add, AddObject, TallyOf, TallyRows, ObjectBelow, TallyHeight, MembersHeight,
      MapLike;
    var sorted := Sort(ByPath, rows);
    SortKeepsAll(ByPath, rows);
    assert rows[i] in multiset(sorted);
    var k :| 0 <= k < |sorted| && sorted[k] == rows[i];
    var values := Apply(AsValue, sorted);
    TallyOfCovers(values);
    RowsAreTalliedAsObjects(sorted);
    assert values[k] == Object(rows[i].columns);
    CoveredObjectIsBelow(TallyRows(sorted), rows[i].columns, false, TallyOf(values));
    LeIsBelow(Observe(Object(rows[i].columns)), FromRows(rows).shape);
  }

  /** A table with no rows has no columns: its contract admits only `{}`. */
  lemma EmptyTableAdmitsOnlyEmptyRows(v: Value)
    ensures FromRows([]).Contract? && (Admits(FromRows([]).shape, v) <==> v == Object(map[]))
  {
    LeIsBelow(Observe(v), FromRows([]).shape);
  }

  function PathOf(row: Row): string {
    row.path
  }

  lemma SamePathsInOrder(left: seq<Row>, right: seq<Row>)
    requires multiset(left) == multiset(right)
    requires SortedBy(ByPath, left) && SortedBy(ByPath, right)
    ensures FirstRepeat(left) == FirstRepeat(right)
  {
    ApplyPermutation(PathOf, left, right);
    StringsAreTotal();
    SortedIsUnique(CompareStrings, Apply(PathOf, left), Apply(PathOf, right));
    RepeatIsOfPaths(left, right);
  }

  lemma {:induction false} RepeatIsOfPaths(left: seq<Row>, right: seq<Row>)
    requires Apply(PathOf, left) == Apply(PathOf, right)
    ensures FirstRepeat(left) == FirstRepeat(right)
  {
    assert |left| == |Apply(PathOf, left)| == |right|;
    if |left| >= 2 {
      assert forall i | 0 <= i < |left| :: left[i].path == Apply(PathOf, left)[i] == right[i].path;
      assert Apply(PathOf, left[1..]) == Apply(PathOf, right[1..]);
      RepeatIsOfPaths(left[1..], right[1..]);
    }
  }

  /** The contract depends on the folder's contents, not on the order it was listed in. */
  lemma FromRowsIgnoresOrder(xs: seq<Row>, ys: seq<Row>)
    requires multiset(xs) == multiset(ys)
    ensures FromRows(xs) == FromRows(ys)
  {
    var left, right := Sort(ByPath, xs), Sort(ByPath, ys);
    SortKeepsAll(ByPath, xs);
    SortKeepsAll(ByPath, ys);
    assert |xs| == |multiset(xs)| == |multiset(ys)| == |ys|;
    ByPathIsPreorder();
    SortSorts(ByPath, xs);
    SortSorts(ByPath, ys);
    SamePathsInOrder(left, right);
    assert |left| == |multiset(left)| == |multiset(right)| == |right|;
    if left != [] {
      ApplyPermutation(AsValue, left, right);
      TallyOfPermutation(Apply(AsValue, left), Apply(AsValue, right));
      RowsAreTalliedAsObjects(left);
      RowsAreTalliedAsObjects(right);
    }
  }
}
