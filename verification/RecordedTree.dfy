/** A revision's tree: brought up to date by what changed, it describes what building it from nothing would. */
module RecordedTree {
  import opened Json
  import opened Recording

  /** What a revision holds: hashes, the tables with their schemas, and the files kept beside the rows. */
  datatype Tree = Tree(
    format: Option<string>,
    config: Option<string>,
    tables: map<string, string>,
    extras: set<string>,
    rows: map<string, string>)

  /** The table a row's path is in. */
  function RowTable(path: string): string {
    if path == "" || path[0] == '/' then "" else [path[0]] + RowTable(path[1..])
  }

  /** The file a table's schema was read from: the first of its homes the tree keeps. */
  function HomeIn(tree: Tree, table: string): Option<string> {
    if Pin(table) in tree.extras then Some(Pin(table))
    else if Contract(table) in tree.extras then Some(Contract(table))
    else None
  }

  /** What a tree says is recorded at a path. */
  function TreeAt(tree: Tree, path: string): Option<Entry> {
    if path == FORMAT then Known("format", tree.format)
    else if path == CONFIG then Known("config", tree.config)
    else
      var table := TableOf(path);
      if table.None? then Known("row", At(tree.rows, path))
      else if table.value in tree.tables && HomeIn(tree, table.value) == Some(path)
        then Some(Entry("schema", tree.tables[table.value]))
      else None
  }

  /** Rows are rows, of tables the tree has, and schemas are at home. */
  ghost predicate ValidTree(tree: Tree) {
    && (forall p | p in tree.rows :: RowPath(p) && RowTable(p) in tree.tables)
    && (forall t | t in tree.tables :: TableName(t) && HomeIn(tree, t).Some?)
  }

  ghost predicate LiveRowsHaveTables(live: Live) {
    forall p | p in live.rows :: RowTable(p) in live.tables
  }

  ghost predicate Describes(tree: Tree, recorded: Recorded) {
    forall p :: TreeAt(tree, p) == At(recorded, p)
  }

  // ----- updating ---------------------------------------------------------------------------------

  /** What the store would refuse: a table or row added that is there, or changed or removed that is not. */
  ghost predicate Applies(tree: Tree, delta: Delta) {
    && (forall t | t in delta.tables && delta.tables[t].None? :: t in tree.tables)
    && (forall p | p in delta.rows :: delta.rows[p].Added? <==> p !in tree.rows)
    && (forall p | p in delta.rows && !delta.rows[p].Removed? :: Stays(tree, delta, RowTable(p)))
    && (forall p | p in tree.rows && !Stays(tree, delta, RowTable(p)) :: p in delta.rows && delta.rows[p].Removed?)
  }

  ghost predicate Stays(tree: Tree, delta: Delta, table: string) {
    if table in delta.tables then delta.tables[table].Some? else table in tree.tables
  }

  /** The delta between a live state and the one a tree describes applies to that tree. */
  lemma {:induction false} DeltaApplies(tree: Tree, delta: Delta, live: Live, recorded: Recorded)
    requires ValidTree(tree) && ValidLive(live) && LiveRowsHaveTables(live) && Describes(tree, recorded)
    requires IsDelta(delta, live, recorded)
    ensures ValidDelta(delta) && Applies(tree, delta)
  {
    hide TableOf, Pin, Contract, HomeIn, IsDelta, ValidTree, ValidLive, Describes, Stays, LiveRowsHaveTables;
    DeltaIsValid(delta, live, recorded);
    forall t | t in delta.tables && delta.tables[t].None?
      ensures t in tree.tables
    { TableApplies(tree, delta, live, recorded, t); }
    forall p
      ensures p in delta.rows ==>
        (delta.rows[p].Added? <==> p !in tree.rows) && (!delta.rows[p].Removed? ==> Stays(tree, delta, RowTable(p)))
      ensures p in tree.rows && !Stays(tree, delta, RowTable(p)) ==> p in delta.rows && delta.rows[p].Removed?
    {
      RowApplies(tree, delta, live, recorded, p);
    }
  }

  lemma {:induction false} TableApplies(tree: Tree, delta: Delta, live: Live, recorded: Recorded, table: string)
    requires ValidTree(tree) && ValidLive(live) && Describes(tree, recorded) && IsDelta(delta, live, recorded)
    ensures Stays(tree, delta, table) <==> table in live.tables
    ensures table in delta.tables && delta.tables[table].None? ==> table in tree.tables
  {
    hide TableOf, Pin, Contract, HomeIn, RowChangesAre, ValidTree, Describes;
    TableIsRecorded(tree, recorded, table);
    assert At(delta.tables, table) == SchemaChange(live, recorded, table);
  }

  lemma {:induction false} RowApplies(tree: Tree, delta: Delta, live: Live, recorded: Recorded, path: string)
    requires ValidTree(tree) && ValidLive(live) && LiveRowsHaveTables(live) && Describes(tree, recorded)
    requires IsDelta(delta, live, recorded)
    ensures path in delta.rows ==>
      (delta.rows[path].Added? <==> path !in tree.rows)
        && (!delta.rows[path].Removed? ==> Stays(tree, delta, RowTable(path)))
    ensures path in tree.rows && !Stays(tree, delta, RowTable(path)) ==> path in delta.rows && delta.rows[path].Removed?
  {
    hide TableOf, Pin, Contract, HomeIn;
    TableApplies(tree, delta, live, recorded, RowTable(path));
    hide Stays;
    assert TreeAt(tree, path) == At(recorded, path);
    assert At(delta.rows, path) == if RowPath(path) then RowChange(At(live.rows, path), HashAt(recorded, path))
      else None;
  }

  lemma {:induction false} TableIsRecorded(tree: Tree, recorded: Recorded, table: string)
    requires ValidTree(tree) && Describes(tree, recorded)
    ensures table in tree.tables <==> TableName(table) && (Pin(table) in recorded || Contract(table) in recorded)
  {
    hide TableOf, Pin, Contract;
    if TableName(table) {
      NamesAHome(table);
      assert TreeAt(tree, Pin(table)) == At(recorded, Pin(table))
        && TreeAt(tree, Contract(table)) == At(recorded, Contract(table));
    }
  }

  /** A table's schema, moved, set, or dropped with every row of the table. */
  function WithTable(tree: Tree, table: string, schema: Option<LiveSchema>): Tree {
    var without := tree.extras - {Pin(table), Contract(table)};
    if schema.Some?
      then tree.(tables := tree.tables[table := schema.value.hash], extras := without + {schema.value.path})
    else tree.(tables := tree.tables - {table}, extras := without, rows := map p | p in tree.rows
      && RowTable(p) != table :: tree.rows[p])
  }

  lemma {:induction false} WithTableAt(tree: Tree, table: string, schema: Option<LiveSchema>, path: string)
    requires TableName(table) && (schema.Some? ==> IsHome(schema.value.path, table))
    ensures var after := WithTable(tree, table, schema);
      TreeAt(after, path) ==
        if TableOf(path) == Some(table) then
          (if schema.Some? && schema.value.path == path then Some(Entry("schema", schema.value.hash)) else None)
        else if RowPath(path) && schema.None? && RowTable(path) == table then None
        else TreeAt(tree, path)
  {
    hide TableOf, Pin, Contract;
    NamesAHome(table);
    HomesAreApart();
    if TableOf(path).Some? {
      HomeOfTable(path);
      NamesAHome(TableOf(path).value);
    }
  }

  /** A tree so far updated: format and configuration, the tables done and the rows done. */
  ghost predicate Updated(tree: Tree, parent: Tree, delta: Delta, tables: set<string>, rows: set<string>) {
    forall p :: TreeAt(tree, p) == UpdatedAt(parent, delta, tables, rows, p)
  }

  ghost function UpdatedAt(
    parent: Tree, delta: Delta, tables: set<string>, rows: set<string>, path: string): Option<Entry>
  {
    if path == FORMAT || path == CONFIG then OverAt(parent, delta, path)
    else
      var table := TableOf(path);
      if table.Some? then (if table.value in tables then OverAt(parent, delta, path) else TreeAt(parent, path))
      else if path in rows || (RowTable(path) in tables && At(delta.tables, RowTable(path)) == Some(None))
        then OverAt(parent, delta, path)
      else TreeAt(parent, path)
  }

  /** What the delta records at a path, over what the parent holds. */
  ghost function OverAt(parent: Tree, delta: Delta, path: string): Option<Entry> {
    var change := ChangeAt(delta, path);
    if change.Some? then change.value else TreeAt(parent, path)
  }

  /** One row's change, as the tree takes it. */
  function WithRow(tree: Tree, path: string, change: RowDelta): Tree {
    match change
    case Added(hash) => tree.(rows := tree.rows[path := hash])
    case Modified(hash) => tree.(rows := tree.rows[path := hash])
    case Removed => tree.(rows := tree.rows - {path})
  }

  lemma TableDone(tree: Tree, parent: Tree, delta: Delta, tables: set<string>, table: string)
    requires ValidDelta(delta) && Applies(parent, delta) && ValidTree(parent)
    requires Updated(tree, parent, delta, tables, {}) && table in delta.tables && table !in tables
    ensures Updated(WithTable(tree, table, delta.tables[table]), parent, delta, tables + {table}, {})
  {
    hide TableOf, WithTable, TreeAt, Pin, Contract, HomeIn;
    forall p
      ensures TreeAt(WithTable(tree, table, delta.tables[table]), p)
        == UpdatedAt(parent, delta, tables + {table}, {}, p)
    {
      WithTableAt(tree, table, delta.tables[table], p);
      assert TreeAt(tree, p) == UpdatedAt(parent, delta, tables, {}, p);
      TableDoneAt(parent, delta, table, p);
    }
  }

  function SchemaAt(schema: Option<LiveSchema>, path: string): Option<Entry> {
    if schema.Some? && schema.value.path == path then Some(Entry("schema", schema.value.hash)) else None
  }

  /** What a table's own change records, and what dropping it does to its rows, is what the delta says of them. */
  lemma TableDoneAt(parent: Tree, delta: Delta, table: string, path: string)
    requires ValidDelta(delta) && Applies(parent, delta) && ValidTree(parent) && table in delta.tables
    ensures TableOf(path) == Some(table) ==> path != FORMAT && path != CONFIG
    ensures TableOf(path) == Some(table) ==> OverAt(parent, delta, path) == SchemaAt(delta.tables[table], path)
    ensures RowPath(path) && delta.tables[table].None? && RowTable(path) == table ==>
      OverAt(parent, delta, path) == None
  {
    hide TableOf, HomeIn;
    HomesAreApart();
  }

  lemma RowDone(tree: Tree, parent: Tree, delta: Delta, rows: set<string>, path: string)
    requires ValidDelta(delta) && Updated(tree, parent, delta, delta.tables.Keys, rows) && path in delta.rows
    requires path !in rows
    ensures Updated(WithRow(tree, path, delta.rows[path]), parent, delta, delta.tables.Keys, rows + {path})
  {
    hide TableOf, HomeIn;
    assert RowPath(path);
    RowKeepsHomes(tree, path, delta.rows[path]);
    var after := WithRow(tree, path, delta.rows[path]);
    forall p ensures TreeAt(after, p) == UpdatedAt(parent, delta, delta.tables.Keys, rows + {path}, p) {
      assert TreeAt(tree, p) == UpdatedAt(parent, delta, delta.tables.Keys, rows, p);
    }
  }

  lemma RowKeepsHomes(tree: Tree, path: string, change: RowDelta)
    ensures forall t :: HomeIn(WithRow(tree, path, change), t) == HomeIn(tree, t)
  {
  }

  /** A row's removal is recorded by its table's drop, when the table is dropped. */
  lemma RowSkipped(tree: Tree, parent: Tree, delta: Delta, rows: set<string>, path: string)
    requires ValidDelta(delta) && Updated(tree, parent, delta, delta.tables.Keys, rows) && path in delta.rows
    requires At(delta.tables, RowTable(path)) == Some(None)
    ensures Updated(tree, parent, delta, delta.tables.Keys, rows + {path})
  {
    hide TableOf, TreeAt;
    forall p ensures TreeAt(tree, p) == UpdatedAt(parent, delta, delta.tables.Keys, rows + {path}, p) {
      assert TreeAt(tree, p) == UpdatedAt(parent, delta, delta.tables.Keys, rows, p);
    }
  }

  /** The revision after one head: its tree, brought up to date by what changed. */
  method Prepare(parent: Tree, delta: Delta) returns (tree: Tree)
    requires ValidTree(parent) && ValidDelta(delta) && Applies(parent, delta)
    ensures ValidTree(tree) && forall p :: TreeAt(tree, p) == OverAt(parent, delta, p)
  {
    hide TableOf, Pin, Contract, TreeAt, ValidTree, ValidDelta, Applies, Updated, OverAt, WithTable, WithRow, HomeIn,
      Tabled;
    tree := parent;
    if delta.format.Some? { tree := tree.(format := delta.format.value); }
    if delta.config.Some? { tree := tree.(config := delta.config.value); }
    Begun(parent, delta, tree);
    var tables := delta.tables.Keys;
    ghost var done: set<string> := {};
    while tables != {}
      invariant tables + done == delta.tables.Keys && tables !! done
      invariant Updated(tree, parent, delta, done, {}) && Tabled(tree, parent, delta, done)
    {
      var table :| table in tables;
      TableKeepsValid(tree, parent, delta, done, table);
      TableDone(tree, parent, delta, done, table);
      tree := WithTable(tree, table, delta.tables[table]);
      tables := tables - {table};
      done := done + {table};
    }
    var rows := delta.rows.Keys;
    ghost var seen: set<string> := {};
    while rows != {}
      invariant rows + seen == delta.rows.Keys && rows !! seen
      invariant Updated(tree, parent, delta, delta.tables.Keys, seen)
      invariant Tabled(tree, parent, delta, delta.tables.Keys)
    {
      var path :| path in rows;
      RowKeepsValid(tree, parent, delta, path);
      var dropped := At(delta.tables, RowTable(path)) == Some(None);
      if dropped && delta.rows[path].Removed? {
        RowSkipped(tree, parent, delta, seen, path);
      } else {
        RowDone(tree, parent, delta, seen, path);
        tree := WithRow(tree, path, delta.rows[path]);
      }
      rows := rows - {path};
      seen := seen + {path};
    }
    AllDone(tree, parent, delta);
  }

  /** A valid tree, of the parent's tables but for those done, which are as the delta leaves them. */
  ghost predicate Tabled(tree: Tree, parent: Tree, delta: Delta, done: set<string>) {
    && ValidTree(tree)
    && forall t ::
      t in tree.tables <==> if t in done && t in delta.tables then delta.tables[t].Some? else t in parent.tables
  }

  lemma TableKeepsValid(tree: Tree, parent: Tree, delta: Delta, done: set<string>, table: string)
    requires ValidDelta(delta) && Tabled(tree, parent, delta, done) && table in delta.tables && table !in done
    ensures Tabled(WithTable(tree, table, delta.tables[table]), parent, delta, done + {table})
  {
    hide TableOf, Pin, Contract, RowTable;
    NamesAHome(table);
    var schema, after := delta.tables[table], WithTable(tree, table, delta.tables[table]);
    forall t | t in after.tables ensures TableName(t) && HomeIn(after, t).Some? {
      assert t != table ==> t in tree.tables && HomeIn(tree, t).Some?;
      if TableName(t) { NamesAHome(t); }
    }
  }

  lemma RowKeepsValid(tree: Tree, parent: Tree, delta: Delta, path: string)
    requires ValidDelta(delta) && Applies(parent, delta) && Tabled(tree, parent, delta, delta.tables.Keys)
    requires path in delta.rows
    ensures Tabled(WithRow(tree, path, delta.rows[path]), parent, delta, delta.tables.Keys)
  {
    hide TableOf, Pin, Contract, RowTable, HomeIn;
    RowKeepsHomes(tree, path, delta.rows[path]);
    assert !delta.rows[path].Removed? ==> Stays(parent, delta, RowTable(path));
  }

  lemma Begun(parent: Tree, delta: Delta, tree: Tree)
    requires ValidDelta(delta)
    requires tree == parent.(
      format := if delta.format.Some? then delta.format.value else parent.format,
      config := if delta.config.Some? then delta.config.value else parent.config)
    ensures Updated(tree, parent, delta, {}, {})
    ensures ValidTree(parent) ==> Tabled(tree, parent, delta, {})
  {
    hide TableOf, HomeIn;
    assert FORMAT != CONFIG by { HomesAreApart(); }
    assert forall t :: HomeIn(tree, t) == HomeIn(parent, t) by { SameHomes(tree, parent); }
  }

  lemma SameHomes(tree: Tree, parent: Tree)
    requires tree.extras == parent.extras
    ensures forall t :: HomeIn(tree, t) == HomeIn(parent, t)
  {
  }

  lemma AllDone(tree: Tree, parent: Tree, delta: Delta)
    requires ValidDelta(delta) && Updated(tree, parent, delta, delta.tables.Keys, delta.rows.Keys)
    requires Tabled(tree, parent, delta, delta.tables.Keys)
    ensures ValidTree(tree)
    ensures forall p :: TreeAt(tree, p) == OverAt(parent, delta, p)
  {
    hide TreeAt;
    forall p ensures TreeAt(tree, p) == OverAt(parent, delta, p) {
      assert TreeAt(tree, p) == UpdatedAt(parent, delta, delta.tables.Keys, delta.rows.Keys, p);
    }
  }

  // ----- the same as building from nothing ------------------------------------------------------------------

  /** The tree built from the whole live state. */
  function Built(live: Live): Tree {
    Tree(live.format, live.config,
      map t | t in live.tables :: live.tables[t].hash,
      set t | t in live.tables :: live.tables[t].path,
      live.rows)
  }

  lemma {:induction false} BuiltDescribesLive(live: Live, path: string)
    requires ValidLive(live)
    ensures TreeAt(Built(live), path) == LiveAt(live, path)
  {
    hide TableOf, Pin, Contract;
    HomesAreApart();
    var table := TableOf(path);
    if table.Some? && table.value in live.tables {
      HomeOfTable(path);
      NamesAHome(table.value);
      OnlyItsHome(live, table.value);
    }
  }

  lemma OnlyItsHome(live: Live, table: string)
    requires ValidLive(live) && table in live.tables
    ensures forall home | IsHome(home, table) :: home in Built(live).extras <==> home == live.tables[table].path
  {
    hide TableOf, Pin, Contract;
    forall t, home | t in live.tables && live.tables[t].path == home && IsHome(home, table) ensures t == table {
      NamesAHome(t);
      NamesAHome(table);
    }
  }

  /** From a head that describes what is recorded, the update describes what building from nothing would. */
  lemma {:induction false} UpdateIsRebuild(
    parent: Tree, tree: Tree, delta: Delta, live: Live, recorded: Recorded, path: string)
    requires ValidTree(parent) && ValidLive(live) && ValidRecorded(recorded) && Describes(parent, recorded)
    requires IsDelta(delta, live, recorded) && TreeAt(tree, path) == OverAt(parent, delta, path)
    ensures TreeAt(tree, path) == TreeAt(Built(live), path) == LiveAt(live, path)
  {
    hide TableOf, Pin, Contract, TreeAt, ValidTree;
    BuiltDescribesLive(live, path);
    assert TreeAt(parent, path) == At(recorded, path);
    HomesAreApart();
    assert At(delta.rows, path) == if RowPath(path) then RowChange(At(live.rows, path), HashAt(recorded, path))
      else None;
    if TableOf(path).Some? {
      var table := TableOf(path).value;
      HomeOfTable(path);
      assert At(delta.tables, table) == SchemaChange(live, recorded, table);
      OneHomeRecorded(parent, recorded, table);
    }
  }

  /** A tree names one file for a table's schema. */
  lemma OneHomeRecorded(tree: Tree, recorded: Recorded, table: string)
    requires Describes(tree, recorded) && TableName(table)
    ensures !(Pin(table) in recorded && Contract(table) in recorded)
  {
    hide TableOf, Pin, Contract;
    NamesAHome(table);
    assert TreeAt(tree, Pin(table)) == At(recorded, Pin(table))
      && TreeAt(tree, Contract(table)) == At(recorded, Contract(table));
  }

  // ----- following the head ------------------------------------------------------------------------------------

  /** How one tree's rows differ from another's: only the paths that do. */
  function RowDiff(before: Tree, after: Tree): map<string, Option<string>> {
    map p | p in before.rows.Keys + after.rows.Keys && At(before.rows, p) != At(after.rows, p) :: At(after.rows, p)
  }

  /** What a tree holds that is not a row. */
  ghost predicate NonRowsOf(entries: Recorded, tree: Tree) {
    forall p :: At(entries, p) == if RowPath(p) then None else TreeAt(tree, p)
  }

  /** What a tree holds that is not a row, of the format, the configuration and the tables done. */
  ghost predicate NonRowsTo(entries: Recorded, tree: Tree, done: set<string>) {
    forall p :: At(entries, p) == NonRowTo(tree, done, p)
  }

  ghost function NonRowTo(tree: Tree, done: set<string>, path: string): Option<Entry> {
    if path == FORMAT || path == CONFIG || (TableOf(path).Some? && TableOf(path).value in done)
    then TreeAt(tree, path) else None
  }

  function FixedAt(tree: Tree, path: string): Option<Entry> {
    if path == FORMAT then Known("format", tree.format)
    else if path == CONFIG then Known("config", tree.config)
    else None
  }

  /** Read off a tree what it holds that is not a row: nothing, if it keeps a table without the file of its schema. */
  method ReadNonRows(tree: Tree) returns (entries: Option<Recorded>)
    requires forall t | t in tree.tables :: TableName(t)
    ensures entries.Some? <==> forall t | t in tree.tables :: HomeIn(tree, t).Some?
    ensures entries.Some? ==> NonRowsOf(entries.value, tree)
  {
    hide TableOf, TreeAt, HomeIn, NonRowsTo, Pin, Contract;
    HomesAreApart();
    var out: Recorded := map[];
    if tree.format.Some? { out := out[FORMAT := Entry("format", tree.format.value)]; }
    if tree.config.Some? { out := out[CONFIG := Entry("config", tree.config.value)]; }
    NoTables(tree, out);
    var left := tree.tables.Keys;
    ghost var done: set<string> := {};
    while left != {}
      invariant left + done == tree.tables.Keys && left !! done
      invariant forall t | t in done :: HomeIn(tree, t).Some?
      invariant NonRowsTo(out, tree, done)
    {
      var table :| table in left;
      var home := HomeIn(tree, table);
      if home.None? { return None; }
      OneMoreTable(tree, out, done, table);
      out := out[home.value := Entry("schema", tree.tables[table])];
      left := left - {table};
      done := done + {table};
    }
    AllTables(tree, out);
    entries := Some(out);
  }

  lemma NoTables(tree: Tree, entries: Recorded)
    requires forall p :: At(entries, p) == FixedAt(tree, p)
    ensures NonRowsTo(entries, tree, {})
  {
    hide TableOf;
    HomesAreApart();
  }

  lemma OneMoreTable(tree: Tree, entries: Recorded, done: set<string>, table: string)
    requires NonRowsTo(entries, tree, done) && table in tree.tables && table !in done && TableName(table)
    requires HomeIn(tree, table).Some?
    ensures NonRowsTo(entries[HomeIn(tree, table).value := Entry("schema", tree.tables[table])], tree, done + {table})
  {
    hide TableOf, Pin, Contract;
    NamesAHome(table);
    HomesAreApart();
    var home := HomeIn(tree, table).value;
    var more := entries[home := Entry("schema", tree.tables[table])];
    forall p ensures At(more, p) == NonRowTo(tree, done + {table}, p) {
      assert At(entries, p) == NonRowTo(tree, done, p);
      if TableOf(p) == Some(table) { HomeOfTable(p); }
    }
  }

  lemma AllTables(tree: Tree, entries: Recorded)
    requires NonRowsTo(entries, tree, tree.tables.Keys)
    ensures NonRowsOf(entries, tree)
  {
    hide TableOf, HomeIn;
    HomesAreApart();
    forall p ensures At(entries, p) == if RowPath(p) then None else TreeAt(tree, p) {
      assert At(entries, p) == NonRowTo(tree, tree.tables.Keys, p);
    }
  }

  /** Bring the recorded set in line with a tree, by its difference from the tree it described. */
  method SyncByDifference(recorded: Recorded, previous: Tree, tree: Tree, nonRows: Recorded)
    returns (changes: map<string, Option<Entry>>)
    requires ValidTree(previous) && ValidTree(tree) && ValidRecorded(recorded) && NonRowsOf(nonRows, tree)
    requires forall p | RowPath(p) :: At(recorded, p) == TreeAt(previous, p)
    ensures forall p :: Patched(recorded, changes, p) == TreeAt(tree, p)
  {
    hide TableOf, TreeAt, RowPath, KindOf, NonRowsOf, ValidRecorded, ValidTree, Replaced, Patched, Known;
    NothingReplaced(recorded, nonRows, map p | p in RowDiff(previous, tree) ::
      Known("row", RowDiff(previous, tree)[p]));
    var diff := RowDiff(previous, tree);
    changes := map p | p in diff :: Known("row", diff[p]);
    ghost var rowChanges := changes;
    var keys := recorded.Keys;
    ghost var seen: set<string> := {};
    while keys != {}
      invariant keys + seen == recorded.Keys && keys !! seen
      invariant forall p :: At(changes, p) == Replaced(recorded, nonRows, rowChanges, seen, p)
    {
      var key :| key in keys;
      ReplacedOneMore(recorded, nonRows, rowChanges, seen, key);
      if recorded[key].kind != "row"
        && At(nonRows, key) != Some(recorded[key]) { changes := changes[key := At(nonRows, key)]; }
      keys := keys - {key};
      seen := seen + {key};
    }
    var rest := nonRows.Keys;
    ghost var added: set<string> := {};
    ghost var replaced := changes;
    while rest != {}
      invariant rest + added == nonRows.Keys && rest !! added
      invariant forall p ::
        At(changes, p) == if p in added && p !in replaced then Some(At(nonRows, p)) else At(replaced, p)
    {
      var key :| key in rest;
      if key !in changes { changes := changes[key := Some(nonRows[key])]; }
      rest := rest - {key};
      added := added + {key};
    }
    forall p ensures Patched(recorded, changes, p) == TreeAt(tree, p) {
      SyncsAt(recorded, previous, tree, nonRows, rowChanges, replaced, changes, p);
    }
  }

  /** The row changes, and over them what is not a row and was recorded otherwise. */
  ghost function Replaced(
    recorded: Recorded, nonRows: Recorded, rowChanges: map<string, Option<Entry>>, seen: set<string>,
      path: string): Option<Option<Entry>>
  {
    if path in seen && path in recorded && recorded[path].kind != "row" && At(nonRows, path) != At(recorded, path)
    then Some(At(nonRows, path)) else At(rowChanges, path)
  }

  lemma NothingReplaced(recorded: Recorded, nonRows: Recorded, rowChanges: map<string, Option<Entry>>)
    ensures forall p :: Replaced(recorded, nonRows, rowChanges, {}, p) == At(rowChanges, p)
  {
  }

  lemma ReplacedOneMore(
    recorded: Recorded, nonRows: Recorded, rowChanges: map<string, Option<Entry>>, seen: set<string>, key: string)
    requires key in recorded && key !in seen
    ensures forall p | p != key ::
      Replaced(recorded, nonRows, rowChanges, seen + {key}, p) == Replaced(recorded, nonRows, rowChanges, seen, p)
    ensures Replaced(recorded, nonRows, rowChanges, seen, key) == At(rowChanges, key)
    ensures Replaced(recorded, nonRows, rowChanges, seen + {key}, key)
         == if recorded[key].kind != "row" && At(nonRows, key) != Some(recorded[key]) then Some(At(nonRows, key))
           else At(rowChanges, key)
  {
  }

  lemma SyncsAt(
    recorded: Recorded, previous: Tree, tree: Tree, nonRows: Recorded,
    rowChanges: map<string, Option<Entry>>, replaced: map<string, Option<Entry>>, changes: map<string, Option<Entry>>,
      path: string)
    requires ValidTree(previous) && ValidTree(tree) && ValidRecorded(recorded) && NonRowsOf(nonRows, tree)
    requires RowPath(path) ==> At(recorded, path) == TreeAt(previous, path)
    requires var diff := RowDiff(previous, tree); rowChanges == map p | p in diff :: Known("row", diff[p])
    requires At(replaced, path) == Replaced(recorded, nonRows, rowChanges, recorded.Keys, path)
    requires At(changes, path) == if path in nonRows.Keys && path !in replaced then Some(At(nonRows, path))
      else At(replaced, path)
    ensures Patched(recorded, changes, path) == TreeAt(tree, path)
  {
    hide TableOf, HomeIn;
    RowsAreByKind(recorded);
    assert At(nonRows, path) == if RowPath(path) then None else TreeAt(tree, path);
    if !RowPath(path) { assert path !in previous.rows && path !in tree.rows; }
  }

  // ----- recording, one revision after another ----------------------------------------------------

  /** What a tree describes is recorded under the kinds paths have. */
  lemma DescribedIsValid(tree: Tree, recorded: Recorded)
    requires Describes(tree, recorded)
    ensures ValidRecorded(recorded)
  {
    hide TableOf, HomeIn;
    HomesAreApart();
    forall p | p in recorded ensures recorded[p].kind == KindOf(p) {
      assert TreeAt(tree, p) == At(recorded, p);
    }
  }

  lemma OneHomeWhereDescribed(tree: Tree, live: Live, recorded: Recorded)
    requires ValidLive(live) && Describes(tree, recorded)
    ensures OneHomeEach(live, recorded)
  {
    hide TableOf, TreeAt, Describes, Pin, Contract;
    forall t | t in live.tables && HashAt(recorded, live.tables[t].path) == Some(live.tables[t].hash)
      ensures OneHome(live, recorded, t)
    {
      OneHomeRecorded(tree, recorded, t);
    }
  }

  /**
   From what a tree describes, recording the difference leaves exactly the live
   state, and the tree brought up to date describes it.
   */
  lemma {:induction false} RecordingStaysDescribed(
    parent: Tree, tree: Tree, delta: Delta, live: Live, recorded: Recorded,
    changes: map<string, Option<Entry>>, after: Recorded)
    requires ValidTree(parent) && ValidLive(live) && Describes(parent, recorded) && IsDelta(delta, live, recorded)
    requires forall p :: At(changes, p) == ChangeAt(delta, p)
    requires forall p :: TreeAt(tree, p) == OverAt(parent, delta, p)
    requires forall p :: At(after, p) == Patched(recorded, changes, p)
    ensures forall p :: At(after, p) == LiveAt(live, p)
    ensures Describes(tree, after)
  {
    hide TableOf, TreeAt, IsDelta, ChangeAt, OverAt, LiveAt, ValidTree, Patched;
    DescribedIsValid(parent, recorded);
    OneHomeWhereDescribed(parent, live, recorded);
    RecordingIsExact(delta, live, recorded, changes);
    forall p ensures TreeAt(tree, p) == At(after, p) == LiveAt(live, p) {
      UpdateIsRebuild(parent, tree, delta, live, recorded, p);
    }
  }

  /** Record the live state over one head: its difference, the tree it makes, and the mirror's copy of the head. */
  method Record(live: Live, head: RecordedHead, parent: Tree) returns (tree: Tree)
    requires head.Valid() && Mirrors(head, live) && ValidLive(live) && LiveRowsHaveTables(live)
    requires ValidTree(parent) && Describes(parent, head.recorded)
    modifies head
    ensures head.Valid() && Mirrors(head, live)
    ensures ValidTree(tree) && Describes(tree, head.recorded)
    ensures forall p :: At(head.recorded, p) == LiveAt(live, p)
  {
    hide TableOf, TreeAt, IsDelta, ChangeAt, OverAt, LiveAt, ValidTree, ValidLive, Describes, ValidRecorded, Applies,
      ValidDelta, LiveRowsHaveTables, Patched;
    ghost var recorded := head.recorded;
    DescribedIsValid(parent, recorded);
    var delta := Pending(live, head);
    DeltaApplies(parent, delta, live, recorded);
    var changes := RecordedChanges(delta);
    tree := Prepare(parent, delta);
    head.ApplyRecorded(changes);
    RecordingStaysDescribed(parent, tree, delta, live, recorded, changes, head.recorded);
  }

  /** What a store keeps of a tree: rows of tables, and tables with names. */
  ghost predicate Stored(tree: Tree) {
    && (forall p | p in tree.rows :: RowPath(p) && RowTable(p) in tree.tables)
    && (forall t | t in tree.tables :: TableName(t))
  }

  /**
   Bring the mirror's copy of the head in line with a head's tree: by its
   difference from the tree the copy describes, where that is still held, or
   wholesale. Refused, with nothing changed, where the tree keeps a table's
   schema and not the file it was read from.
   */
  method Sync(head: RecordedHead, previous: Option<Tree>, tree: Tree) returns (synced: bool)
    requires head.Valid() && Stored(tree)
    requires previous.Some? ==> ValidTree(previous.value) && Describes(previous.value, head.recorded)
    modifies head
    ensures head.Valid() && head.files == old(head.files)
    ensures synced <==> forall t | t in tree.tables :: HomeIn(tree, t).Some?
    ensures synced ==> ValidTree(tree) && Describes(tree, head.recorded)
    ensures !synced ==> head.recorded == old(head.recorded)
  {
    hide TableOf, TreeAt, HomeIn, NonRowsOf, Patched, RowPath;
    var read := ReadNonRows(tree);
    if read.None? { return false; }
    var nonRows := read.value;
    if previous.Some? {
      DescribedIsValid(previous.value, head.recorded);
      var changes := SyncByDifference(head.recorded, previous.value, tree, nonRows);
      head.ApplyRecorded(changes);
    } else {
      WholesaleDescribes(tree, nonRows);
      head.ReplaceRecorded(nonRows + map p | p in tree.rows :: Entry("row", tree.rows[p]));
    }
    synced := true;
  }

  lemma WholesaleDescribes(tree: Tree, nonRows: Recorded)
    requires Stored(tree) && NonRowsOf(nonRows, tree)
    ensures Describes(tree, nonRows + map p | p in tree.rows :: Entry("row", tree.rows[p]))
  {
    hide TableOf, HomeIn;
    var entries := nonRows + map p | p in tree.rows :: Entry("row", tree.rows[p]);
    forall p ensures TreeAt(tree, p) == At(entries, p) {
      assert At(nonRows, p) == if RowPath(p) then None else TreeAt(tree, p);
    }
  }

}
