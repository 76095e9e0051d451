/** What recorded history holds of a database, how the live state differs from it, and what that difference records. */
module Recording {
  import opened Json

  /** A recorded file: what it is, and the hash of what it says. */
  datatype Entry = Entry(kind: string, hash: string)

  /** The files recorded history holds, by path. */
  type Recorded = map<string, Entry>

  /** A table's schema: the file it is read from, and its hash. */
  datatype LiveSchema = LiveSchema(path: string, hash: string)

  datatype Live = Live(format: Option<string>, config: Option<string>, tables: map<string, LiveSchema>,
    rows: map<string, string>)

  datatype RowDelta = Added(hash: string) | Modified(hash: string) | Removed

  /** How the live state differs from the recorded one. A format or configuration changed to nothing is gone. */
  datatype Delta = Delta(
    format: Option<Option<string>>,
    config: Option<Option<string>>,
    tables: map<string, Option<LiveSchema>>,
    rows: map<string, RowDelta>)

  const NO_DELTA := Delta(None, None, map[], map[])

  // ----- paths ---------------------------------------------------------------------------------

  const FORMAT := ".db/format"
  const CONFIG := ".db/config"
  const PINS := "schema/"
  const CONTRACTS := ".db/schema/"
  const JSON := ".json"

  function Pin(table: string): string { PINS + table + JSON }

  function Contract(table: string): string { CONTRACTS + table + JSON }

  predicate IsHome(path: string, table: string) {
    path == Pin(table) || path == Contract(table)
  }

  function NameUnder(path: string, folder: string): Option<string> {
    if |path| > |folder| + |JSON| && folder <= path && path[|path| - |JSON|..] == JSON
      && '/' !in path[|folder|..|path| - |JSON|]
    then Some(path[|folder|..|path| - |JSON|]) else None
  }

  /** The table a schema file governs, if it is one. */
  function TableOf(path: string): Option<string> {
    var pinned := NameUnder(path, PINS);
    if pinned.Some? then pinned else NameUnder(path, CONTRACTS)
  }

  predicate TableName(table: string) {
    table != "" && '/' !in table
  }

  predicate RowPath(path: string) {
    path != FORMAT && path != CONFIG && TableOf(path) == None
  }

  lemma NamesAHome(table: string)
    requires TableName(table)
    ensures TableOf(Pin(table)) == Some(table) == TableOf(Contract(table))
    ensures Pin(table) != Contract(table)
    ensures Pin(table) != FORMAT && Contract(table) != FORMAT && Pin(table) != CONFIG && Contract(table) != CONFIG
  {
    Named(PINS, table);
    Named(CONTRACTS, table);
    assert Pin(table)[0] == 's' && Contract(table)[0] == '.' && FORMAT[0] == '.' && CONFIG[0] == '.';
    assert Contract(table)[4] == 's' && FORMAT[4] == 'f' && CONFIG[4] == 'c';
    assert PINS[0] != Contract(table)[0];
  }

  lemma Named(folder: string, table: string)
    requires TableName(table)
    ensures NameUnder(folder + table + JSON, folder) == Some(table)
  {
    var path := folder + table + JSON;
    assert path[|path| - |JSON|..] == JSON && path[|folder|..|path| - |JSON|] == table;
  }

  lemma HomeOfTable(path: string)
    requires TableOf(path).Some?
    ensures IsHome(path, TableOf(path).value) && TableName(TableOf(path).value)
    ensures path != FORMAT && path != CONFIG
  {
    var table := TableOf(path).value;
    if NameUnder(path, PINS).Some? {
      SpelledOut(path, PINS);
    } else {
      SpelledOut(path, CONTRACTS);
    }
    NamesAHome(table);
  }

  lemma SpelledOut(path: string, folder: string)
    requires NameUnder(path, folder).Some?
    ensures path == folder + NameUnder(path, folder).value + JSON && TableName(NameUnder(path, folder).value)
  {
    var n, m := |folder|, |path| - |JSON|;
    assert path == path[..n] + path[n..m] + path[m..];
  }

  // ----- what is live, and what is recorded, at a path -----------------------------------------------

  ghost predicate ValidLive(live: Live) {
    && (forall p | p in live.rows :: RowPath(p))
    && (forall t | t in live.tables :: TableName(t) && IsHome(live.tables[t].path, t))
  }

  ghost predicate ValidRecorded(recorded: Recorded) {
    forall p | p in recorded :: recorded[p].kind == KindOf(p)
  }

  function KindOf(path: string): string {
    if path == FORMAT then "format" else if path == CONFIG then "config" else if TableOf(path).Some? then "schema"
      else "row"
  }

  function At<K, V>(m: map<K, V>, k: K): Option<V> {
    if k in m then Some(m[k]) else None
  }

  function Known(kind: string, hash: Option<string>): Option<Entry> {
    if hash.Some? then Some(Entry(kind, hash.value)) else None
  }

  /** What recording the live state would hold at a path. */
  function LiveAt(live: Live, path: string): Option<Entry> {
    if path == FORMAT then Known("format", live.format)
    else if path == CONFIG then Known("config", live.config)
    else
      var table := TableOf(path);
      if table.None? then Known("row", At(live.rows, path))
      else if table.value in live.tables && live.tables[table.value].path == path
      then Some(Entry("schema", live.tables[table.value].hash)) else None
  }

  function HashAt(recorded: Recorded, path: string): Option<string> {
    if path in recorded then Some(recorded[path].hash) else None
  }

  // ----- the difference -----------------------------------------------------------------------------------

  function RowChange(live: Option<string>, recorded: Option<string>): Option<RowDelta> {
    if live == recorded then None
    else if live.None? then Some(Removed)
    else if recorded.None? then Some(Added(live.value))
    else Some(Modified(live.value))
  }

  /** The row changes, of every path. */
  ghost predicate RowChangesAre(rows: map<string, RowDelta>, live: Live, recorded: Recorded) {
    forall p :: At(rows, p) == if RowPath(p) then RowChange(At(live.rows, p), HashAt(recorded, p)) else None
  }

  function OneChange(live: Option<string>, recorded: Option<string>): Option<Option<string>> {
    if live == recorded then None else Some(live)
  }

  /** A schema is recorded at the file it is read from; one that moved has changed. */
  function SchemaChange(live: Live, recorded: Recorded, table: string): Option<Option<LiveSchema>> {
    if table in live.tables then
      var schema := live.tables[table];
      if HashAt(recorded, schema.path) == Some(schema.hash) then None else Some(Some(schema))
    else if TableName(table) && (Pin(table) in recorded || Contract(table) in recorded) then Some(None)
    else None
  }

  ghost predicate IsDelta(delta: Delta, live: Live, recorded: Recorded) {
    && delta.format == OneChange(live.format, HashAt(recorded, FORMAT))
    && delta.config == OneChange(live.config, HashAt(recorded, CONFIG))
    && (forall t :: At(delta.tables, t) == SchemaChange(live, recorded, t))
    && RowChangesAre(delta.rows, live, recorded)
  }

  /** The change of a table's schema, so far as the recorded files seen tell. */
  ghost function ChangeSeen(
    live: Live, recorded: Recorded, seen: set<string>, table: string): Option<Option<LiveSchema>>
  {
    if table in live.tables then SchemaChange(live, recorded, table)
    else if exists k | k in seen :: TableOf(k) == Some(table) then Some(None) else None
  }

  ghost function SeenWith(
    live: Live, recorded: Recorded, seen: set<string>, key: string, table: string): Option<Option<LiveSchema>>
  {
    if table !in live.tables && TableOf(key) == Some(table) then Some(None) else ChangeSeen(live, recorded, seen, table)
  }

  lemma SeenOneMore(live: Live, recorded: Recorded, seen: set<string>, key: string)
    ensures forall t :: SeenWith(live, recorded, seen, key, t) == ChangeSeen(live, recorded, seen + {key}, t)
  {
    hide TableOf;
    forall t | t !in live.tables && TableOf(key) == Some(t)
      ensures exists k | k in seen + {key} :: TableOf(k) == Some(t)
    {
      assert key in seen + {key};
    }
    forall t, k | k in seen && TableOf(k) == Some(t) ensures exists j | j in seen + {key} :: TableOf(j) == Some(t) {
      assert k in seen + {key};
    }
  }

  /** The mirror's files hold the rows that are live. */
  ghost predicate Mirrors(head: RecordedHead, live: Live)
    reads head
  {
    forall p :: head.RowHash(p) == At(live.rows, p)
  }

  /** Rows compared through the marks are compared as they are live and as they are recorded. */
  lemma MarkedChangesAre(head: RecordedHead, live: Live, rows: map<string, RowDelta>)
    requires ValidLive(live) && ValidRecorded(head.recorded) && Mirrors(head, live)
    requires forall p :: At(rows, p) == RowChange(head.RowHash(p), head.RecordedRow(p))
    ensures RowChangesAre(rows, live, head.recorded)
  {
    hide TableOf;
    RowsAreByKind(head.recorded);
    forall p ensures At(rows, p) == if RowPath(p) then RowChange(At(live.rows, p), HashAt(head.recorded, p)) else None {
      assert head.RowHash(p) == At(live.rows, p);
      assert At(rows, p) == RowChange(head.RowHash(p), head.RecordedRow(p));
    }
  }

  lemma RowsAreByKind(recorded: Recorded)
    requires ValidRecorded(recorded)
    ensures forall p | p in recorded :: recorded[p].kind == "row" <==> RowPath(p)
  {
    hide TableOf;
    assert "format" != "row" && "config" != "row" && "schema" != "row" by {
      assert |"format"| != |"row"| && |"config"| != |"row"| && |"schema"| != |"row"|;
    }
  }

  /** Compare the live state with what the head records: rows through the marks alone, and everything else whole. */
  method Pending(live: Live, head: RecordedHead) returns (delta: Delta)
    requires head.Valid() && ValidLive(live) && ValidRecorded(head.recorded) && Mirrors(head, live)
    ensures IsDelta(delta, live, head.recorded)
  {
    hide TableOf, RowChangesAre, Pin, Contract, ValidRecorded, Mirrors;
    var rows := head.RowChanges();
    MarkedChangesAre(head, live, rows);
    var recorded := head.recorded;
    var format := OneChange(live.format, HashAt(recorded, FORMAT));
    var config := OneChange(live.config, HashAt(recorded, CONFIG));
    var tables: map<string, Option<LiveSchema>> := map[];
    var names := live.tables.Keys;
    ghost var done: set<string> := {};
    while names != {}
      invariant names + done == live.tables.Keys && names !! done
      invariant forall t :: At(tables, t) == if t in done then SchemaChange(live, recorded, t) else None
    {
      var table :| table in names;
      var schema := live.tables[table];
      if HashAt(recorded, schema.path) != Some(schema.hash) { tables := tables[table := Some(schema)]; }
      names := names - {table};
      done := done + {table};
    }
    var keys := recorded.Keys;
    ghost var seen: set<string> := {};
    while keys != {}
      invariant keys + seen == recorded.Keys && keys !! seen
      invariant forall t :: At(tables, t) == ChangeSeen(live, recorded, seen, t)
    {
      var key :| key in keys;
      var table := TableOf(key);
      if table.Some? && table.value !in live.tables { tables := tables[table.value := None]; }
      SeenOneMore(live, recorded, seen, key);
      keys := keys - {key};
      seen := seen + {key};
    }
    forall t | t !in live.tables
      ensures (exists k | k in recorded :: TableOf(k) == Some(t)) <==>
        TableName(t) && (Pin(t) in recorded || Contract(t) in recorded)
    {
      HomesRecorded(recorded, t);
    }
    delta := Delta(format, config, tables, rows);
  }

  lemma HomesRecorded(recorded: Recorded, table: string)
    ensures (exists k | k in recorded :: TableOf(k) == Some(table))
       <==> TableName(table) && (Pin(table) in recorded || Contract(table) in recorded)
  {
    hide TableOf;
    if k :| k in recorded && TableOf(k) == Some(table) { HomeOfTable(k); }
    if TableName(table) { NamesAHome(table); }
  }

  // ----- what a difference records ---------------------------------------------------------------------------

  /** What a delta records at a path, if anything: an entry, or its removal. */
  function ChangeAt(delta: Delta, path: string): Option<Option<Entry>> {
    if path in delta.rows then
      match delta.rows[path]
      case Added(hash) => Some(Some(Entry("row", hash)))
      case Modified(hash) => Some(Some(Entry("row", hash)))
      case Removed => Some(None)
    else if path == FORMAT then (if delta.format.Some? then Some(Known("format", delta.format.value)) else None)
    else if path == CONFIG then (if delta.config.Some? then Some(Known("config", delta.config.value)) else None)
    else
      var table := TableOf(path);
      if table.None? || table.value !in delta.tables then None
      else
        var schema := delta.tables[table.value];
        Some(if schema.Some? && schema.value.path == path then Some(Entry("schema", schema.value.hash)) else None)
  }

  ghost predicate ValidDelta(delta: Delta) {
    && (forall p | p in delta.rows :: RowPath(p))
    && (forall t | t in delta.tables ::
      TableName(t) && (delta.tables[t].Some? ==> IsHome(delta.tables[t].value.path, t)))
  }

  lemma DeltaIsValid(delta: Delta, live: Live, recorded: Recorded)
    requires ValidLive(live) && IsDelta(delta, live, recorded)
    ensures ValidDelta(delta)
  {
    hide TableOf, Pin, Contract;
    forall p | p in delta.rows ensures RowPath(p) { assert At(delta.rows, p).Some?; }
    forall t | t in delta.tables
      ensures TableName(t) && (delta.tables[t].Some? ==> IsHome(delta.tables[t].value.path, t))
    {
      assert At(delta.tables, t) == SchemaChange(live, recorded, t);
    }
  }

  /** Whether a path is not a row's, nor a schema's of a table still to come. */
  predicate Reached(done: set<string>, path: string) {
    path == FORMAT || path == CONFIG || (TableOf(path).Some? && TableOf(path).value in done)
  }

  function FixedChange(delta: Delta, path: string): Option<Option<Entry>> {
    if path == FORMAT && delta.format.Some? then Some(Known("format", delta.format.value))
    else if path == CONFIG && delta.config.Some? then Some(Known("config", delta.config.value))
    else None
  }

  /** Before any table is reached, the format and the configuration; once all are, everything that is not a row's. */
  lemma NoRowChangesReached(delta: Delta)
    requires ValidDelta(delta)
    ensures FORMAT != CONFIG
    ensures forall p :: ChangeReached(delta, {}, p) == FixedChange(delta, p)
    ensures forall p ::
      ChangeReached(delta, delta.tables.Keys, p) == if p in delta.rows then None else ChangeAt(delta, p)
    ensures forall p | p in delta.rows :: ChangeAt(delta, p) == Some(match delta.rows[p]
      case Added(hash) => Some(Entry("row", hash))
      case Modified(hash) => Some(Entry("row", hash))
      case Removed => None)
  {
    hide TableOf;
    HomesAreApart();
  }

  function ChangeReached(delta: Delta, done: set<string>, path: string): Option<Option<Entry>> {
    if path !in delta.rows && Reached(done, path) then ChangeAt(delta, path) else None
  }

  /** A table's schema is recorded where it is now, and no longer at its other file. */
  function Rehomed(
    out: map<string, Option<Entry>>, table: string, schema: Option<LiveSchema>): map<string, Option<Entry>>
  {
    var neither := out[Pin(table) := None][Contract(table) := None];
    if schema.Some? then neither[schema.value.path := Some(Entry("schema", schema.value.hash))] else neither
  }

  lemma Rehomes(delta: Delta, done: set<string>, table: string, out: map<string, Option<Entry>>)
    requires ValidDelta(delta) && table in delta.tables && table !in done
    requires forall p :: At(out, p) == ChangeReached(delta, done, p)
    ensures forall p :: At(Rehomed(out, table, delta.tables[table]), p) == ChangeReached(delta, done + {table}, p)
  {
    forall p ensures At(Rehomed(out, table, delta.tables[table]), p) == ChangeReached(delta, done + {table}, p) {
      RehomesAt(delta, done, table, out, p);
    }
  }

  lemma RehomesAt(delta: Delta, done: set<string>, table: string, out: map<string, Option<Entry>>, p: string)
    requires ValidDelta(delta) && table in delta.tables && table !in done
    requires At(out, p) == ChangeReached(delta, done, p)
    ensures At(Rehomed(out, table, delta.tables[table]), p) == ChangeReached(delta, done + {table}, p)
  {
    hide TableOf, Pin, Contract;
    NamesAHome(table);
    HomesAreApart();
    if IsHome(p, table) {
      assert TableOf(p) == Some(table) && !RowPath(p);
    }
  }

  /** The entries the recorded set holds for a delta, once recorded. */
  method RecordedChanges(delta: Delta) returns (out: map<string, Option<Entry>>)
    requires ValidDelta(delta)
    ensures forall p :: At(out, p) == ChangeAt(delta, p)
  {
    hide TableOf, Pin, Contract, ChangeAt, ValidDelta;
    NoRowChangesReached(delta);
    out := map[];
    if delta.format.Some? { out := out[FORMAT := Known("format", delta.format.value)]; }
    if delta.config.Some? { out := out[CONFIG := Known("config", delta.config.value)]; }
    var names := delta.tables.Keys;
    ghost var done: set<string> := {};
    while names != {}
      invariant names + done == delta.tables.Keys && names !! done
      invariant forall p :: At(out, p) == ChangeReached(delta, done, p)
    {
      var table :| table in names;
      var schema := delta.tables[table];
      Rehomes(delta, done, table, out);
      out := out[Pin(table) := None][Contract(table) := None];
      if schema.Some? { out := out[schema.value.path := Some(Entry("schema", schema.value.hash))]; }
      names := names - {table};
      done := done + {table};
    }
    var paths := delta.rows.Keys;
    ghost var seen: set<string> := {};
    while paths != {}
      invariant paths + seen == delta.rows.Keys && paths !! seen
      invariant forall p :: At(out, p) == if p in paths then None else ChangeAt(delta, p)
    {
      var path :| path in paths;
      out := out[path :=
        match delta.rows[path]
        case Added(hash) => Some(Entry("row", hash))
        case Modified(hash) => Some(Entry("row", hash))
        case Removed => None];
      paths := paths - {path};
      seen := seen + {path};
    }
  }

  lemma HomesAreApart()
    ensures forall p | TableOf(p).Some? :: IsHome(p, TableOf(p).value) && p != FORMAT && p != CONFIG
    ensures FORMAT != CONFIG
  {
    forall p | TableOf(p).Some? ensures IsHome(p, TableOf(p).value) && p != FORMAT && p != CONFIG { HomeOfTable(p); }
    assert FORMAT[4] != CONFIG[4];
  }

  /** Apply one recorded revision's changes. */
  function Patched(recorded: Recorded, changes: map<string, Option<Entry>>, path: string): Option<Entry> {
    if path in changes then changes[path] else At(recorded, path)
  }

  // ----- applying the difference gives the live state --------------------------------------------------------

  /** A table whose schema stands where it is recorded has no other file recorded for it. */
  ghost predicate OneHomeEach(live: Live, recorded: Recorded) {
    forall t | t in live.tables && HashAt(recorded, live.tables[t].path) == Some(live.tables[t].hash) ::
      OneHome(live, recorded, t)
  }

  ghost predicate OneHome(live: Live, recorded: Recorded, table: string)
    requires table in live.tables
  {
    forall home | IsHome(home, table) && home != live.tables[table].path :: home !in recorded
  }

  /** What recording the difference holds at a path: what is live there, unless it is a stale second home. */
  lemma {:induction false} RecordsPath(
    delta: Delta, live: Live, recorded: Recorded, changes: map<string, Option<Entry>>, path: string)
    requires ValidLive(live) && ValidRecorded(recorded) && IsDelta(delta, live, recorded)
    requires forall p :: At(changes, p) == ChangeAt(delta, p)
    ensures var table := TableOf(path);
      var stale := table.Some? && table.value in live.tables && live.tables[table.value].path != path
        && path in recorded
        && HashAt(recorded, live.tables[table.value].path) == Some(live.tables[table.value].hash);
      Patched(recorded, changes, path) == LiveAt(live, path) <==> !stale
  {
    hide TableOf, Pin, Contract;
    assert At(changes, path) == ChangeAt(delta, path);
    assert At(delta.rows, path) == if RowPath(path) then RowChange(At(live.rows, path), HashAt(recorded, path))
      else None;
    HomesAreApart();
    if TableOf(path).Some? {
      var table := TableOf(path).value;
      HomeOfTable(path);
      assert At(delta.tables, table) == SchemaChange(live, recorded, table);
    }
  }

  /** Recording the difference leaves exactly the live state, when and only when no table has a stale second home. */
  lemma {:induction false} RecordingIsExact(
    delta: Delta, live: Live, recorded: Recorded, changes: map<string, Option<Entry>>)
    requires ValidLive(live) && ValidRecorded(recorded) && IsDelta(delta, live, recorded)
    requires forall p :: At(changes, p) == ChangeAt(delta, p)
    ensures (forall p :: Patched(recorded, changes, p) == LiveAt(live, p)) <==> OneHomeEach(live, recorded)
  {
    hide TableOf, Pin, Contract, ChangeAt, LiveAt, IsDelta, Patched;
    forall p ensures var table := TableOf(p);
      var stale := table.Some? && table.value in live.tables && live.tables[table.value].path != p && p in recorded
        && HashAt(recorded, live.tables[table.value].path) == Some(live.tables[table.value].hash);
      Patched(recorded, changes, p) == LiveAt(live, p) <==> !stale
    {
      RecordsPath(delta, live, recorded, changes, p);
    }
    HomesAreApart();
    forall t, home | t in live.tables && IsHome(home, t) ensures TableOf(home) == Some(t) { NamesAHome(t); }
  }

  /** Once it is recorded, nothing is pending. */
  lemma {:induction false} NothingIsPendingAfter(delta: Delta, live: Live, recorded: Recorded)
    requires ValidLive(live) && ValidRecorded(recorded) && IsDelta(delta, live, recorded)
    requires forall p :: At(recorded, p) == LiveAt(live, p)
    ensures delta == NO_DELTA
  {
    hide TableOf, Pin, Contract;
    HomesAreApart();
    assert At(recorded, FORMAT) == LiveAt(live, FORMAT) && At(recorded, CONFIG) == LiveAt(live, CONFIG);
    forall p ensures p !in delta.rows {
      assert At(recorded, p) == LiveAt(live, p);
      assert At(delta.rows, p) == if RowPath(p) then RowChange(At(live.rows, p), HashAt(recorded, p)) else None;
    }
    forall t ensures t !in delta.tables {
      assert At(delta.tables, t) == SchemaChange(live, recorded, t);
      if TableName(t) {
        NamesAHome(t);
        assert At(recorded, Pin(t)) == LiveAt(live, Pin(t)) && At(recorded, Contract(t)) == LiveAt(live, Contract(t));
      }
    }
    assert delta.tables == map[] && delta.rows == map[];
  }

  // ----- rows, compared through what has changed -----------------------------------------------------------

  /** The mirror's rows and its copy of the recorded head, with the paths where they may differ. */
  class RecordedHead {
    var files: map<string, Option<string>>
    var recorded: Recorded
    var unsettled: set<string>

    /** The hash of a file's row, if it holds one. */
    function RowHash(path: string): Option<string>
      reads this
    {
      if path in files then files[path] else None
    }

    function RecordedRow(path: string): Option<string>
      reads this
    {
      if path in recorded && recorded[path].kind == "row" then Some(recorded[path].hash) else None
    }

    /** Every path not marked holds exactly what was recorded. */
    ghost predicate Valid()
      reads this
    {
      forall p | p !in unsettled :: RowHash(p) == RecordedRow(p)
    }

    constructor ()
      ensures Valid() && files == map[] && recorded == map[]
    {
      files, recorded, unsettled := map[], map[], {};
    }

    method PutFile(path: string, rowHash: Option<string>)
      requires Valid()
      modifies this
      ensures Valid() && files == old(files)[path := rowHash] && recorded == old(recorded)
    {
      files, unsettled := files[path := rowHash], unsettled + {path};
    }

    method RemoveFile(path: string)
      requires Valid()
      modifies this
      ensures Valid() && files == old(files) - {path} && recorded == old(recorded)
    {
      files, unsettled := files - {path}, unsettled + {path};
    }

    /** Forget the marked paths whose file holds what was recorded there. */
    method Settle()
      requires Valid()
      modifies this`unsettled
      ensures Valid() && unsettled <= old(unsettled)
      ensures forall p | p in unsettled :: RowHash(p) != RecordedRow(p)
    {
      unsettled := set p | p in unsettled && RowHash(p) != RecordedRow(p);
    }

    /** Apply one revision's changes to the recorded head. */
    method ApplyRecorded(changes: map<string, Option<Entry>>)
      requires Valid()
      modifies this
      ensures Valid() && files == old(files)
      ensures forall p :: At(recorded, p) == Patched(old(recorded), changes, p)
    {
      var paths := changes.Keys;
      ghost var done: set<string> := {};
      while paths != {}
        invariant paths + done == changes.Keys && paths !! done
        invariant Valid() && files == old(files)
        invariant forall p :: At(recorded, p) == if p in done then changes[p] else At(old(recorded), p)
      {
        var path :| path in paths;
        match changes[path] {
          case Some(entry) => recorded := recorded[path := entry];
          case None => recorded := recorded - {path};
        }
        unsettled := unsettled + {path};
        paths := paths - {path};
        done := done + {path};
      }
      Settle();
    }

    /** Replace the recorded head wholesale. */
    method ReplaceRecorded(entries: Recorded)
      requires Valid()
      modifies this
      ensures Valid() && files == old(files) && recorded == entries
    {
      unsettled := unsettled + recorded.Keys + entries.Keys;
      recorded := entries;
      Settle();
    }

    /**
     Rows whose hash differs from the recorded head, and recorded rows no longer present: found
     through the marks alone.
     */
    method RowChanges() returns (rows: map<string, RowDelta>)
      requires Valid()
      ensures forall p :: At(rows, p) == RowChange(RowHash(p), RecordedRow(p))
    {
      rows := map[];
      var paths := unsettled;
      ghost var done: set<string> := {};
      while paths != {}
        invariant paths + done == unsettled && paths !! done
        invariant forall p :: At(rows, p) == if p in done then RowChange(RowHash(p), RecordedRow(p)) else None
      {
        var path :| path in paths;
        var change := RowChange(RowHash(path), RecordedRow(path));
        if change.Some? { rows := rows[path := change.value]; }
        paths := paths - {path};
        done := done + {path};
      }
    }
  }
}
