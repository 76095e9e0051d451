/** The findings of a state: all of them, or those a scope can change. */
module Judging {
  import opened Json
  import opened Sequences
  import opened Order
  import opened Pointer
  import opened Texts
  import opened Verdicts

  // ----- what is judged --------------------------------------------------------------------------

  /** A reference or an acyclic edge a row makes: under which rule, where in the file, naming which key. */
  datatype Reference = Reference(rule: string, pointer: string, target: string)

  /** A key a row holds, under which constraint. */
  datatype Held = Held(constraint: string, key: string)

  /** A row file as the mirror holds it; one that could not be read holds nothing but its faults. */
  datatype File = File(
    path: string,
    table: string,
    row: bool,
    held: seq<Held>,
    references: seq<Reference>,
    faults: seq<Finding>,
    bytes: string,
    folded: string)

  datatype Target = Table(table: string) | Tables(tables: seq<string>) | Domain(domain: string)

  datatype Action = Restrict | NoAction | Cascade | SetNull | Remove | SetDefault

  /** A foreign key. `default` is the key a reference reset to its default names, if that is not null. */
  datatype ForeignKey = ForeignKey(
    name: string,
    to: Target,
    columns: seq<string>,
    onDelete: Action,
    onUpdate: Action,
    default: Option<string>,
    describe: string)

  datatype Assertion = Assertion(name: string, message: string, warning: bool)

  datatype Schema = Schema(
    table: string,
    keys: seq<seq<string>>,
    domain: Option<string>,
    foreignKeys: seq<ForeignKey>,
    acyclic: seq<string>,
    checks: seq<string>,
    assertions: seq<Assertion>,
    blocked: bool)

  /** The rules, and what judging reads beyond rows: none of it changes with them. */
  datatype Database = Database(
    schemas: seq<Schema>,
    pinned: set<string>,
    shapeCodes: set<string>,
    violates: (string, string, File) -> bool,
    cyclesOf: (string, seq<File>) -> seq<seq<(string, string)>>,
    asserted: (string, Assertion, seq<File>) -> seq<string>,
    locate: (string, Option<string>) -> Option<(nat, nat)>,
    exceeded: Finding -> Finding)

  /** A state: its files, and the findings of observing it that do not come from rows. */
  datatype State = State(files: seq<File>, general: Verdict)

  /** What a change can change: the tables and paths it touches, and the keys those hold before and after. */
  datatype Scope = Scope(tables: set<string>, paths: set<string>, keys: set<string>)

  /** A finding, and whether it is only a warning. */
  datatype Report = Report(finding: Finding, warning: bool)

  predicate TouchesPath(scope: Option<Scope>, path: string) {
    scope.Some? ==> path in scope.value.paths
  }

  predicate TouchesKey(scope: Option<Scope>, key: string) {
    scope.Some? ==> key in scope.value.keys
  }

  predicate TouchesTable(scope: Option<Scope>, table: string) {
    scope.Some? ==> table in scope.value.tables
  }

  // ----- the rules ---------------------------------------------------------------------------------

  const PRIMARY := "primary"

  datatype Rule =
    | Faults
    | Unique(schema: Schema, columns: seq<string>)
    | Namespace(tables: seq<string>, domain: Option<string>)
    | Foreign(schema: Schema, fk: ForeignKey, constraint: string, targets: seq<string>)
    | Graph(table: string, name: string)
    | Check(table: string, name: string)
    | Assert(table: string, assertion: Assertion)

  function Usable(schemas: seq<Schema>): seq<Schema> {
    Filter((s: Schema) => !s.blocked, schemas)
  }

  function PrimaryKey(schema: Schema): seq<string> {
    if schema.keys == [] then [] else schema.keys[0]
  }

  function ConstraintName(schema: Schema, columns: seq<string>): string {
    if columns == PrimaryKey(schema) then PRIMARY else "unique:" + Joined(columns)
  }

  function TargetTables(schemas: seq<Schema>, target: Target): seq<string> {
    match target
    case Table(table) => [table]
    case Tables(tables) => tables
    case Domain(domain) => Apply((s: Schema) => s.table, Filter((s: Schema) => s.domain == Some(domain), schemas))
  }

  /** The columns of a target table a foreign key compares with. */
  function TargetColumns(fk: ForeignKey, target: Schema): seq<string> {
    if fk.columns == [] then PrimaryKey(target) else fk.columns
  }

  function SchemaOf(schemas: seq<Schema>, table: string): Option<Schema> {
    if schemas == [] then None else if schemas[0].table == table then Some(schemas[0])
      else SchemaOf(schemas[1..], table)
  }

  function KeyRules(schema: Schema): seq<Rule> {
    Apply((columns: seq<string>) => Unique(schema, columns), schema.keys)
  }

  function Domains(schemas: seq<Schema>): seq<string> {
    Sort(CompareStrings, Distinct(Flat((s: Schema) => if s.domain.Some? then [s.domain.value] else [], schemas)))
  }

  function DomainRule(schemas: seq<Schema>, domain: string): Rule {
    Namespace(TargetTables(schemas, Domain(domain)), Some(domain))
  }

  /** The lists of tables references may name, each once: those whose every table is usable. */
  function ListedTables(schemas: seq<Schema>): seq<seq<string>> {
    Distinct(Flat(
      (s: Schema) => Flat(
        (fk: ForeignKey) =>
          if fk.to.Tables? && (forall t | t in fk.to.tables :: SchemaOf(schemas, t).Some?)
          then [Sort(CompareStrings, fk.to.tables)] else [],
        s.foreignKeys),
      schemas))
  }

  /** A reference into a table whose schema cannot be read is not judged. */
  function ForeignRules(schemas: seq<Schema>, usable: seq<Schema>, schema: Schema, fk: ForeignKey): seq<Rule> {
    var targets := TargetTables(usable, fk.to);
    if targets == [] || |targets| != |TargetTables(schemas, fk.to)| || SchemaOf(usable, targets[0]).None? then []
    else
      var first := SchemaOf(usable, targets[0]).value;
      [Foreign(schema, fk, ConstraintName(first, TargetColumns(fk, first)), targets)]
  }

  function TableRules(schemas: seq<Schema>, usable: seq<Schema>, schema: Schema): seq<Rule> {
    Flat((fk: ForeignKey) => ForeignRules(schemas, usable, schema, fk), schema.foreignKeys)
    + Apply((name: string) => Graph(schema.table, name), schema.acyclic)
    + Apply((name: string) => Check(schema.table, name), schema.checks)
    + Apply((assertion: Assertion) => Assert(schema.table, assertion), schema.assertions)
  }

  /** Every rule, in the order they are judged. */
  function Rules(db: Database): seq<Rule> {
    var usable := Usable(db.schemas);
    [Faults]
    + Flat((s: Schema) => KeyRules(s), usable)
    + Apply((domain: string) => DomainRule(usable, domain), Domains(usable))
    + Apply((tables: seq<string>) => Namespace(tables, None), ListedTables(usable))
    + Flat((s: Schema) => TableRules(db.schemas, usable, s), usable)
  }

  // ----- the findings of a rule -------------------------------------------------------------------------

  function PointerTo(column: string): Option<string> {
    Some("/" + Escape(column))
  }

  /** A finding about a file, with where in its bytes it is. */
  function FindingAt(
    db: Database, file: File, code: string, table: string, message: string, pointer: Option<string>): Finding
  {
    Finding(Some(file.path), db.locate(file.bytes, pointer), code, pointer, message, Some(table), message)
  }

  // Faults of single files.

  function FaultOf(db: Database, file: File): Finding -> Report {
    (fault: Finding) =>
      var placed :=
        fault.(path := Some(file.path), at := if fault.at.Some? then fault.at
          else db.locate(file.bytes, fault.pointer));
      var inferred := placed.table.Some? && placed.table.value !in db.pinned;
      if inferred && placed.code in db.shapeCodes then Report(db.exceeded(placed), true) else Report(placed, false)
  }

  function FaultsIn(db: Database, scope: Option<Scope>): File -> seq<Report> {
    (file: File) => if TouchesPath(scope, file.path) then Apply(FaultOf(db, file), file.faults) else []
  }

  // Keys held more than once.

  datatype Duplicate = Duplicate(key: string, holders: seq<File>)

  predicate HoldsKey(file: File, tables: seq<string>, constraint: string, key: string) {
    file.table in tables && Held(constraint, key) in file.held
  }

  function Holding(tables: seq<string>, constraint: string, key: string): File -> bool {
    (file: File) => HoldsKey(file, tables, constraint, key)
  }

  function KeysUnder(tables: seq<string>, constraint: string): File -> seq<string> {
    (file: File) =>
      if file.table in tables then Apply((h: Held) => h.key, Filter((h: Held) => h.constraint == constraint, file.held))
        else []
  }

  /** The keys held under a constraint, in order. */
  function KeysHeld(files: seq<File>, tables: seq<string>, constraint: string): seq<string> {
    Sort(CompareStrings, Distinct(Flat(KeysUnder(tables, constraint), files)))
  }

  function TablesOf(files: seq<File>): seq<string> {
    Distinct(Apply((file: File) => file.table, files))
  }

  function DuplicateOf(files: seq<File>, tables: seq<string>, constraint: string, across: bool, scope: Option<Scope>)
    : string -> seq<Duplicate>
  {
    (key: string) =>
      var holders := Filter(Holding(tables, constraint, key), files);
      if TouchesKey(scope, key) && (if across then |TablesOf(holders)| else |holders|) > 1
        then [Duplicate(key, holders)] else []
  }

  /** The keys in scope held by more than one file -- or across tables, by more than one table. */
  function DuplicatesIn(
    files: seq<File>, tables: seq<string>, constraint: string, across: bool, scope: Option<Scope>): seq<Duplicate>
  {
    Flat(DuplicateOf(files, tables, constraint, across, scope), KeysHeld(files, tables, constraint))
  }

  function UniqueMessage(schema: Schema, columns: seq<string>, first: string, key: string): string {
    schema.table + "(" + Joined(columns) + ") must be unique, and " + first + " also holds " + key
  }

  function UniqueAt(db: Database, schema: Schema, columns: seq<string>, key: string, first: File): File -> Report {
    (file: File) =>
      Report(
        FindingAt(db, file, if ConstraintName(schema, columns) == PRIMARY then "PRIMARY_KEY_VIOLATION"
          else "UNIQUE_VIOLATION",
          schema.table, UniqueMessage(schema, columns, first.path, key),
            PointerTo(if columns == [] then "" else columns[0])),
        false)
  }

  /** Every holder after the first is told of it. */
  function UniqueOf(db: Database, schema: Schema, columns: seq<string>): Duplicate -> seq<Report> {
    (d: Duplicate) => if d.holders == [] then []
      else Apply(UniqueAt(db, schema, columns, d.key, d.holders[0]), d.holders[1..])
  }

  function NamespaceMessage(domain: Option<string>, first: string, path: string, key: string): string {
    "key " + key + " is held by both " + first + " and " + path
    + (if domain.Some? then "; identity domain " + domain.value else ", and a reference could name either")
  }

  /** Every holder of another table than the first's is told of it. */
  function NamespaceAt(db: Database, domain: Option<string>, key: string, first: File): File -> seq<Report> {
    (file: File) =>
      if file.table == first.table then []
      else
        var schema := SchemaOf(db.schemas, file.table);
        var columns := if schema.Some? then PrimaryKey(schema.value) else [];
        [Report(
          FindingAt(db, file, if domain.Some? then "DOMAIN_KEY_VIOLATION" else "SCHEMA_TARGET_KEYS_OVERLAP",
            file.table, NamespaceMessage(domain, first.path, file.path, key),
              PointerTo(if columns == [] then "" else columns[0])),
          false)]
  }

  function NamespaceOf(db: Database, domain: Option<string>): Duplicate -> seq<Report> {
    (d: Duplicate) => if d.holders == [] then [] else Flat(NamespaceAt(db, domain, d.key, d.holders[0]), d.holders[1..])
  }

  // References that name nothing.

  datatype Edge = Edge(file: File, reference: Reference)

  predicate Missing(files: seq<File>, tables: seq<string>, constraint: string, key: string) {
    Filter(Holding(tables, constraint, key), files) == []
  }

  function DanglingOf(
    files: seq<File>, rule: string, constraint: string, tables: seq<string>, scope: Option<Scope>, file: File)
    : Reference -> bool
  {
    (r: Reference) =>
      && r.rule == rule && Missing(files, tables, constraint, r.target)
      && (scope.None? || file.path in scope.value.paths || r.target in scope.value.keys)
  }

  function EdgeOf(file: File): Reference -> Edge {
    (r: Reference) => Edge(file, r)
  }

  function DanglingFrom(
    files: seq<File>, rule: string, constraint: string, tables: seq<string>, scope: Option<Scope>): File -> seq<Edge>
  {
    (file: File) =>
      Apply(EdgeOf(file), Filter(DanglingOf(files, rule, constraint, tables, scope, file), file.references))
  }

  /** The references under a rule whose target no allowed row holds, of those the scope can change. */
  function DanglingIn(
    files: seq<File>, rule: string, constraint: string, tables: seq<string>, scope: Option<Scope>): seq<Edge>
  {
    Flat(DanglingFrom(files, rule, constraint, tables, scope), files)
  }

  function ForeignRule(table: string, name: string): string { "fk:" + table + "/" + name }

  function DanglingAt(db: Database, schema: Schema, fk: ForeignKey): Edge -> Report {
    (edge: Edge) =>
      Report(
        FindingAt(db, edge.file, "FOREIGN_KEY_VIOLATION", schema.table,
          edge.reference.pointer + " references " + edge.reference.target + " in " + fk.describe
            + ", and no such row exists",
          Some(edge.reference.pointer)),
        false)
  }

  // Graphs, checks and assertions.

  function OfTable(table: string): File -> bool {
    (file: File) => file.table == table
  }

  function FileAt(files: seq<File>, path: string): Option<File> {
    if files == [] then None else if files[0].path == path then Some(files[0]) else FileAt(files[1..], path)
  }

  function FindingIn(
    db: Database, files: seq<File>, path: string, code: string, table: string, message: string): Finding
  {
    var file := FileAt(files, path);
    if file.Some? then FindingAt(db, file.value, code, table, message, None)
    else Finding(Some(path), None, code, None, message, Some(table), message)
  }

  function AcyclicRule(table: string, name: string): string { "acyclic:" + table + "/" + name }

  function KeysOf(cycle: seq<(string, string)>): string {
    if cycle == [] then "" else if |cycle| == 1 then cycle[0].0 else cycle[0].0 + " -> " + KeysOf(cycle[1..])
  }

  function CycleAt(db: Database, rows: seq<File>, table: string, name: string): seq<(string, string)> -> Report {
    (cycle: seq<(string, string)>) =>
      Report(FindingIn(db, rows, if cycle == [] then "" else cycle[0].1, "CYCLE_VIOLATION", table,
        name + " must be acyclic, but " + KeysOf(cycle) + " forms a cycle"), false)
  }

  function Violating(db: Database, table: string, name: string, scope: Option<Scope>): File -> seq<Report> {
    (file: File) =>
      if file.row && file.table == table && TouchesPath(scope, file.path) && db.violates(table, name, file)
      then [Report(FindingAt(db, file, "CHECK_VIOLATION", table, "row violates check " + name, None), false)] else []
  }

  function AssertedAt(db: Database, files: seq<File>, table: string, assertion: Assertion): string -> Report {
    (path: string) => Report(FindingIn(db, files, path, "ASSERTION_VIOLATION", table, assertion.message),
      assertion.warning)
  }

  /** What one rule finds. */
  function Found(db: Database, files: seq<File>, scope: Option<Scope>, rule: Rule): seq<Report> {
    match rule
    case Faults => Flat(FaultsIn(db, scope), files)
    case Unique(schema, columns) =>
      Flat(UniqueOf(db, schema, columns),
        DuplicatesIn(files, [schema.table], ConstraintName(schema, columns), false, scope))
    case Namespace(tables, domain) =>
      Flat(NamespaceOf(db, domain), DuplicatesIn(files, tables, PRIMARY, true, scope))
    case Foreign(schema, fk, constraint, targets) =>
      Apply(DanglingAt(db, schema, fk),
        DanglingIn(files, ForeignRule(schema.table, fk.name), constraint, targets, scope))
    case Graph(table, name) =>
      // A graph is judged whole: a change anywhere in its table can make or break a cycle.
      if !TouchesTable(scope, table) then []
      else
        var rows := Filter(OfTable(table), files);
        Apply(CycleAt(db, rows, table, name), db.cyclesOf(AcyclicRule(table, name), rows))
    case Check(table, name) => Flat(Violating(db, table, name, scope), files)
    case Assert(table, assertion) =>
      Apply(AssertedAt(db, files, table, assertion), db.asserted(table, assertion, files))
  }

  function FoundBy(db: Database, files: seq<File>, scope: Option<Scope>): Rule -> seq<Report> {
    (rule: Rule) => Found(db, files, scope, rule)
  }

  // ----- the verdict ---------------------------------------------------------------------------------------

  function AsWarning(warning: bool): Report -> seq<Finding> {
    (r: Report) => if r.warning == warning then [r.finding] else []
  }

  function Errors(reports: seq<Report>): seq<Finding> {
    Flat(AsWarning(false), reports)
  }

  function Warnings(reports: seq<Report>): seq<Finding> {
    Flat(AsWarning(true), reports)
  }

  function Told(v: Verdict, reports: seq<Report>): Verdict {
    Verdict(v.errors + Errors(reports), v.warnings + Warnings(reports))
  }

  /** Every finding of a state, or with a scope those it can change. */
  function Judged(db: Database, state: State, scope: Option<Scope>): Verdict {
    Told(state.general, Flat(FoundBy(db, state.files, scope), Rules(db)))
  }
}
