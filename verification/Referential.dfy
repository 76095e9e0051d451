/** Referential actions: everything that must change for references to hold once some rows change. */
module Referential {
  import opened Json
  import opened Sequences
  import opened Order
  import opened Judging

  type Path = string

  // ----- rows -----------------------------------------------------------------------------------

  /** A reference in a row: its rule, the key it names, and the array elements it lies within, outermost first. */
  datatype Slot = Slot(rule: string, target: string, within: seq<nat>)

  /** A row: the key it holds under each constraint, and its references. None of these lie in a key's columns. */
  datatype Row = Row(table: string, held: map<string, string>, slots: seq<Slot>)

  /** The schemas, and the rows of the folder by path. */
  datatype World = World(schemas: seq<Schema>, rows: map<Path, Row>)

  predicate Holds(row: Row, constraint: string, key: string) {
    constraint in row.held && row.held[constraint] == key
  }

  predicate Naming(slot: Slot, rule: string, key: string) {
    slot.rule == rule && slot.target == key
  }

  predicate NamesIn(slots: seq<Slot>, rule: string, key: string) {
    exists s | s in slots :: Naming(s, rule, key)
  }

  predicate Names(row: Row, rule: string, key: string) {
    NamesIn(row.slots, rule, key)
  }

  // ----- what actions do to a row ---------------------------------------------------------------------

  function Redirected(slots: seq<Slot>, rule: string, key: string, target: Option<string>): seq<Slot> {
    if slots == [] then []
    else
      var rest := Redirected(slots[..|slots| - 1], rule, key, target);
      var last := slots[|slots| - 1];
      if !Naming(last, rule, key) then rest + [last]
      else if target.Some? then rest + [last.(target := target.value)]
      else rest
  }

  /** Whether removing a reference takes a slot with it: the slot itself, or one in the array element removed. */
  predicate GoesWith(slot: Slot, gone: Slot) {
    slot == gone || (gone.within != [] && gone.within <= slot.within)
  }

  predicate Swept(slot: Slot, slots: seq<Slot>, rule: string, key: string) {
    exists gone | gone in slots :: Naming(gone, rule, key) && GoesWith(slot, gone)
  }

  function NotSwept(slots: seq<Slot>, rule: string, key: string): Slot -> bool {
    (slot: Slot) => !Swept(slot, slots, rule, key)
  }

  // ----- the work ----------------------------------------------------------------------------------------

  /** A key a row gives up: `replacement` is the row's next self, when it changed rather than went away. */
  datatype Vacated = Vacated(table: string, columns: seq<string>, key: string, replacement: Option<Row>, holder: Path)

  datatype Induced = Induced(path: Path, action: Action, rule: string, key: string, because: Path)

  datatype Refusal = Refusal(path: Path, rule: string, key: string)

  /** A `no_action` reference to a vacated key, judged when the plan is done. */
  datatype Deferred = Deferred(path: Path, foreignKey: string, vacated: Vacated)

  datatype Work = Work(
    before: map<Path, Row>,
    after: map<Path, Option<Row>>,
    pending: seq<(Option<Path>, Option<Path>)>,
    induced: seq<Induced>,
    refusals: seq<Refusal>,
    deferred: seq<Deferred>,
    events: nat,
    failed: bool)

  const MAX_EVENTS := 10_000_000

  /** A planned change: the row at a path before, and the row at a path after. */
  datatype Change = Change(before: Option<(Path, Row)>, after: Option<(Path, Row)>)

  /** What a path will hold. */
  function Current(w: World, after: map<Path, Option<Row>>, path: Path): Option<Row> {
    if path in after then after[path]
    else if path in w.rows then Some(w.rows[path])
    else None
  }

  function Original(w: World, before: map<Path, Row>, path: Path): Option<Row> {
    if path in before then Some(before[path])
    else if path in w.rows then Some(w.rows[path])
    else None
  }

  function Remembered(w: World, before: map<Path, Row>, path: Path): map<Path, Row> {
    if path !in before && path in w.rows then before[path := w.rows[path]] else before
  }

  function KeyOf(row: Row, schema: Schema, columns: seq<string>): Option<string> {
    var constraint := ConstraintName(schema, columns);
    if constraint in row.held then Some(row.held[constraint]) else None
  }

  // ----- who holds a key, and who names it -----------------------------------------------------------------

  predicate HeldBy(row: Row, table: string, constraint: string, key: string) {
    row.table == table && Holds(row, constraint, key)
  }

  /** A row the plan leaves alone, or one it writes. */
  predicate HeldUnder(w: World, after: map<Path, Option<Row>>, table: string, constraint: string, key: string) {
    || (exists p | p in w.rows && p !in after :: HeldBy(w.rows[p], table, constraint, key))
    || (exists p | p in after && after[p].Some? :: HeldBy(after[p].value, table, constraint, key))
  }

  predicate HeldAt(w: World, after: map<Path, Option<Row>>, target: string, columns: seq<string>, key: string) {
    var schema := SchemaOf(w.schemas, target);
    && schema.Some?
    && (columns in schema.value.keys || columns == PrimaryKey(schema.value))
    && HeldUnder(w, after, target, ConstraintName(schema.value, columns), key)
  }

  /** Whether any row of the target tables holds the key once the plan applies. */
  predicate StillHeld(
    w: World, after: map<Path, Option<Row>>, key: string, columns: seq<string>, targets: seq<string>)
  {
    exists t | t in targets :: HeldAt(w, after, t, columns, key)
  }

  predicate PathLess(a: Path, b: Path) {
    CompareStrings(a, b) == Less
  }

  lemma PathsAreOrdered()
    ensures forall a, b :: PathLess(a, b) ==> a != b && !PathLess(b, a)
    ensures forall a, b :: PathLess(a, b) || a == b || PathLess(b, a)
    ensures forall a, b, c :: PathLess(a, b) && PathLess(b, c) ==> PathLess(a, c)
  {
    StringsAreTotal();
    hide CompareStrings;
  }

  predicate IsLeast(p: Path, paths: set<Path>) {
    p in paths && forall q | q in paths :: !PathLess(q, p)
  }

  lemma {:induction false} LeastExists(paths: set<Path>)
    requires paths != {}
    ensures exists p :: IsLeast(p, paths)
  {
    hide PathLess;
    PathsAreOrdered();
    var p :| p in paths;
    var rest := paths - {p};
    if rest == {} {
      assert paths == {p};
      assert IsLeast(p, paths);
    } else {
      LeastExists(rest);
      var q :| IsLeast(q, rest);
      var least := if PathLess(p, q) then p else q;
      forall r | r in paths ensures !PathLess(r, least) {
        assert r == p || r in rest;
      }
      assert IsLeast(least, paths);
    }
  }

  lemma LeastIsOne(paths: set<Path>)
    ensures forall p, q | IsLeast(p, paths) && IsLeast(q, paths) :: p == q
  {
    PathsAreOrdered();
    hide PathLess;
  }

  /** A set of paths, in path order. */
  function Ascending(paths: set<Path>): (r: seq<Path>)
    ensures forall p :: p in r <==> p in paths
  {
    if paths == {} then []
    else
      LeastExists(paths);
      LeastIsOne(paths);
      var p :| IsLeast(p, paths);
      [p] + Ascending(paths - {p})
  }

  function PlannedReferrers(after: map<Path, Option<Row>>, rule: string, key: string): set<Path> {
    set p | p in after && after[p].Some? && Names(after[p].value, rule, key)
  }

  /** The rows that name a key, as they were and as planned. */
  function Referrers(w: World, after: map<Path, Option<Row>>, rule: string, key: string): seq<Path> {
    Ascending((set p | p in w.rows && Names(w.rows[p], rule, key)) + PlannedReferrers(after, rule, key))
  }

  // ----- resolving ---------------------------------------------------------------------------------------------

  function ActionOf(fk: ForeignKey, vacated: Vacated): Action {
    if vacated.replacement.Some? then fk.onUpdate else fk.onDelete
  }

  /** The key an update cascade writes. */
  function Carried(w: World, vacated: Vacated): Option<string>
    requires vacated.replacement.Some?
  {
    var schema := SchemaOf(w.schemas, vacated.table);
    if schema.Some? then KeyOf(vacated.replacement.value, schema.value, vacated.columns) else None
  }

  /** The row an action other than a deleting cascade leaves. */
  function Acted(w: World, fk: ForeignKey, rule: string, vacated: Vacated, row: Row): Row {
    match ActionOf(fk, vacated)
    case SetNull => row.(slots := Redirected(row.slots, rule, vacated.key, None))
    case SetDefault => row.(slots := Redirected(row.slots, rule, vacated.key, fk.default))
    case Remove => row.(slots := Filter(NotSwept(row.slots, rule, vacated.key), row.slots))
    case Cascade =>
      if vacated.replacement.Some? then row.(slots := Redirected(row.slots, rule, vacated.key, Carried(w, vacated)))
        else row
    case _ => row
  }

  /** One referrer of a vacated key. */
  function ResolveReferrer(w: World, schema: Schema, fk: ForeignKey, vacated: Vacated, work: Work, path: Path): Work {
    var rule := ForeignRule(schema.table, fk.name);
    var row := Current(w, work.after, path);
    if row.None? || row.value.table != schema.table || !Names(row.value, rule, vacated.key) then work
    else
      var action := ActionOf(fk, vacated);
      if action == Restrict then work.(refusals := work.refusals + [Refusal(path, rule, vacated.key)])
      else if action == NoAction then work.(deferred := work.deferred + [Deferred(path, fk.name, vacated)])
      else
        var told := work.(
          induced := work.induced + [Induced(path, action, rule, vacated.key, vacated.holder)],
          before := Remembered(w, work.before, path));
        if action == Cascade && vacated.replacement.None? then
          told.(after := work.after[path := None], pending := work.pending + [(Some(path), None)])
        else
          told.(after := work.after[path := Some(Acted(w, fk, rule, vacated, row.value))],
                pending := work.pending + [(Some(path), Some(path))])
  }

  function ResolveReferrers(
    w: World, schema: Schema, fk: ForeignKey, vacated: Vacated, work: Work, paths: seq<Path>): Work
    decreases |paths|
  {
    if paths == [] then work
    else ResolveReferrers(w, schema, fk, vacated, ResolveReferrer(w, schema, fk, vacated, work, paths[0]), paths[1..])
  }

  /** Whether a foreign key compares with the vacated columns. */
  predicate Concerns(w: World, fk: ForeignKey, vacated: Vacated) {
    var target := SchemaOf(w.schemas, vacated.table);
    && vacated.table in TargetTables(w.schemas, fk.to)
    && target.Some? && TargetColumns(fk, target.value) == vacated.columns
  }

  function ResolveForeign(w: World, schema: Schema, fk: ForeignKey, vacated: Vacated, work: Work): Work {
    if !Concerns(w, fk, vacated)
      || StillHeld(w, work.after, vacated.key, vacated.columns, TargetTables(w.schemas, fk.to)) then work
    else
      ResolveReferrers(w, schema, fk, vacated, work,
        Referrers(w, work.after, ForeignRule(schema.table, fk.name), vacated.key))
  }

  /** A foreign key and the table it is declared on. */
  datatype Declared = Declared(schema: Schema, fk: ForeignKey)

  function DeclaredOn(schema: Schema): ForeignKey -> Declared {
    (fk: ForeignKey) => Declared(schema, fk)
  }

  function ForeignsOf(): Schema -> seq<Declared> {
    (schema: Schema) => Apply(DeclaredOn(schema), schema.foreignKeys)
  }

  function Foreigns(w: World): seq<Declared> {
    Flat(ForeignsOf(), w.schemas)
  }

  /** Resolve every reference to a vacated key. */
  function Resolve(w: World, vacated: Vacated, work: Work, foreigns: seq<Declared>): Work
    decreases |foreigns|
  {
    if foreigns == [] then work
    else Resolve(w, vacated, ResolveForeign(w, foreigns[0].schema, foreigns[0].fk, vacated, work), foreigns[1..])
  }

  // ----- examining a row ---------------------------------------------------------------------------------------

  /** One candidate key of a row that changed. */
  function ExamineKey(
    w: World, schema: Schema, original: Row, next: Option<Row>, holder: Path, columns: seq<string>, work: Work): Work
  {
    var held := KeyOf(original, schema, columns);
    if work.failed || held.None? || (next.Some? && KeyOf(next.value, schema, columns) == held) then work
    else
      var counted := work.(events := work.events + 1);
      if counted.events > MAX_EVENTS then counted.(failed := true)
      else Resolve(w, Vacated(original.table, columns, held.value, next, holder), counted, Foreigns(w))
  }

  function ExamineKeys(
    w: World, schema: Schema, original: Row, next: Option<Row>, holder: Path, keys: seq<seq<string>>, work: Work): Work
    decreases |keys|
  {
    if keys == [] then work
    else ExamineKeys(w, schema, original, next, holder, keys[1..],
      ExamineKey(w, schema, original, next, holder, keys[0], work))
  }

  /** Examine the row that has waited longest. */
  function Step(w: World, work: Work): Work
    requires work.pending != []
  {
    var (from, to) := work.pending[0];
    var rest := work.(pending := work.pending[1..]);
    if from.None? then rest
    else
      var original := Original(w, work.before, from.value);
      if original.None? then rest
      else
        var schema := SchemaOf(w.schemas, original.value.table);
        if schema.None? then rest.(failed := true)
        else
          var next := if to.Some? then Current(w, work.after, to.value) else None;
          ExamineKeys(w, schema.value, original.value, next, from.value, schema.value.keys,
            rest.(before := Remembered(w, work.before, from.value)))
  }

  // ----- it stops ----------------------------------------------------------------------------------------------

  /** What resolving may do to the count and the queue: nothing to the first, and only add to the second. */
  ghost predicate Extends(work: Work, later: Work) {
    later.events == work.events && later.failed == work.failed && work.pending <= later.pending
  }

  lemma ReferrerExtends(w: World, schema: Schema, fk: ForeignKey, vacated: Vacated, work: Work, path: Path)
    ensures Extends(work, ResolveReferrer(w, schema, fk, vacated, work, path))
  {
  }

  lemma {:induction false} ReferrersExtend(
    w: World, schema: Schema, fk: ForeignKey, vacated: Vacated, work: Work, paths: seq<Path>)
    ensures Extends(work, ResolveReferrers(w, schema, fk, vacated, work, paths))
    decreases |paths|
  {
    hide ResolveReferrer;
    if paths != [] {
      ReferrerExtends(w, schema, fk, vacated, work, paths[0]);
      ReferrersExtend(w, schema, fk, vacated, ResolveReferrer(w, schema, fk, vacated, work, paths[0]), paths[1..]);
    }
  }

  lemma {:induction false} ResolveExtends(w: World, vacated: Vacated, work: Work, foreigns: seq<Declared>)
    ensures Extends(work, Resolve(w, vacated, work, foreigns))
    decreases |foreigns|
  {
    hide ResolveReferrers, Concerns, StillHeld, Referrers;
    if foreigns != [] {
      var (schema, fk) := (foreigns[0].schema, foreigns[0].fk);
      ReferrersExtend(w, schema, fk, vacated, work,
        Referrers(w, work.after, ForeignRule(schema.table, fk.name), vacated.key));
      ResolveExtends(w, vacated, ResolveForeign(w, schema, fk, vacated, work), foreigns[1..]);
    }
  }

  /** The count rises within its bound, or the queue is left alone. */
  ghost predicate Advances(work: Work, later: Work) {
    || (later.events == work.events && later.pending == work.pending)
    || work.events < later.events <= MAX_EVENTS + 1
  }

  lemma {:induction false} ExamineAdvances(
    w: World, schema: Schema, original: Row, next: Option<Row>, holder: Path, keys: seq<seq<string>>, work: Work)
    requires work.events <= MAX_EVENTS + 1 && (work.events > MAX_EVENTS ==> work.failed)
    ensures var later := ExamineKeys(w, schema, original, next, holder, keys, work);
      Advances(work, later) && (later.events > MAX_EVENTS ==> later.failed)
    decreases |keys|
  {
    hide Resolve, KeyOf, Foreigns;
    if keys != [] {
      var held := KeyOf(original, schema, keys[0]);
      if held.Some? {
        ResolveExtends(w, Vacated(original.table, keys[0], held.value, next, holder), work.(events := work.events + 1),
          Foreigns(w));
      }
      ExamineAdvances(w, schema, original, next, holder, keys[1..],
        ExamineKey(w, schema, original, next, holder, keys[0], work));
    }
  }

  /** What is left of the bound, and then of the queue. */
  ghost predicate Counting(work: Work) {
    work.events <= MAX_EVENTS + 1 && (work.events > MAX_EVENTS ==> work.failed)
  }

  lemma StepAdvances(w: World, work: Work)
    requires Counting(work) && work.pending != []
    ensures var later := Step(w, work);
      && Counting(later)
      && (later.events > work.events || (later.events == work.events && |later.pending| < |work.pending|))
  {
    hide ExamineKeys;
    var (from, to) := work.pending[0];
    if from.Some? && Original(w, work.before, from.value).Some? {
      var original := Original(w, work.before, from.value).value;
      var schema := SchemaOf(w.schemas, original.table);
      if schema.Some? {
        var next := if to.Some? then Current(w, work.after, to.value) else None;
        ExamineAdvances(w, schema.value, original, next, from.value, schema.value.keys,
          work.(pending := work.pending[1..], before := Remembered(w, work.before, from.value)));
      }
    }
  }

  /** Examine rows until none waits: the bound on events, and then the queue, runs down. */
  function Run(w: World, work: Work): Work
    requires Counting(work)
    decreases MAX_EVENTS + 1 - work.events, |work.pending|
  {
    if work.failed || work.pending == [] then work
    else
      StepAdvances(w, work);
      Run(w, Step(w, work))
  }

  // ----- the whole ---------------------------------------------------------------------------------------------

  const NO_WORK := Work(map[], map[], [], [], [], [], 0, false)

  function PathOf(end: Option<(Path, Row)>): Option<Path> {
    if end.Some? then Some(end.value.0) else None
  }

  /** Plan one change, and queue its row. */
  function Begun(work: Work, change: Change): Work {
    var before := if change.before.Some? then work.before[change.before.value.0 := change.before.value.1]
      else work.before;
    var left := if change.before.Some? && PathOf(change.after) != PathOf(change.before)
      then work.after[change.before.value.0 := None] else work.after;
    var after := if change.after.Some? then left[change.after.value.0 := Some(change.after.value.1)] else left;
    work.(before := before, after := after, pending := work.pending + [(PathOf(change.before), PathOf(change.after))])
  }

  function Begin(changes: seq<Change>): (work: Work)
    ensures Counting(work) && work.events == 0 && !work.failed
    ensures work.induced == [] && work.refusals == [] && work.deferred == []
  {
    if changes == [] then NO_WORK else Begun(Begin(changes[..|changes| - 1]), changes[|changes| - 1])
  }

  function FindForeign(foreignKeys: seq<ForeignKey>, name: string): Option<ForeignKey> {
    if foreignKeys == [] then None
    else if foreignKeys[0].name == name then Some(foreignKeys[0])
    else FindForeign(foreignKeys[1..], name)
  }

  /** Whether a deferred reference forbids the change once everything is planned. */
  predicate Forbids(w: World, work: Work, check: Deferred) {
    var row := Current(w, work.after, check.path);
    row.Some? &&
    var schema := SchemaOf(w.schemas, row.value.table);
    schema.Some? &&
    var fk := FindForeign(schema.value.foreignKeys, check.foreignKey);
    && fk.Some?
    && !StillHeld(w, work.after, check.vacated.key, check.vacated.columns, TargetTables(w.schemas, fk.value.to))
    && Names(row.value, ForeignRule(row.value.table, check.foreignKey), check.vacated.key)
  }

  datatype Expansion = Failed | Refused | Accepted(after: map<Path, Option<Row>>, induced: seq<Induced>)

  function Judge(w: World, work: Work): Expansion {
    if work.failed then Failed
    else if work.refusals != [] || exists check | check in work.deferred :: Forbids(w, work, check) then Refused
    else Accepted(work.after, work.induced)
  }

  /** A plan completed with the actions its foreign keys require -- or refused. */
  function Expanded(w: World, changes: seq<Change>): Expansion {
    Judge(w, Run(w, Begin(changes)))
  }
}
