/**
 Deleting rows, whatever the foreign keys do about it, leaves no reference to
 nothing: the closure is complete when the work is done.
 */
module ReferentialSafety {
  import opened Json
  import opened Sequences
  import opened Judging
  import opened Referential

  // ----- what schemas promise ------------------------------------------------------------------

  function TargetsOf(w: World, fk: ForeignKey): seq<string> {
    TargetTables(w.schemas, fk.to)
  }

  /** The constraint a reference's key is judged under: its first target's. */
  function Constraint(w: World, fk: ForeignKey): string {
    var targets := TargetsOf(w, fk);
    if targets == [] then "" else
    var first := SchemaOf(w.schemas, targets[0]);
    if first.None? then "" else ConstraintName(first.value, TargetColumns(fk, first.value))
  }

  predicate IsKey(schema: Schema, columns: seq<string>) {
    columns in schema.keys || columns == PrimaryKey(schema)
  }

  /** Columns some target of the foreign key is compared by. */
  ghost predicate Compares(w: World, fk: ForeignKey, columns: seq<string>) {
    exists t | t in TargetsOf(w, fk) ::
      SchemaOf(w.schemas, t).Some? && columns == TargetColumns(fk, SchemaOf(w.schemas, t).value)
  }

  /** Columns the foreign key compares one target by name, wherever they are a key of a target, the one constraint. */
  ghost predicate Coherent(w: World, fk: ForeignKey) {
    forall t, columns | t in TargetsOf(w, fk) && SchemaOf(w.schemas, t).Some? && Compares(w, fk, columns)
      && IsKey(SchemaOf(w.schemas, t).value, columns) ::
      ConstraintName(SchemaOf(w.schemas, t).value, columns) == Constraint(w, fk)
  }

  /** What validating the schemas together has established. */
  ghost predicate WellDeclared(w: World) {
    && (forall s | s in w.schemas :: SchemaOf(w.schemas, s.table) == Some(s))
    && (forall d | IsDeclared(w, d) :: DeclaredWell(w, d))
  }

  ghost predicate IsDeclared(w: World, d: Declared) {
    d.schema in w.schemas && d.fk in d.schema.foreignKeys
  }

  ghost predicate DeclaredWell(w: World, d: Declared) {
    && FindForeign(d.schema.foreignKeys, d.fk.name) == Some(d.fk)
    && TargetsOf(w, d.fk) != []
    && forall t | t in TargetsOf(w, d.fk) ::
         SchemaOf(w.schemas, t).Some?
           && TargetColumns(d.fk, SchemaOf(w.schemas, t).value) in SchemaOf(w.schemas, t).value.keys
  }

  ghost predicate AllCoherent(w: World) {
    forall d | IsDeclared(w, d) :: Coherent(w, d.fk)
  }

  ghost predicate NoDefaults(w: World) {
    forall d | IsDeclared(w, d) :: d.fk.onDelete != SetDefault
  }

  // ----- references that name nothing -------------------------------------------------------------

  function RuleOf(d: Declared): string {
    ForeignRule(d.schema.table, d.fk.name)
  }

  /** Whether some target row holds the key, as planned. */
  ghost predicate HeldNow(w: World, after: map<Path, Option<Row>>, fk: ForeignKey, key: string) {
    exists t | t in TargetsOf(w, fk) :: HeldUnder(w, after, t, Constraint(w, fk), key)
  }

  ghost predicate NamesNow(w: World, after: map<Path, Option<Row>>, d: Declared, key: string, path: Path) {
    var row := Current(w, after, path);
    row.Some? && row.value.table == d.schema.table && Names(row.value, RuleOf(d), key)
  }

  ghost predicate NoDangling(w: World, after: map<Path, Option<Row>>) {
    forall d, path, key | IsDeclared(w, d) && NamesNow(w, after, d, key, path) :: HeldNow(w, after, d.fk, key)
  }

  // ----- deletions ---------------------------------------------------------------------------------------

  ghost predicate DeletesOnly(w: World, changes: seq<Change>) {
    forall c | c in changes ::
      c.after.None? && c.before.Some? && c.before.value.0 in w.rows && c.before.value.1 == w.rows[c.before.value.0]
  }

  /** A row that has at most lost references. */
  ghost predicate Shrunk(row: Row, original: Row) {
    row.table == original.table && row.held == original.held && forall s | s in row.slots :: s in original.slots
  }

  ghost predicate HoldsFor(w: World, fk: ForeignKey, key: string, path: Path) {
    path in w.rows && w.rows[path].table in TargetsOf(w, fk) && Holds(w.rows[path], Constraint(w, fk), key)
  }

  /** A deleted row that held the key has still to be examined. */
  ghost predicate Waiting(w: World, work: Work, fk: ForeignKey, key: string) {
    exists path :: (Some(path), None) in work.pending && HoldsFor(w, fk, key, path)
  }

  ghost predicate IsDeferred(w: World, work: Work, d: Declared, key: string, path: Path) {
    exists check | check in work.deferred ::
      check.path == path && check.foreignKey == d.fk.name && check.vacated.key == key
        && Compares(w, d.fk, check.vacated.columns)
  }

  /** Every reference to the key has been acted on, put off, or has refused the change. */
  ghost predicate Handled(w: World, work: Work, d: Declared, key: string) {
    work.refusals != [] || forall path | NamesNow(w, work.after, d, key, path) :: IsDeferred(w, work, d, key, path)
  }

  ghost predicate Settled(w: World, work: Work, d: Declared, key: string) {
    HeldNow(w, work.after, d.fk, key) || Waiting(w, work, d.fk, key) || Handled(w, work, d, key)
  }

  /** Rows have only lost references or gone; what waits is one of either. */
  ghost predicate Sound(w: World, work: Work) {
    && (forall p | p in work.after :: p in w.rows && (work.after[p].Some? ==> Shrunk(work.after[p].value, w.rows[p])))
    && (forall p | p in work.before :: p in w.rows && work.before[p] == w.rows[p])
    && (forall e | e in work.pending :: e.0.Some? && e.0.value in w.rows && (e.1 == None || e.1 == e.0))
    && (forall e | e in work.pending && e.1 == None :: e.0.value in work.after && work.after[e.0.value] == None)
  }

  type Owed = iset<(Declared, string)>

  /** Every key is settled, save those still owed. */
  ghost predicate Settles(w: World, work: Work, owed: Owed) {
    forall d, key | IsDeclared(w, d) && (d, key) !in owed :: Settled(w, work, d, key)
  }

  /** A row that held the key has gone. */
  ghost predicate GaveUp(w: World, after: map<Path, Option<Row>>, fk: ForeignKey, key: string, path: Path) {
    path in after && after[path].None? && HoldsFor(w, fk, key, path)
  }

  /** A row referenced, under a declared foreign key, a key that a row now gone held. */
  ghost predicate Referenced(
    w: World, after: map<Path, Option<Row>>, d: Declared, path: Path, rule: string, key: string, because: Path)
  {
    && IsDeclared(w, d) && rule == RuleOf(d)
    && path in w.rows && w.rows[path].table == d.schema.table && Names(w.rows[path], rule, key)
    && GaveUp(w, after, d.fk, key, because)
  }

  ghost predicate Justified(w: World, after: map<Path, Option<Row>>, i: Induced) {
    exists d ::
      && Referenced(w, after, d, i.path, i.rule, i.key, i.because)
      && i.action == d.fk.onDelete && i.action in {Cascade, SetNull, Remove}
  }

  ghost predicate Restricted(w: World, after: map<Path, Option<Row>>, r: Refusal) {
    exists d, because :: Referenced(w, after, d, r.path, r.rule, r.key, because) && d.fk.onDelete == Restrict
  }

  /**
   Everything changed beyond the plan is on record, with its reason; what
   refuses is a restricted reference; and the rows planned away are away.
   */
  ghost predicate Recorded(w: World, work: Work, plan: set<Path>) {
    && (forall p | p in work.after :: p in plan || exists i | i in work.induced :: i.path == p)
    && (forall i | i in work.induced :: Justified(w, work.after, i))
    && (forall r | r in work.refusals :: Restricted(w, work.after, r))
  }

  ghost predicate Keeps(w: World, work: Work, owed: Owed, plan: set<Path>) {
    Sound(w, work) && Settles(w, work, owed) && Recorded(w, work, plan)
  }

  // ----- the two ways a row changes ------------------------------------------------------------------------

  /** `later` has what `work` has, and one row shrunk or gone. */
  ghost predicate Changes(w: World, work: Work, later: Work, path: Path, row: Option<Row>) {
    && path in w.rows
    && (row.Some? ==> Current(w, work.after, path).Some? && Shrunk(row.value, Current(w, work.after, path).value))
    && later.after == work.after[path := row]
    && later.pending == work.pending + [(Some(path), if row.Some? then Some(path) else None)]
    && later.refusals == work.refusals && later.deferred == work.deferred
    && later.before == work.before[path := w.rows[path]]
  }

  lemma {:induction false} ChangeIsSound(w: World, work: Work, later: Work, path: Path, row: Option<Row>)
    requires Sound(w, work) && Changes(w, work, later, path, row)
    ensures Sound(w, later)
  {
  }

  lemma {:induction false} FewerNames(
    w: World, work: Work, later: Work, path: Path, row: Option<Row>, d: Declared, key: string, p: Path)
    requires Changes(w, work, later, path, row) && NamesNow(w, later.after, d, key, p)
    ensures NamesNow(w, work.after, d, key, p)
  {
  }

  lemma {:induction false} HandledStays(
    w: World, work: Work, later: Work, path: Path, row: Option<Row>, d: Declared, key: string)
    requires Changes(w, work, later, path, row) && Handled(w, work, d, key)
    ensures Handled(w, later, d, key)
  {
    hide NamesNow;
    if later.refusals == [] {
      forall p | NamesNow(w, later.after, d, key, p) ensures IsDeferred(w, later, d, key, p) {
        FewerNames(w, work, later, path, row, d, key, p);
        assert IsDeferred(w, work, d, key, p);
      }
    }
  }

  /** A key loses its holder only to a deletion that waits to be examined. */
  lemma {:induction false} HeldOrWaiting(
    w: World, work: Work, later: Work, path: Path, row: Option<Row>, fk: ForeignKey, key: string)
    requires Sound(w, work) && Changes(w, work, later, path, row) && HeldNow(w, work.after, fk, key)
    ensures HeldNow(w, later.after, fk, key) || Waiting(w, later, fk, key)
  {
    hide Constraint, TargetsOf, HeldUnder;
    var t :| t in TargetsOf(w, fk) && HeldUnder(w, work.after, t, Constraint(w, fk), key);
    var constraint := Constraint(w, fk);
    HeldMeans(w, work.after, t, constraint, key);
    HeldMeans(w, later.after, t, constraint, key);
    var holder :| HoldsNow(w, work.after, t, constraint, key, holder);
    if holder == path && row.None? {
      assert (Some(path), None) in later.pending;
      assert HoldsFor(w, fk, key, path);
    } else {
      assert HoldsNow(w, later.after, t, constraint, key, holder);
    }
  }

  ghost predicate HoldsNow(
    w: World, after: map<Path, Option<Row>>, table: string, constraint: string, key: string, path: Path)
  {
    var row := Current(w, after, path);
    row.Some? && HeldBy(row.value, table, constraint, key)
  }

  lemma HeldMeans(w: World, after: map<Path, Option<Row>>, table: string, constraint: string, key: string)
    ensures HeldUnder(w, after, table, constraint, key) <==> exists p :: HoldsNow(w, after, table, constraint, key, p)
  {
    if p :| p in w.rows && p !in after && HeldBy(w.rows[p], table, constraint, key) {
      assert HoldsNow(w, after, table, constraint, key, p);
    }
    if p :| p in after && after[p].Some? && HeldBy(after[p].value, table, constraint, key) {
      assert HoldsNow(w, after, table, constraint, key, p);
    }
  }

  lemma {:induction false} ChangeKeeps(
    w: World, work: Work, later: Work, path: Path, row: Option<Row>, owed: Owed, plan: set<Path>)
    requires Keeps(w, work, owed, plan) && Changes(w, work, later, path, row) && Recorded(w, later, plan)
    ensures Keeps(w, later, owed, plan)
  {
    ChangeIsSound(w, work, later, path, row);
    hide Sound, Changes, HeldNow, Handled, Recorded, Waiting;
    forall d, key | IsDeclared(w, d) && (d, key) !in owed ensures Settled(w, later, d, key) {
      assert Settled(w, work, d, key);
      if Handled(w, work, d, key) {
        HandledStays(w, work, later, path, row, d, key);
      } else if HeldNow(w, work.after, d.fk, key) {
        HeldOrWaiting(w, work, later, path, row, d.fk, key);
      } else {
        WaitingStays(w, work, later, path, row, d.fk, key);
      }
    }
  }

  lemma WaitingStays(w: World, work: Work, later: Work, path: Path, row: Option<Row>, fk: ForeignKey, key: string)
    requires Changes(w, work, later, path, row) && Waiting(w, work, fk, key)
    ensures Waiting(w, later, fk, key)
  {
    var p :| (Some(p), None) in work.pending && HoldsFor(w, fk, key, p);
    assert (Some(p), None) in later.pending;
  }

  /** Rows gone stay gone, so what was justified is. */
  ghost predicate GoneStay(after: map<Path, Option<Row>>, later: map<Path, Option<Row>>) {
    forall p | p in after && after[p].None? :: p in later && later[p].None?
  }

  lemma {:induction false} ReferencedStays(
    w: World, after: map<Path, Option<Row>>, later: map<Path, Option<Row>>, d: Declared, path: Path, rule: string,
      key: string, because: Path)
    requires GoneStay(after, later) && Referenced(w, after, d, path, rule, key, because)
    ensures Referenced(w, later, d, path, rule, key, because)
  {
  }

  lemma {:induction false} ReasonsStay(w: World, after: map<Path, Option<Row>>, later: map<Path, Option<Row>>)
    requires GoneStay(after, later)
    ensures forall i | Justified(w, after, i) :: Justified(w, later, i)
    ensures forall r | Restricted(w, after, r) :: Restricted(w, later, r)
  {
    hide Referenced, GoneStay;
    forall i | Justified(w, after, i) ensures Justified(w, later, i) {
      var d :| Referenced(w, after, d, i.path, i.rule, i.key, i.because) && i.action == d.fk.onDelete;
      ReferencedStays(w, after, later, d, i.path, i.rule, i.key, i.because);
    }
    forall r | Restricted(w, after, r) ensures Restricted(w, later, r) {
      var d, because :| Referenced(w, after, d, r.path, r.rule, r.key, because) && d.fk.onDelete == Restrict;
      ReferencedStays(w, after, later, d, r.path, r.rule, r.key, because);
    }
  }

  lemma ChangesLeaveGone(w: World, work: Work, later: Work, path: Path, row: Option<Row>)
    requires Changes(w, work, later, path, row)
    ensures GoneStay(work.after, later.after)
  {
  }

  lemma {:induction false} ChangeIsRecorded(
    w: World, work: Work, later: Work, path: Path, row: Option<Row>, plan: set<Path>, i: Induced)
    requires Recorded(w, work, plan) && Changes(w, work, later, path, row)
    requires later.induced == work.induced + [i] && i.path == path && Justified(w, later.after, i)
    ensures Recorded(w, later, plan)
  {
    hide Justified, Restricted;
    ChangesLeaveGone(w, work, later, path, row);
    ReasonsStay(w, work.after, later.after);
    assert i in later.induced;
    forall p | p in later.after ensures p in plan || exists j | j in later.induced :: j.path == p {
      if p != path && p !in plan {
        var j :| j in work.induced && j.path == p;
        assert j in later.induced;
      }
    }
  }

  // ----- what actions leave -----------------------------------------------------------------------------------

  lemma {:induction false} RedirectedAway(slots: seq<Slot>, rule: string, key: string)
    ensures forall s | s in Redirected(slots, rule, key, None) :: s in slots && !Naming(s, rule, key)
  {
    if slots != [] { RedirectedAway(slots[..|slots| - 1], rule, key); }
  }

  lemma {:induction false} SweptAway(slots: seq<Slot>, rule: string, key: string)
    ensures forall s | s in Filter(NotSwept(slots, rule, key), slots) :: s in slots && !Naming(s, rule, key)
  {
    forall s | s in Filter(NotSwept(slots, rule, key), slots) ensures s in slots && !Naming(s, rule, key) {
      assert NotSwept(slots, rule, key)(s);
      if Naming(s, rule, key) { assert GoesWith(s, s); }
    }
  }

  lemma {:induction false} ActedShrinks(w: World, fk: ForeignKey, rule: string, vacated: Vacated, row: Row)
    requires vacated.replacement.None? && fk.onDelete in {SetNull, Remove}
    ensures var acted := Acted(w, fk, rule, vacated, row);
      Shrunk(acted, row) && !Names(acted, rule, vacated.key)
  {
    RedirectedAway(row.slots, rule, vacated.key);
    SweptAway(row.slots, rule, vacated.key);
  }

  lemma ShrunkTable(row: Row, original: Row)
    requires Shrunk(row, original)
    ensures row.table == original.table
  {
  }

  // ----- resolving one referrer ----------------------------------------------------------------------------------

  /** A path's reference to the key is dealt with. */
  ghost predicate Done(w: World, work: Work, d: Declared, key: string, path: Path) {
    work.refusals != [] || (NamesNow(w, work.after, d, key, path) ==> IsDeferred(w, work, d, key, path))
  }

  /** Nothing dealt with comes undone, and no reference appears. */
  ghost predicate Closer(w: World, work: Work, later: Work) {
    && (forall d, key, path | NamesNow(w, later.after, d, key, path) :: NamesNow(w, work.after, d, key, path))
    && (forall check | check in work.deferred :: check in later.deferred)
    && (work.refusals != [] ==> later.refusals != [])
    && GoneStay(work.after, later.after)
  }

  lemma DoneStays(w: World, work: Work, later: Work, d: Declared, key: string, path: Path)
    requires Closer(w, work, later) && Done(w, work, d, key, path)
    ensures Done(w, later, d, key, path)
  {
    hide NamesNow;
  }

  ghost predicate IsVacated(w: World, work: Work, fk: ForeignKey, vacated: Vacated) {
    vacated.replacement.None? && Concerns(w, fk, vacated) && GaveUp(w, work.after, fk, vacated.key, vacated.holder)
  }

  lemma {:induction false} ReferrerChanges(w: World, d: Declared, vacated: Vacated, work: Work, path: Path)
    requires IsVacated(w, work, d.fk, vacated) && d.fk.onDelete in {Cascade, SetNull, Remove} && Sound(w, work)
    requires NamesNow(w, work.after, d, vacated.key, path)
    ensures var later := ResolveReferrer(w, d.schema, d.fk, vacated, work, path);
      var row := if d.fk.onDelete == Cascade then None
        else Some(Acted(w, d.fk, RuleOf(d), vacated, Current(w, work.after, path).value));
      && Changes(w, work, later, path, row) && !NamesNow(w, later.after, d, vacated.key, path)
      && later.induced == work.induced + [Induced(path, d.fk.onDelete, RuleOf(d), vacated.key, vacated.holder)]
  {
    hide Concerns, GaveUp, Acted, Names, NamesIn, Shrunk;
    var row := Current(w, work.after, path).value;
    if d.fk.onDelete != Cascade {
      ActedShrinks(w, d.fk, RuleOf(d), vacated, row);
      ShrunkTable(Acted(w, d.fk, RuleOf(d), vacated, row), row);
    }
  }

  /** A row's references were its own to begin with. */
  lemma {:induction false} NamedBefore(w: World, work: Work, d: Declared, key: string, path: Path)
    requires Sound(w, work) && NamesNow(w, work.after, d, key, path)
    ensures path in w.rows && w.rows[path].table == d.schema.table && Names(w.rows[path], RuleOf(d), key)
  {
    var row := Current(w, work.after, path).value;
    var s :| s in row.slots && Naming(s, RuleOf(d), key);
    hide Naming;
  }

  lemma {:induction false} ChangesAreCloser(w: World, work: Work, later: Work, path: Path, row: Option<Row>)
    requires Changes(w, work, later, path, row)
    ensures Closer(w, work, later)
  {
    hide NamesNow;
    ChangesLeaveGone(w, work, later, path, row);
    forall d, key, p | NamesNow(w, later.after, d, key, p) ensures NamesNow(w, work.after, d, key, p) {
      FewerNames(w, work, later, path, row, d, key, p);
    }
  }

  lemma CloserThrough(w: World, a: Work, b: Work, c: Work)
    requires Closer(w, a, b) && Closer(w, b, c)
    ensures Closer(w, a, c)
  {
    hide NamesNow;
  }

  lemma {:induction false} ReferrerKeeps(
    w: World, d: Declared, vacated: Vacated, work: Work, path: Path, owed: Owed, plan: set<Path>)
    requires IsDeclared(w, d) && NoDefaults(w) && IsVacated(w, work, d.fk, vacated) && Keeps(w, work, owed, plan)
    ensures var later := ResolveReferrer(w, d.schema, d.fk, vacated, work, path);
      Keeps(w, later, owed, plan) && Closer(w, work, later) && Done(w, later, d, vacated.key, path)
  {
    var later := ResolveReferrer(w, d.schema, d.fk, vacated, work, path);
    if !NamesNow(w, work.after, d, vacated.key, path) {
      assert later == work;
    } else if d.fk.onDelete in {Cascade, SetNull, Remove} {
      var row := if d.fk.onDelete == Cascade then None
        else Some(Acted(w, d.fk, RuleOf(d), vacated, Current(w, work.after, path).value));
      ReferrerChanges(w, d, vacated, work, path);
      hide Acted, Changes, Keeps, ResolveReferrer, Current, NamesNow, GaveUp;
      KeepsParts(w, work, owed, plan);
      var i := Induced(path, d.fk.onDelete, RuleOf(d), vacated.key, vacated.holder);
      NamedBefore(w, work, d, vacated.key, path);
      ChangesLeaveGone(w, work, later, path, row);
      assert Referenced(w, work.after, d, i.path, i.rule, i.key, i.because);
      ReferencedStays(w, work.after, later.after, d, i.path, i.rule, i.key, i.because);
      ChangeIsRecorded(w, work, later, path, row, plan, i);
      ChangeKeeps(w, work, later, path, row, owed, plan);
      ChangesAreCloser(w, work, later, path, row);
    } else {
      PutOff(w, d, vacated, work, path, owed, plan);
    }
  }

  lemma {:induction false} PutOff(
    w: World, d: Declared, vacated: Vacated, work: Work, path: Path, owed: Owed, plan: set<Path>)
    requires IsDeclared(w, d) && IsVacated(w, work, d.fk, vacated) && Keeps(w, work, owed, plan)
    requires NamesNow(w, work.after, d, vacated.key, path) && d.fk.onDelete in {Restrict, NoAction}
    ensures var later := ResolveReferrer(w, d.schema, d.fk, vacated, work, path);
      Keeps(w, later, owed, plan) && Closer(w, work, later) && Done(w, later, d, vacated.key, path)
  {
    var later := ResolveReferrer(w, d.schema, d.fk, vacated, work, path);
    assert later == work.(refusals := later.refusals, deferred := later.deferred);
    if d.fk.onDelete == NoAction {
      var check := Deferred(path, d.fk.name, vacated);
      assert later.deferred == work.deferred + [check] && check in later.deferred;
      assert Compares(w, d.fk, vacated.columns);
      assert IsDeferred(w, later, d, vacated.key, path);
    }
    NamedBefore(w, work, d, vacated.key, path);
    hide ResolveReferrer, Concerns, NamesNow, Names, GaveUp;
    var refusal := Refusal(path, RuleOf(d), vacated.key);
    if later.refusals != work.refusals {
      assert later.refusals == work.refusals + [refusal];
      assert Referenced(w, work.after, d, path, RuleOf(d), vacated.key, vacated.holder);
    }
    OnlyPutsOff(w, work, later, owed, plan);
  }

  lemma {:induction false} OnlyPutsOff(w: World, work: Work, later: Work, owed: Owed, plan: set<Path>)
    requires Keeps(w, work, owed, plan)
    requires later == work.(refusals := later.refusals, deferred := later.deferred)
    requires work.refusals <= later.refusals && work.deferred <= later.deferred
    requires forall r | r in later.refusals :: r in work.refusals || Restricted(w, work.after, r)
    ensures Keeps(w, later, owed, plan) && Closer(w, work, later)
  {
    hide NamesNow, HeldNow, Restricted, Justified;
    assert forall check | check in work.deferred :: check in later.deferred;
    forall d, key | IsDeclared(w, d) && (d, key) !in owed ensures Settled(w, later, d, key) {
      assert Settled(w, work, d, key);
      if Waiting(w, work, d.fk, key) {
        var p :| (Some(p), None) in work.pending && HoldsFor(w, d.fk, key, p);
        assert (Some(p), None) in later.pending;
      }
      if Handled(w, work, d, key) && later.refusals == [] {
        forall path | NamesNow(w, later.after, d, key, path) ensures IsDeferred(w, later, d, key, path) {
          assert IsDeferred(w, work, d, key, path);
        }
      }
    }
  }

  lemma KeepsParts(w: World, work: Work, owed: Owed, plan: set<Path>)
    requires Keeps(w, work, owed, plan)
    ensures Sound(w, work) && Settles(w, work, owed) && Recorded(w, work, plan)
  {
  }

  // ----- resolving a vacated key ------------------------------------------------------------------------------------

  lemma {:induction false} ReferrersKeep(
    w: World, d: Declared, vacated: Vacated, work: Work, paths: seq<Path>, owed: Owed, plan: set<Path>)
    requires IsDeclared(w, d) && NoDefaults(w) && IsVacated(w, work, d.fk, vacated) && Keeps(w, work, owed, plan)
    ensures var later := ResolveReferrers(w, d.schema, d.fk, vacated, work, paths);
      && Keeps(w, later, owed, plan) && Closer(w, work, later)
      && forall p | p in paths :: Done(w, later, d, vacated.key, p)
    decreases |paths|
  {
    hide Keeps, Closer, Done, ResolveReferrer, IsVacated, NoDefaults;
    if paths == [] {
      Same(w, work);
    } else {
      var first := ResolveReferrer(w, d.schema, d.fk, vacated, work, paths[0]);
      var later := ResolveReferrers(w, d.schema, d.fk, vacated, first, paths[1..]);
      ReferrerKeeps(w, d, vacated, work, paths[0], owed, plan);
      VacatedStays(w, work, first, d.fk, vacated);
      ReferrersKeep(w, d, vacated, first, paths[1..], owed, plan);
      CloserThrough(w, work, first, later);
      DoneStays(w, first, later, d, vacated.key, paths[0]);
      assert forall p | p in paths :: p == paths[0] || p in paths[1..];
    }
  }

  lemma VacatedStays(w: World, work: Work, later: Work, fk: ForeignKey, vacated: Vacated)
    requires Closer(w, work, later)
    ensures IsVacated(w, work, fk, vacated) ==> IsVacated(w, later, fk, vacated)
  {
    hide NamesNow, Concerns;
  }

  lemma Same(w: World, work: Work)
    ensures Closer(w, work, work)
  {
  }

  lemma {:induction false} StillHeldIsHeld(
    w: World, fk: ForeignKey, after: map<Path, Option<Row>>, key: string, columns: seq<string>)
    requires Coherent(w, fk) && Compares(w, fk, columns)
    requires StillHeld(w, after, key, columns, TargetsOf(w, fk))
    ensures HeldNow(w, after, fk, key)
  {
    hide Compares, HeldUnder, Constraint, TargetsOf;
    var t :| t in TargetsOf(w, fk) && HeldAt(w, after, t, columns, key);
  }

  lemma {:induction false} NamersRefer(w: World, after: map<Path, Option<Row>>, d: Declared, key: string, path: Path)
    requires NamesNow(w, after, d, key, path)
    ensures path in Referrers(w, after, RuleOf(d), key)
  {
    hide Names;
  }

  /** After one foreign key's references to the vacated key are resolved, that key is settled for it. */
  lemma {:induction false} ForeignKeeps(
    w: World, d: Declared, vacated: Vacated, work: Work, owed: Owed, plan: set<Path>)
    requires IsDeclared(w, d) && NoDefaults(w) && AllCoherent(w) && Keeps(w, work, owed, plan)
    requires vacated.replacement.None?
    requires (Concerns(w, d.fk, vacated) ==> GaveUp(w, work.after, d.fk, vacated.key, vacated.holder))
    ensures Keeps(w, ResolveForeign(w, d.schema, d.fk, vacated, work),
      owed - if Concerns(w, d.fk, vacated) then iset{(d, vacated.key)} else iset{}, plan)
    ensures GoneStay(work.after, ResolveForeign(w, d.schema, d.fk, vacated, work).after)
  {
    hide GaveUp, Keeps, Done, Closer, NoDefaults, StillHeld, HeldNow, Handled, NamesNow, Referrers, Concerns,
      ResolveReferrers;
    var later := ResolveForeign(w, d.schema, d.fk, vacated, work);
    if Concerns(w, d.fk, vacated) {
      ConcernsCompare(w, d.fk, vacated);
      if StillHeld(w, work.after, vacated.key, vacated.columns, TargetTables(w.schemas, d.fk.to)) {
        StillHeldIsHeld(w, d.fk, work.after, vacated.key, vacated.columns);
      } else {
        var paths := Referrers(w, work.after, RuleOf(d), vacated.key);
        ReferrersKeep(w, d, vacated, work, paths, owed, plan);
        AllDone(w, d, vacated.key, work, later);
        CloserLeavesGone(w, work, later);
      }
      OneSettled(w, later, owed, plan, d, vacated.key);
    } else {
      assert owed - iset{} == owed;
    }
  }

  lemma CloserLeavesGone(w: World, work: Work, later: Work)
    requires Closer(w, work, later)
    ensures GoneStay(work.after, later.after)
  {
  }

  lemma ConcernsCompare(w: World, fk: ForeignKey, vacated: Vacated)
    requires Concerns(w, fk, vacated)
    ensures Compares(w, fk, vacated.columns)
  {
  }

  lemma AllDone(w: World, d: Declared, key: string, work: Work, later: Work)
    requires Closer(w, work, later)
    requires forall p | p in Referrers(w, work.after, RuleOf(d), key) :: Done(w, later, d, key, p)
    ensures Handled(w, later, d, key)
  {
    hide NamesNow, Referrers;
    forall path | NamesNow(w, later.after, d, key, path) && later.refusals == []
      ensures IsDeferred(w, later, d, key, path)
    {
      NamersRefer(w, work.after, d, key, path);
    }
  }

  lemma OneSettled(w: World, work: Work, owed: Owed, plan: set<Path>, d: Declared, key: string)
    requires Keeps(w, work, owed, plan) && Settled(w, work, d, key)
    ensures Keeps(w, work, owed - iset{(d, key)}, plan)
  {
    hide Settled;
  }

  ghost function Discharged(w: World, foreigns: seq<Declared>, vacated: Vacated): Owed {
    iset d | d in foreigns && Concerns(w, d.fk, vacated) :: (d, vacated.key)
  }

  lemma {:induction false} ResolveKeeps(
    w: World, vacated: Vacated, work: Work, foreigns: seq<Declared>, owed: Owed, plan: set<Path>)
    requires (forall d | d in foreigns :: IsDeclared(w, d)) && NoDefaults(w) && AllCoherent(w)
    requires vacated.replacement.None? && Keeps(w, work, owed, plan)
    requires forall d | d in foreigns && Concerns(w, d.fk, vacated) ::
      GaveUp(w, work.after, d.fk, vacated.key, vacated.holder)
    ensures GoneStay(work.after, Resolve(w, vacated, work, foreigns).after)
    ensures Keeps(w, Resolve(w, vacated, work, foreigns), owed - Discharged(w, foreigns, vacated), plan)
    decreases |foreigns|
  {
    hide Keeps, ResolveForeign, NoDefaults, AllCoherent, Concerns;
    if foreigns == [] {
      assert owed - Discharged(w, foreigns, vacated) == owed;
    } else {
      var d := foreigns[0];
      var now := if Concerns(w, d.fk, vacated) then iset{(d, vacated.key)} else iset{};
      ForeignKeeps(w, d, vacated, work, owed, plan);
      ResolveKeeps(w, vacated, ResolveForeign(w, d.schema, d.fk, vacated, work), foreigns[1..], owed - now, plan);
      assert owed - now - Discharged(w, foreigns[1..], vacated) == owed - Discharged(w, foreigns, vacated);
    }
  }

  lemma {:induction false} ForeignsHold(w: World, d: Declared)
    ensures d in Foreigns(w) <==> IsDeclared(w, d)
  {
    FlatHolds(ForeignsOf(), w.schemas, d);
    if IsDeclared(w, d) {
      var i :| 0 <= i < |w.schemas| && w.schemas[i] == d.schema;
      DeclaredOnHolds(d.schema, d);
    }
    if i :| 0 <= i < |w.schemas| && d in ForeignsOf()(w.schemas[i]) {
      DeclaredOnHolds(w.schemas[i], d);
    }
  }

  lemma DeclaredOnHolds(schema: Schema, d: Declared)
    ensures d in ForeignsOf()(schema) <==> d.schema == schema && d.fk in schema.foreignKeys
  {
    var each := ForeignsOf()(schema);
    if d.schema == schema && d.fk in schema.foreignKeys {
      var i :| 0 <= i < |schema.foreignKeys| && schema.foreignKeys[i] == d.fk;
      assert each[i] == d;
    }
  }
}
