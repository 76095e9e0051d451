/** The closure, run to its end, leaves no reference to nothing; and what it changed is on record. */
module ReferentialClosure {
  import opened Json
  import opened Sequences
  import opened Judging
  import opened Referential
  import opened ReferentialSafety

  /** The keys a row held for foreign keys, by the columns still to be examined. */
  ghost function OwedBy(w: World, path: Path, keys: seq<seq<string>>): Owed {
    iset d, key | IsDeclared(w, d) && HoldsFor(w, d.fk, key, path) && ComparedBy(w, d.fk, path) in keys :: (d, key)
  }

  /** The columns a foreign key compares a row's table by. */
  ghost function ComparedBy(w: World, fk: ForeignKey, path: Path): seq<string> {
    if path in w.rows && SchemaOf(w.schemas, w.rows[path].table).Some?
    then TargetColumns(fk, SchemaOf(w.schemas, w.rows[path].table).value) else []
  }

  ghost predicate Ready(w: World) {
    WellDeclared(w) && AllCoherent(w) && NoDefaults(w)
  }

  lemma KeepsMore(w: World, work: Work, owed: Owed, more: Owed, plan: set<Path>)
    requires Keeps(w, work, owed, plan) && owed <= more
    ensures Keeps(w, work, more, plan)
  {
    hide Settled;
  }

  lemma CountedKeeps(w: World, work: Work, later: Work, owed: Owed, plan: set<Path>)
    requires Keeps(w, work, owed, plan) && later == work.(events := later.events, failed := later.failed)
    ensures Keeps(w, later, owed, plan)
  {
    hide HeldNow, NamesNow, Justified, Restricted;
    forall d, key | IsDeclared(w, d) && (d, key) !in owed ensures Settled(w, later, d, key) {
      assert Settled(w, work, d, key);
      assert forall path :: IsDeferred(w, work, d, key, path) ==> IsDeferred(w, later, d, key, path);
    }
  }

  /** A key the row held is what its candidate key reads as, under the columns it is compared by. */
  lemma {:induction false} HeldIsKey(w: World, d: Declared, path: Path, key: string)
    requires Ready(w) && IsDeclared(w, d) && HoldsFor(w, d.fk, key, path)
    ensures SchemaOf(w.schemas, w.rows[path].table).Some?
    ensures var schema := SchemaOf(w.schemas, w.rows[path].table).value;
      && ComparedBy(w, d.fk, path) in schema.keys
      && KeyOf(w.rows[path], schema, ComparedBy(w, d.fk, path)) == Some(key)
  {
    assert DeclaredWell(w, d);
    hide Constraint, TargetsOf, ConstraintName;
    var columns := ComparedBy(w, d.fk, path);
    assert Compares(w, d.fk, columns);
    assert Coherent(w, d.fk);
  }

  lemma {:induction false} ExamineKeyKeeps(
    w: World, path: Path, columns: seq<string>, rest: seq<seq<string>>, work: Work, plan: set<Path>)
    requires Ready(w) && path in w.rows && SchemaOf(w.schemas, w.rows[path].table).Some?
    requires !work.failed && Keeps(w, work, OwedBy(w, path, [columns] + rest), plan)
    requires path in work.after && work.after[path].None?
    requires columns in SchemaOf(w.schemas, w.rows[path].table).value.keys
    ensures var later :=
      ExamineKey(w, SchemaOf(w.schemas, w.rows[path].table).value, w.rows[path], None, path, columns, work);
      later.failed || (Keeps(w, later, OwedBy(w, path, rest), plan) && path in later.after && later.after[path].None?)
  {
    hide Resolve, KeyOf, Keeps, Ready, HoldsFor, IsDeclared, ConstraintName, WellDeclared, AllCoherent, NoDefaults,
      GaveUp, Concerns;
    var schema := SchemaOf(w.schemas, w.rows[path].table).value;
    var key := KeyOf(w.rows[path], schema, columns);
    var owed := OwedBy(w, path, [columns] + rest);
    if key.None? {
      forall d, k | (d, k) in owed ensures (d, k) in OwedBy(w, path, rest) {
        HeldIsKey(w, d, path, k);
      }
      KeepsMore(w, work, owed, OwedBy(w, path, rest), plan);
    } else {
      var counted := work.(events := work.events + 1);
      var vacated := Vacated(w.rows[path].table, columns, key.value, None, path);
      CountedKeeps(w, work, counted, owed, plan);
      ReadyParts(w);
      AllDeclared(w);
      forall d | d in Foreigns(w) && Concerns(w, d.fk, vacated)
        ensures GaveUp(w, counted.after, d.fk, vacated.key, vacated.holder)
      {
        GoneGaveUp(w, d, vacated, counted.after);
      }
      ResolveKeeps(w, vacated, counted, Foreigns(w), owed, plan);
      forall d, k | (d, k) in owed - Discharged(w, Foreigns(w), vacated) ensures (d, k) in OwedBy(w, path, rest) {
        HeldIsKey(w, d, path, k);
        if ComparedBy(w, d.fk, path) == columns {
          ComparedConcerns(w, d.fk, path, k, vacated);
          ForeignsHold(w, d);
        }
      }
      KeepsMore(w, Resolve(w, vacated, counted, Foreigns(w)), owed - Discharged(w, Foreigns(w), vacated),
        OwedBy(w, path, rest), plan);
    }
  }

  /** A row gone gave up each of its keys. */
  lemma {:induction false} GoneGaveUp(w: World, d: Declared, vacated: Vacated, after: map<Path, Option<Row>>)
    requires Ready(w) && IsDeclared(w, d) && Concerns(w, d.fk, vacated)
    requires vacated.holder in w.rows && vacated.holder in after && after[vacated.holder].None?
    requires vacated.table == w.rows[vacated.holder].table
    requires SchemaOf(w.schemas, vacated.table).Some?
    requires vacated.columns in SchemaOf(w.schemas, vacated.table).value.keys
    requires KeyOf(w.rows[vacated.holder], SchemaOf(w.schemas, vacated.table).value, vacated.columns)
      == Some(vacated.key)
    ensures GaveUp(w, after, d.fk, vacated.key, vacated.holder)
  {
    hide Constraint, ConstraintName;
    assert Coherent(w, d.fk);
    assert Compares(w, d.fk, vacated.columns);
  }

  lemma ReadyParts(w: World)
    requires Ready(w)
    ensures WellDeclared(w) && AllCoherent(w) && NoDefaults(w)
  {
  }

  lemma AllDeclared(w: World)
    ensures forall d | d in Foreigns(w) :: IsDeclared(w, d)
  {
    forall d | d in Foreigns(w) ensures IsDeclared(w, d) { ForeignsHold(w, d); }
  }

  lemma ComparedConcerns(w: World, fk: ForeignKey, path: Path, key: string, vacated: Vacated)
    requires HoldsFor(w, fk, key, path) && SchemaOf(w.schemas, w.rows[path].table).Some?
    requires vacated.table == w.rows[path].table && vacated.columns == ComparedBy(w, fk, path)
    ensures Concerns(w, fk, vacated)
  {
  }

  lemma {:induction false} ExamineKeysKeep(w: World, path: Path, keys: seq<seq<string>>, work: Work, plan: set<Path>)
    requires Ready(w) && path in w.rows && SchemaOf(w.schemas, w.rows[path].table).Some?
    requires work.failed
      || (Keeps(w, work, OwedBy(w, path, keys), plan) && path in work.after && work.after[path].None?)
    requires forall columns | columns in keys :: columns in SchemaOf(w.schemas, w.rows[path].table).value.keys
    ensures var later :=
      ExamineKeys(w, SchemaOf(w.schemas, w.rows[path].table).value, w.rows[path], None, path, keys, work);
      later.failed || Keeps(w, later, iset{}, plan)
    decreases |keys|
  {
    hide Keeps, Ready, HoldsFor, ExamineKey;
    var schema := SchemaOf(w.schemas, w.rows[path].table).value;
    if keys == [] {
      assert OwedBy(w, path, keys) == iset{};
    } else {
      var next := ExamineKey(w, schema, w.rows[path], None, path, keys[0], work);
      if work.failed {
        FailedStays(w, schema, w.rows[path], None, path, keys[0], work);
      } else {
        assert [keys[0]] + keys[1..] == keys;
        ExamineKeyKeeps(w, path, keys[0], keys[1..], work, plan);
      }
      ExamineKeysKeep(w, path, keys[1..], next, plan);
    }
  }

  lemma FailedStays(
    w: World, schema: Schema, original: Row, next: Option<Row>, path: Path, columns: seq<string>, work: Work)
    requires work.failed
    ensures ExamineKey(w, schema, original, next, path, columns, work) == work
  {
  }

  /** A row that has only lost references keeps its keys. */
  lemma {:induction false} ShrunkKeepsKeys(
    w: World, schema: Schema, original: Row, next: Row, path: Path, keys: seq<seq<string>>, work: Work)
    requires next.held == original.held
    ensures ExamineKeys(w, schema, original, Some(next), path, keys, work) == work
    decreases |keys|
  {
    if keys != [] { ShrunkKeepsKeys(w, schema, original, next, path, keys[1..], work); }
  }

  // ----- one step -----------------------------------------------------------------------------------

  /** Taking a row up for examination leaves only what it held owed. */
  lemma {:induction false} TakenUp(
    w: World, work: Work, rest: Work, path: Path, plan: set<Path>, keys: seq<seq<string>>)
    requires Ready(w) && Keeps(w, work, iset{}, plan) && work.pending != [] && work.pending[0].0 == Some(path)
    requires path in w.rows && rest == work.(pending := work.pending[1..], before := Remembered(w, work.before, path))
    requires SchemaOf(w.schemas, w.rows[path].table).Some? ==>
      keys == SchemaOf(w.schemas, w.rows[path].table).value.keys
    ensures Keeps(w, rest, OwedBy(w, path, keys), plan)
  {
    var owed := OwedBy(w, path, keys);
    assert Sound(w, rest) by { RestIsSound(w, work, rest, path); }
    hide Sound, HeldNow, NamesNow, HoldsFor, Ready, Justified, Restricted;
    forall d, key | IsDeclared(w, d) && (d, key) !in owed ensures Settled(w, rest, d, key) {
      assert Settled(w, work, d, key);
      assert forall p :: IsDeferred(w, work, d, key, p) ==> IsDeferred(w, rest, d, key, p);
      if Waiting(w, work, d.fk, key) {
        var p :| (Some(p), None) in work.pending && HoldsFor(w, d.fk, key, p);
        if p == path {
          HeldIsKey(w, d, path, key);
        } else {
          assert (Some(p), None) in work.pending[1..];
        }
      }
    }
  }

  lemma RestIsSound(w: World, work: Work, rest: Work, path: Path)
    requires Sound(w, work) && work.pending != [] && path in w.rows
    requires rest == work.(pending := work.pending[1..], before := Remembered(w, work.before, path))
    ensures Sound(w, rest)
  {
    assert forall e | e in rest.pending :: e in work.pending;
  }

  /** Taking up a row that stays loses nothing. */
  lemma {:induction false} TakenUpStaying(w: World, work: Work, rest: Work, path: Path, plan: set<Path>)
    requires Keeps(w, work, iset{}, plan) && work.pending != [] && work.pending[0] == (Some(path), Some(path))
    requires path in w.rows
    requires rest == work.(pending := work.pending[1..], before := Remembered(w, work.before, path))
    ensures Keeps(w, rest, iset{}, plan)
  {
    assert Sound(w, rest) by { RestIsSound(w, work, rest, path); }
    hide Sound, HeldNow, NamesNow, HoldsFor, Justified, Restricted;
    forall d, key | IsDeclared(w, d) ensures Settled(w, rest, d, key) {
      assert (d, key) !in iset{};
      assert Settled(w, work, d, key);
      assert forall p :: IsDeferred(w, work, d, key, p) ==> IsDeferred(w, rest, d, key, p);
      if Waiting(w, work, d.fk, key) {
        var p :| (Some(p), None) in work.pending && HoldsFor(w, d.fk, key, p);
        assert (Some(p), None) in work.pending[1..];
      }
    }
  }

  lemma {:induction false} PendingIsSound(w: World, work: Work)
    requires Sound(w, work) && work.pending != []
    ensures var (from, to) := work.pending[0];
      && from.Some? && from.value in w.rows && (to == None || to == from)
      && Original(w, work.before, from.value) == Some(w.rows[from.value])
      && (var next := if to.Some? then Current(w, work.after, to.value) else None;
          && (next.Some? ==> next.value.held == w.rows[from.value].held)
          && (next.None? ==> from.value in work.after && work.after[from.value].None?))
  {
    assert work.pending[0] in work.pending;
  }

  /** Every step keeps it all. */
  lemma {:induction false} StepKeeps(w: World, work: Work, plan: set<Path>)
    requires Ready(w) && work.pending != [] && Keeps(w, work, iset{}, plan)
    ensures Step(w, work).failed || Keeps(w, Step(w, work), iset{}, plan)
  {
    hide Keeps, Ready, Sound, ExamineKeys, Current, Original, OwedBy, Remembered;
    KeepsParts(w, work, iset{}, plan);
    PendingIsSound(w, work);
    var (from, to) := work.pending[0];
    var path := from.value;
    var schema := SchemaOf(w.schemas, w.rows[path].table);
    if schema.Some? {
      var next := if to.Some? then Current(w, work.after, to.value) else None;
      var rest := work.(pending := work.pending[1..], before := Remembered(w, work.before, path));
      if next.Some? {
        TakenUpStaying(w, work, rest, path, plan);
        ShrunkKeepsKeys(w, schema.value, w.rows[path], next.value, path, schema.value.keys, rest);
      } else {
        TakenUp(w, work, rest, path, plan, schema.value.keys);
        ExamineKeysKeep(w, path, schema.value.keys, rest, plan);
      }
    }
  }

  lemma {:induction false} RunKeeps(w: World, work: Work, plan: set<Path>)
    requires Ready(w) && Counting(work) && Keeps(w, work, iset{}, plan)
    ensures var end := Run(w, work);
      end.failed || (Keeps(w, end, iset{}, plan) && end.pending == [])
    decreases MAX_EVENTS + 1 - work.events, |work.pending|
  {
    hide Keeps, Ready, Step;
    if !work.failed && work.pending != [] {
      StepAdvances(w, work);
      StepKeeps(w, work, plan);
      if Step(w, work).failed {
        assert Run(w, Step(w, work)) == Step(w, work);
      } else {
        RunKeeps(w, Step(w, work), plan);
      }
    }
  }

  // ----- a row planned away stays away -----------------------------------------------------------------

  lemma ReferrerLeavesGone(w: World, schema: Schema, fk: ForeignKey, vacated: Vacated, work: Work, path: Path)
    ensures GoneStay(work.after, ResolveReferrer(w, schema, fk, vacated, work, path).after)
  {
  }

  lemma {:induction false} ReferrersLeaveGone(
    w: World, schema: Schema, fk: ForeignKey, vacated: Vacated, work: Work, paths: seq<Path>)
    ensures GoneStay(work.after, ResolveReferrers(w, schema, fk, vacated, work, paths).after)
    decreases |paths|
  {
    hide ResolveReferrer;
    if paths != [] {
      ReferrerLeavesGone(w, schema, fk, vacated, work, paths[0]);
      ReferrersLeaveGone(w, schema, fk, vacated, ResolveReferrer(w, schema, fk, vacated, work, paths[0]), paths[1..]);
    }
  }

  lemma {:induction false} ResolveLeavesGone(w: World, vacated: Vacated, work: Work, foreigns: seq<Declared>)
    ensures GoneStay(work.after, Resolve(w, vacated, work, foreigns).after)
    decreases |foreigns|
  {
    hide ResolveReferrers, Concerns, StillHeld, Referrers;
    if foreigns != [] {
      var (schema, fk) := (foreigns[0].schema, foreigns[0].fk);
      ReferrersLeaveGone(w, schema, fk, vacated, work,
        Referrers(w, work.after, ForeignRule(schema.table, fk.name), vacated.key));
      ResolveLeavesGone(w, vacated, ResolveForeign(w, schema, fk, vacated, work), foreigns[1..]);
    }
  }

  lemma {:induction false} ExamineLeavesGone(
    w: World, schema: Schema, original: Row, next: Option<Row>, holder: Path, keys: seq<seq<string>>, work: Work)
    ensures GoneStay(work.after, ExamineKeys(w, schema, original, next, holder, keys, work).after)
    decreases |keys|
  {
    hide Resolve, KeyOf, Foreigns;
    if keys != [] {
      var held := KeyOf(original, schema, keys[0]);
      if held.Some? {
        ResolveLeavesGone(w, Vacated(original.table, keys[0], held.value, next, holder),
          work.(events := work.events + 1), Foreigns(w));
      }
      ExamineLeavesGone(w, schema, original, next, holder, keys[1..],
        ExamineKey(w, schema, original, next, holder, keys[0], work));
    }
  }

  lemma {:induction false} StepLeavesGone(w: World, work: Work)
    requires work.pending != []
    ensures GoneStay(work.after, Step(w, work).after)
  {
    hide ExamineKeys, Original, Current, Remembered;
    var (from, to) := work.pending[0];
    if from.Some? && Original(w, work.before, from.value).Some? {
      var original := Original(w, work.before, from.value).value;
      var schema := SchemaOf(w.schemas, original.table);
      if schema.Some? {
        var next := if to.Some? then Current(w, work.after, to.value) else None;
        ExamineLeavesGone(w, schema.value, original, next, from.value, schema.value.keys,
          work.(pending := work.pending[1..], before := Remembered(w, work.before, from.value)));
      }
    }
  }

  lemma {:induction false} RunLeavesGone(w: World, work: Work)
    requires Counting(work)
    ensures GoneStay(work.after, Run(w, work).after)
    decreases MAX_EVENTS + 1 - work.events, |work.pending|
  {
    hide Step;
    if !work.failed && work.pending != [] {
      StepAdvances(w, work);
      StepLeavesGone(w, work);
      RunLeavesGone(w, Step(w, work));
    }
  }

  lemma {:induction false} BeginPlansAway(w: World, changes: seq<Change>)
    requires DeletesOnly(w, changes)
    ensures forall p | p in PlanPaths(changes) :: p in Begin(changes).after && Begin(changes).after[p].None?
  {
    if changes != [] {
      var front, last := changes[..|changes| - 1], changes[|changes| - 1];
      assert last in changes && forall c | c in front :: c in changes;
      BeginPlansAway(w, front);
      assert forall c | c in changes :: c in front || c == last;
    }
  }

  // ----- from the plan to the end --------------------------------------------------------------------------

  function PlanPaths(changes: seq<Change>): set<Path> {
    set c | c in changes && c.before.Some? :: c.before.value.0
  }

  lemma {:induction false} BeginKeeps(w: World, changes: seq<Change>, plan: set<Path>)
    requires DeletesOnly(w, changes) && NoDangling(w, map[]) && PlanPaths(changes) <= plan
    ensures Keeps(w, Begin(changes), iset{}, plan)
  {
    if changes == [] {
      NothingKeeps(w, plan);
    } else {
      var front, last := changes[..|changes| - 1], changes[|changes| - 1];
      assert last in changes && forall c | c in front :: c in changes;
      BeginKeeps(w, front, plan);
      var path := last.before.value.0;
      hide Keeps, NoDangling;
      KeepsParts(w, Begin(front), iset{}, plan);
      assert Changes(w, Begin(front), Begin(changes), path, None);
      assert path in PlanPaths(changes);
      PlannedIsRecorded(w, Begin(front), Begin(changes), path, plan);
      ChangeKeeps(w, Begin(front), Begin(changes), path, None, iset{}, plan);
    }
  }

  lemma PlannedIsRecorded(w: World, work: Work, later: Work, path: Path, plan: set<Path>)
    requires Recorded(w, work, plan) && Changes(w, work, later, path, None) && path in plan
    requires later.induced == work.induced
    ensures Recorded(w, later, plan)
  {
    hide Justified, Restricted;
    ChangesLeaveGone(w, work, later, path, None);
    ReasonsStay(w, work.after, later.after);
  }

  lemma {:induction false} NothingKeeps(w: World, plan: set<Path>)
    requires NoDangling(w, map[])
    ensures Keeps(w, NO_WORK, iset{}, plan)
  {
    hide HeldNow, NamesNow;
    forall d, key | IsDeclared(w, d) ensures Settled(w, NO_WORK, d, key) {
      assert forall path | NamesNow(w, map[], d, key, path) :: HeldNow(w, map[], d.fk, key);
    }
  }

  /** When nothing waits, nothing has refused, and no deferred reference forbids, every reference names a row. */
  lemma {:induction false} SettledIsNoDangling(w: World, work: Work, plan: set<Path>)
    requires Ready(w) && Keeps(w, work, iset{}, plan) && work.pending == [] && work.refusals == []
    requires forall check | check in work.deferred :: !Forbids(w, work, check)
    ensures NoDangling(w, work.after)
  {
    hide HeldNow, Constraint, TargetsOf, Sound, Recorded;
    forall d, path, key | IsDeclared(w, d) && NamesNow(w, work.after, d, key, path)
      ensures HeldNow(w, work.after, d.fk, key)
    {
      assert (d, key) !in iset{};
      assert Settled(w, work, d, key);
      if !HeldNow(w, work.after, d.fk, key) {
        assert IsDeferred(w, work, d, key, path);
        var check :| check in work.deferred
          && check.path == path && check.foreignKey == d.fk.name && check.vacated.key == key
            && Compares(w, d.fk, check.vacated.columns);
        DeferredForbids(w, work, d, check);
      }
    }
  }

  lemma {:induction false} DeferredForbids(w: World, work: Work, d: Declared, check: Deferred)
    requires Ready(w) && IsDeclared(w, d) && NamesNow(w, work.after, d, check.vacated.key, check.path)
    requires check.foreignKey == d.fk.name && Compares(w, d.fk, check.vacated.columns)
    requires !Forbids(w, work, check)
    ensures HeldNow(w, work.after, d.fk, check.vacated.key)
  {
    hide HeldNow, Constraint, Compares, StillHeld, Names;
    assert DeclaredWell(w, d) && Coherent(w, d.fk);
    StillHeldIsHeld(w, d.fk, work.after, check.vacated.key, check.vacated.columns);
  }

  /**
   From rows whose every reference names a row, a plan of deletions that is
   accepted leaves rows whose every reference names a row; rows have only gone
   or lost references, those planned away are gone; and every row changed
   beyond the plan is on record, because it named a key a row now gone held.
   */
  lemma {:induction false} DeletionsAreSafe(w: World, changes: seq<Change>)
    requires Ready(w) && DeletesOnly(w, changes) && NoDangling(w, map[])
    ensures var expansion := Expanded(w, changes);
      expansion.Accepted? ==>
        && NoDangling(w, expansion.after)
        && (forall p | p in expansion.after ::
             p in w.rows && (expansion.after[p].Some? ==> Shrunk(expansion.after[p].value, w.rows[p])))
        && (forall p | p in PlanPaths(changes) :: p in expansion.after && expansion.after[p].None?)
        && (forall p | p in expansion.after :: p in PlanPaths(changes) || exists i | i in expansion.induced ::
          i.path == p)
        && (forall i | i in expansion.induced :: Justified(w, expansion.after, i))
  {
    hide NoDangling, Ready, Keeps, Forbids, Step, Justified, Restricted, DeletesOnly;
    BeginPlansAway(w, changes);
    RunLeavesGone(w, Begin(changes));
    var plan := PlanPaths(changes);
    BeginKeeps(w, changes, plan);
    var end := Run(w, Begin(changes));
    RunKeeps(w, Begin(changes), plan);
    if Expanded(w, changes).Accepted? {
      KeepsParts(w, end, iset{}, plan);
      SettledIsNoDangling(w, end, plan);
    }
  }
}
