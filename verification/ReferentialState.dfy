/** The working state of a closure: planned rows, and indexes of what they hold and name kept in step with them. */
module ReferentialState {
  import opened Json
  import opened Sequences
  import opened Judging
  import opened Referential

  function Slots<K>(index: map<K, set<Path>>, at: K): set<Path> {
    if at in index then index[at] else {}
  }

  /** An index with a path put under a key, or taken from it. */
  function Updated<K>(index: map<K, set<Path>>, at: K, path: Path, add: bool): map<K, set<Path>> {
    index[at := if add then Slots(index, at) + {path} else Slots(index, at) - {path}]
  }

  lemma SlotUpdated<K(!new)>(index: map<K, set<Path>>, at: K, path: Path, add: bool)
    ensures forall k, p ::
      p in Slots(Updated(index, at, path, add), k) <==> if k == at && p == path then add else p in Slots(index, k)
  {
  }

  /** Planned rows by the key they hold: table, constraint and key. */
  type KeyIndex = map<(string, string, string), set<Path>>

  /** Planned rows by the key they name: rule and key. */
  type ReferenceIndex = map<(string, string), set<Path>>

  ghost predicate HoldersExact(after: map<Path, Option<Row>>, holders: KeyIndex) {
    forall table, constraint, key, p ::
      p in Slots(holders, (table, constraint, key)) <==>
        p in after && after[p].Some? && HeldBy(after[p].value, table, constraint, key)
  }

  ghost predicate ReferencesExact(after: map<Path, Option<Row>>, references: ReferenceIndex) {
    forall rule, key, p ::
      p in Slots(references, (rule, key)) <==> p in after && after[p].Some? && Names(after[p].value, rule, key)
  }

  /** What a closure has to show for itself besides the rows it planned. */
  datatype Progress = Progress(
    pending: seq<(Option<Path>, Option<Path>)>,
    induced: seq<Induced>,
    refusals: seq<Refusal>,
    deferred: seq<Deferred>,
    events: nat,
    failed: bool)

  class State {
    const w: World
    var before: map<Path, Row>
    var after: map<Path, Option<Row>>
    var holders: KeyIndex
    var references: ReferenceIndex

    /** A path is under a key in an index exactly when the planned row there holds or names it. */
    ghost predicate Valid()
      reads this
    {
      HoldersExact(after, holders) && ReferencesExact(after, references)
    }

    function Value(progress: Progress): Work
      reads this
    {
      Work(before, after, progress.pending, progress.induced, progress.refusals, progress.deferred, progress.events,
        progress.failed)
    }

    constructor (world: World)
      ensures Valid() && w == world && before == map[] && after == map[]
    {
      w := world;
      before := map[];
      after := map[];
      holders := map[];
      references := map[];
    }

    /** Add a row to the indexes, or take it out of them. */
    method Index(path: Path, row: Row, add: bool)
      modifies this`holders, this`references
      ensures forall table, constraint, key, p ::
        p in Slots(holders, (table, constraint, key)) <==>
          if p == path && HeldBy(row, table, constraint, key) then add
            else p in Slots(old(holders), (table, constraint, key))
      ensures forall rule, key, p ::
        p in Slots(references, (rule, key)) <==>
          if p == path && Names(row, rule, key) then add else p in Slots(old(references), (rule, key))
    {
      hide Updated, Slots;
      var constraints := row.held.Keys;
      ghost var done: set<string> := {};
      while constraints != {}
        invariant constraints + done == row.held.Keys && constraints !! done
        invariant references == old(references)
        invariant forall table, constraint, key, p ::
          p in Slots(holders, (table, constraint, key)) <==>
            if p == path && HeldBy(row, table, constraint, key) && constraint in done then add
            else p in Slots(old(holders), (table, constraint, key))
      {
        var constraint :| constraint in constraints;
        var at := (row.table, constraint, row.held[constraint]);
        SlotUpdated(holders, at, path, add);
        holders := Updated(holders, at, path, add);
        constraints := constraints - {constraint};
        done := done + {constraint};
      }
      ghost var indexed := holders;
      for i := 0 to |row.slots|
        invariant holders == indexed
        invariant forall rule, key, p ::
          p in Slots(references, (rule, key)) <==>
            if p == path && NamesIn(row.slots[..i], rule, key) then add else p in Slots(old(references), (rule, key))
      {
        var at := (row.slots[i].rule, row.slots[i].target);
        SlotUpdated(references, at, path, add);
        references := Updated(references, at, path, add);
        NamesOneMore(row.slots, i);
      }
      assert row.slots[..|row.slots|] == row.slots;
    }

    /** Record what a path will hold, keeping the indexes in step. */
    method Plan(path: Path, value: Option<Row>)
      requires Valid()
      modifies this`after, this`holders, this`references
      ensures Valid() && after == old(after)[path := value]
    {
      if path in after && after[path].Some? { Index(path, after[path].value, false); }
      if value.Some? { Index(path, value.value, true); }
      after := after[path := value];
    }

    /** The row at a path before the plan, remembered. */
    method Remember(path: Path)
      modifies this`before
      ensures before == Remembered(w, old(before), path)
    {
      before := Remembered(w, before, path);
    }

    /** Whether any row of the target tables holds the key once the plan applies, by the indexes. */
    method FindHolder(key: string, columns: seq<string>, targets: seq<string>) returns (held: bool)
      requires Valid()
      ensures held == StillHeld(w, after, key, columns, targets)
    {
      hide ConstraintName;
      for i := 0 to |targets|
        invariant forall j | 0 <= j < i :: !HeldAt(w, after, targets[j], columns, key)
      {
        var schema := SchemaOf(w.schemas, targets[i]);
        if schema.Some? && (columns in schema.value.keys || columns == PrimaryKey(schema.value)) {
          var constraint := ConstraintName(schema.value, columns);
          if exists p | p in w.rows && p !in after :: HeldBy(w.rows[p], targets[i], constraint, key) {
            assert HeldAt(w, after, targets[i], columns, key);
            return true;
          }
          if Slots(holders, (targets[i], constraint, key)) != {} {
            ghost var p :| p in Slots(holders, (targets[i], constraint, key));
            assert HeldBy(after[p].value, targets[i], constraint, key);
            assert HeldAt(w, after, targets[i], columns, key);
            return true;
          }
          assert forall p | p in after && after[p].Some? :: !HeldBy(after[p].value, targets[i], constraint, key) by {
            forall p | p in after && after[p].Some? ensures !HeldBy(after[p].value, targets[i], constraint, key) {
              assert p !in Slots(holders, (targets[i], constraint, key));
            }
          }
        }
      }
      held := false;
    }

    /** The rows that name a key: by the mirror's edges, and for rows the plan writes, by the index. */
    method FindReferrers(rule: string, key: string) returns (paths: seq<Path>)
      requires Valid()
      ensures paths == Referrers(w, after, rule, key)
    {
      var planned := Slots(references, (rule, key));
      assert planned == PlannedReferrers(after, rule, key);
      paths := Ascending((set p | p in w.rows && Names(w.rows[p], rule, key)) + planned);
    }

    /** Act on one referrer of a vacated key. */
    method Act(d: Declared, vacated: Vacated, path: Path, progress: Progress) returns (later: Progress)
      requires Valid()
      modifies this
      ensures Valid() && Value(later) == ResolveReferrer(w, d.schema, d.fk, vacated, old(Value(progress)), path)
    {
      hide Acted, Names, Remembered, HeldBy;
      var rule := ForeignRule(d.schema.table, d.fk.name);
      var row := Current(w, after, path);
      later := progress;
      if row.None? || row.value.table != d.schema.table || !Names(row.value, rule, vacated.key) { return; }
      var action := ActionOf(d.fk, vacated);
      if action == Restrict {
        later := later.(refusals := later.refusals + [Refusal(path, rule, vacated.key)]);
      } else if action == NoAction {
        later := later.(deferred := later.deferred + [Deferred(path, d.fk.name, vacated)]);
      } else {
        later := later.(induced := later.induced + [Induced(path, action, rule, vacated.key, vacated.holder)]);
        Remember(path);
        if action == Cascade && vacated.replacement.None? {
          Plan(path, None);
          later := later.(pending := later.pending + [(Some(path), None)]);
        } else {
          Plan(path, Some(Acted(w, d.fk, rule, vacated, row.value)));
          later := later.(pending := later.pending + [(Some(path), Some(path))]);
        }
      }
    }

    /** Resolve one foreign key's references to a vacated key. */
    method ResolveOne(d: Declared, vacated: Vacated, progress: Progress) returns (later: Progress)
      requires Valid()
      modifies this
      ensures Valid() && Value(later) == ResolveForeign(w, d.schema, d.fk, vacated, old(Value(progress)))
    {
      hide ResolveReferrer, Referrers, StillHeld, Concerns, HoldersExact, ReferencesExact;
      later := progress;
      if !Concerns(w, d.fk, vacated) { return; }
      var held := FindHolder(vacated.key, vacated.columns, TargetTables(w.schemas, d.fk.to));
      if held { return; }
      var paths := FindReferrers(ForeignRule(d.schema.table, d.fk.name), vacated.key);
      ghost var start := Value(progress);
      assert paths[0..] == paths;
      for i := 0 to |paths|
        invariant Valid()
        invariant ResolveReferrers(w, d.schema, d.fk, vacated, Value(later), paths[i..])
          == ResolveReferrers(w, d.schema, d.fk, vacated, start, paths)
      {
        assert paths[i..][0] == paths[i] && paths[i..][1..] == paths[i + 1..];
        later := Act(d, vacated, paths[i], later);
      }
    }

    /** Resolve every reference to a vacated key. */
    method ResolveAll(vacated: Vacated, progress: Progress) returns (later: Progress)
      requires Valid()
      modifies this
      ensures Valid() && Value(later) == Resolve(w, vacated, old(Value(progress)), Foreigns(w))
    {
      hide ResolveForeign, Foreigns, HoldersExact, ReferencesExact;
      var foreigns := Foreigns(w);
      later := progress;
      ghost var start := Value(progress);
      assert foreigns[0..] == foreigns;
      for i := 0 to |foreigns|
        invariant Valid()
        invariant Resolve(w, vacated, Value(later), foreigns[i..]) == Resolve(w, vacated, start, foreigns)
      {
        assert foreigns[i..][0] == foreigns[i] && foreigns[i..][1..] == foreigns[i + 1..];
        later := ResolveOne(foreigns[i], vacated, later);
      }
    }

    /** Examine one row's candidate keys. */
    method Examine(schema: Schema, original: Row, next: Option<Row>, holder: Path, progress: Progress)
      returns (later: Progress)
      requires Valid()
      modifies this
      ensures Valid()
      ensures Value(later) == ExamineKeys(w, schema, original, next, holder, schema.keys, old(Value(progress)))
    {
      hide Resolve, KeyOf, HoldersExact, ReferencesExact;
      var keys := schema.keys;
      later := progress;
      ghost var start := Value(progress);
      assert keys[0..] == keys;
      for i := 0 to |keys|
        invariant Valid()
        invariant ExamineKeys(w, schema, original, next, holder, keys[i..], Value(later))
          == ExamineKeys(w, schema, original, next, holder, keys, start)
      {
        assert keys[i..][0] == keys[i] && keys[i..][1..] == keys[i + 1..];
        var held := KeyOf(original, schema, keys[i]);
        if !later.failed && held.Some? && (next.None? || KeyOf(next.value, schema, keys[i]) != held) {
          later := later.(events := later.events + 1);
          if later.events > MAX_EVENTS {
            later := later.(failed := true);
          } else {
            later := ResolveAll(Vacated(original.table, keys[i], held.value, next, holder), later);
          }
        }
      }
    }
  }

  lemma NamesOneMore(slots: seq<Slot>, i: nat)
    requires i < |slots|
    ensures forall rule, key ::
      NamesIn(slots[..i + 1], rule, key) <==> NamesIn(slots[..i], rule, key) || Naming(slots[i], rule, key)
  {
    assert slots[..i + 1] == slots[..i] + [slots[i]];
  }

  // ----- the whole closure ---------------------------------------------------------------------------

  lemma RunOnce(w: World, work: Work)
    requires Counting(work) && !work.failed && work.pending != []
    ensures Counting(Step(w, work)) && Run(w, work) == Run(w, Step(w, work))
    ensures Step(w, work).events > work.events
      || (Step(w, work).events == work.events && |Step(w, work).pending| < |work.pending|)
  {
    hide Step;
    StepAdvances(w, work);
  }

  /** Plan every change, and queue the rows it changes. */
  method PlanAll(state: State, changes: seq<Change>) returns (progress: Progress)
    requires state.Valid() && state.before == map[] && state.after == map[]
    modifies state
    ensures state.Valid() && state.Value(progress) == Begin(changes)
  {
    hide HoldersExact, ReferencesExact;
    progress := Progress([], [], [], [], 0, false);
    for i := 0 to |changes|
      invariant state.Valid() && state.Value(progress) == Begin(changes[..i])
    {
      assert changes[..i + 1][..i] == changes[..i];
      var change := changes[i];
      if change.before.Some? {
        state.before := state.before[change.before.value.0 := change.before.value.1];
        if PathOf(change.after) != PathOf(change.before) { state.Plan(change.before.value.0, None); }
      }
      if change.after.Some? { state.Plan(change.after.value.0, Some(change.after.value.1)); }
      progress := progress.(pending := progress.pending + [(PathOf(change.before), PathOf(change.after))]);
    }
    assert changes[..|changes|] == changes;
  }

  /** Complete a plan with the actions its foreign keys require. */
  method Expand(w: World, changes: seq<Change>) returns (expansion: Expansion)
    ensures expansion == Expanded(w, changes)
  {
    hide HoldersExact, ReferencesExact, ExamineKeys, Forbids, Current;
    var state := new State(w);
    var progress := PlanAll(state, changes);
    while !progress.failed && progress.pending != []
      invariant state.Valid() && Counting(state.Value(progress))
      invariant Run(w, state.Value(progress)) == Run(w, Begin(changes))
      decreases MAX_EVENTS + 1 - progress.events, |progress.pending|
    {
      ghost var work := state.Value(progress);
      RunOnce(w, work);
      var (from, to) := progress.pending[0];
      progress := progress.(pending := progress.pending[1..]);
      if from.Some? {
        var original := Original(w, state.before, from.value);
        if original.Some? {
          var schema := SchemaOf(w.schemas, original.value.table);
          if schema.None? {
            progress := progress.(failed := true);
          } else {
            var next := if to.Some? then Current(w, state.after, to.value) else None;
            state.Remember(from.value);
            progress := state.Examine(schema.value, original.value, next, from.value, progress);
          }
        }
      }
      assert state.Value(progress) == Step(w, work);
    }
    expansion := Judge(w, state.Value(progress));
  }
}
