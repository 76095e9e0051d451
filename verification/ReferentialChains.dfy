/**
 Exactly which schemas make sound plans safe: those where no row that a foreign
 key could name goes when another row does.
 */
module ReferentialChains {
  import opened Json
  import opened Sequences
  import opened Judging
  import opened Referential
  import opened ReferentialSafety
  import opened ReferentialClosure
  import opened ReferentialLimits
  import opened ReferentialPlans

  /** No table that a foreign key targets itself cascades the deletion of what it names. */
  ghost predicate Unchained(w: World) {
    forall e | IsDeclared(w, e) && e.fk.onDelete == Cascade :: !Targeted(w, e.schema.table)
  }

  /** No accepted plan whose own references are sound, on any rows, leaves a reference to nothing. */
  ghost predicate SafeToPlan(schemas: seq<Schema>) {
    forall rows, changes, places :: SafePlan(World(schemas, rows), changes, places)
  }

  ghost predicate SafePlan(w: World, changes: seq<Change>, places: Places) {
    WellPlanned(w, changes, places) && NoDangling(w, map[]) && WritesSoundly(w, Begin(changes).after) ==>
      var expansion := Expanded(w, changes);
      expansion.Accepted? ==> NoDangling(w, expansion.after)
  }

  // ----- rows that could be named stay -----------------------------------------------------------

  ghost predicate Stay(w: World, paths: set<Path>, after: map<Path, Option<Row>>) {
    forall p | p in paths :: p in after && after[p].Some? && Targeted(w, after[p].value.table)
  }

  lemma ReferrerStays(w: World, d: Declared, vacated: Vacated, work: Work, path: Path, paths: set<Path>)
    requires Unchained(w) && IsDeclared(w, d) && Stay(w, paths, work.after)
    ensures Stay(w, paths, ResolveReferrer(w, d.schema, d.fk, vacated, work, path).after)
  {
    hide Targeted, Names, IsDeclared;
  }

  lemma {:induction false} ReferrersStay(
    w: World, d: Declared, vacated: Vacated, work: Work, referrers: seq<Path>, paths: set<Path>)
    requires Unchained(w) && IsDeclared(w, d) && Stay(w, paths, work.after)
    ensures Stay(w, paths, ResolveReferrers(w, d.schema, d.fk, vacated, work, referrers).after)
    decreases |referrers|
  {
    hide Unchained, IsDeclared, Stay, ResolveReferrer;
    if referrers != [] {
      ReferrerStays(w, d, vacated, work, referrers[0], paths);
      ReferrersStay(w, d, vacated, ResolveReferrer(w, d.schema, d.fk, vacated, work, referrers[0]), referrers[1..],
        paths);
    }
  }

  lemma {:induction false} ResolveStays(
    w: World, vacated: Vacated, work: Work, foreigns: seq<Declared>, paths: set<Path>)
    requires Unchained(w) && Stay(w, paths, work.after) && forall d | d in foreigns :: IsDeclared(w, d)
    ensures Stay(w, paths, Resolve(w, vacated, work, foreigns).after)
    decreases |foreigns|
  {
    hide Unchained, IsDeclared, Stay, ResolveReferrers, Concerns, StillHeld, Referrers;
    if foreigns != [] {
      var d := foreigns[0];
      ReferrersStay(w, d, vacated, work, Referrers(w, work.after, RuleOf(d), vacated.key), paths);
      ResolveStays(w, vacated, ResolveForeign(w, d.schema, d.fk, vacated, work), foreigns[1..], paths);
    }
  }

  lemma {:induction false} ExamineStays(
    w: World, schema: Schema, original: Row, next: Option<Row>, holder: Path, keys: seq<seq<string>>, work: Work,
      paths: set<Path>)
    requires Unchained(w) && Stay(w, paths, work.after)
    ensures Stay(w, paths, ExamineKeys(w, schema, original, next, holder, keys, work).after)
    decreases |keys|
  {
    hide Unchained, IsDeclared, Stay, Resolve, KeyOf, Foreigns;
    if keys != [] {
      AllDeclared(w);
      var held := KeyOf(original, schema, keys[0]);
      if held.Some? {
        ResolveStays(w, Vacated(original.table, keys[0], held.value, next, holder),
          work.(events := work.events + 1), Foreigns(w), paths);
      }
      ExamineStays(w, schema, original, next, holder, keys[1..],
        ExamineKey(w, schema, original, next, holder, keys[0], work), paths);
    }
  }

  lemma StepStays(w: World, work: Work, paths: set<Path>)
    requires Unchained(w) && Stay(w, paths, work.after) && work.pending != []
    ensures Stay(w, paths, Step(w, work).after)
  {
    hide Unchained, Stay, ExamineKeys;
    var (from, to) := work.pending[0];
    if from.Some? && Original(w, work.before, from.value).Some? {
      var original := Original(w, work.before, from.value).value;
      var schema := SchemaOf(w.schemas, original.table);
      if schema.Some? {
        var next := if to.Some? then Current(w, work.after, to.value) else None;
        ExamineStays(w, schema.value, original, next, from.value, schema.value.keys,
          work.(pending := work.pending[1..], before := Remembered(w, work.before, from.value)), paths);
      }
    }
  }

  lemma {:induction false} RunStays(w: World, work: Work, paths: set<Path>)
    requires Unchained(w) && Stay(w, paths, work.after) && Counting(work)
    ensures Stay(w, paths, Run(w, work).after)
    decreases MAX_EVENTS + 1 - work.events, |work.pending|
  {
    hide Unchained, Stay, Step;
    if !work.failed && work.pending != [] {
      StepAdvances(w, work);
      StepStays(w, work, paths);
      RunStays(w, Step(w, work), paths);
    }
  }

  lemma {:induction false} UnchainedIsSafe(w: World, changes: seq<Change>, places: Places)
    requires Prepared(w) && Unchained(w)
    ensures SafePlan(w, changes, places)
  {
    hide Prepared, Unchained, NoDangling, WellPlanned, WritesSoundly, Targeted, Run, Begin, Forbids;
    if WellPlanned(w, changes, places) && NoDangling(w, map[]) && WritesSoundly(w, Begin(changes).after)
      && Expanded(w, changes).Accepted?
    {
      var plan := Begin(changes).after;
      var paths := set p | p in plan && plan[p].Some? && Targeted(w, plan[p].value.table);
      RunStays(w, Begin(changes), paths);
      KeptPlansAreSafe(w, changes, places);
    }
  }

  // ----- a plan a chain makes unsafe ---------------------------------------------------------------

  const J := "j"

  /** A row that goes, a row put in that names it, and one put in that names that one. */
  datatype Scene = Scene(d: Declared, e: Declared, a: Row, b: Row, c: Row)

  /** `e` takes a row of a table that `d` targets with the row it names. */
  ghost predicate Chained(w: World, d: Declared, e: Declared) {
    && WellDeclared(w) && IsDeclared(w, d) && IsDeclared(w, e)
    && e.schema.table in TargetsOf(w, d.fk) && e.fk.onDelete == Cascade
  }

  ghost predicate Staged(w: World, s: Scene) {
    && Chained(w, s.d, s.e) && w.rows == map["c" := s.c]
    && s.a == Row(s.e.schema.table, map[Constraint(w, s.d.fk) := J], [Slot(RuleOf(s.e), K, [])])
    && s.b == Row(s.d.schema.table, map[], [Slot(RuleOf(s.d), J, [])])
    && TargetsOf(w, s.e.fk) != [] && s.c == Row(TargetsOf(w, s.e.fk)[0], map[Constraint(w, s.e.fk) := K], [])
  }

  function Changed(s: Scene): seq<Change> {
    [Change(None, Some(("a", s.a))), Change(None, Some(("b", s.b))), Change(Some(("c", s.c)), None)]
  }

  function PlacesIn(s: Scene): Places {
    (p: Path) => if p == "a" then s.a.table else if p == "b" then s.b.table else s.c.table
  }

  function Planned(s: Scene, a: Option<Row>): map<Path, Option<Row>> {
    map["a" := a, "b" := Some(s.b), "c" := None]
  }

  const LAST_OF_ALL: (Option<Path>, Option<Path>) := (Some("c"), None)

  /** What the steps leave: the row put in that names the one going may go too, and nothing else happens. */
  ghost predicate Mild(s: Scene, work: Work) {
    && !work.failed && work.refusals == [] && work.deferred == []
    && (work.after == Planned(s, Some(s.a)) || work.after == Planned(s, None))
    && work.before == map["c" := s.c]
    && (forall e | e in work.pending :: e.0.None? || e.0 == Some("a") || e == LAST_OF_ALL)
  }

  lemma SlotsAre(s: Slot, rule: string, key: string)
    ensures NamesIn([s], rule, key) <==> Naming(s, rule, key)
  {
    assert s in [s];
  }

  /** Under any rule, only the one row names the key, by the one foreign key. */
  lemma OnlyOneNames(w: World, s: Scene, f: Declared, after: map<Path, Option<Row>>, path: Path)
    requires Staged(w, s) && IsDeclared(w, f) && NamesNow(w, after, f, K, path)
    requires after == Planned(s, Some(s.a)) || after == Planned(s, None)
    ensures path == "a" && after == Planned(s, Some(s.a)) && f == s.e
  {
    hide Constraint, TargetsOf, WellDeclared, IsDeclared;
    SlotsAre(Slot(RuleOf(s.e), K, []), RuleOf(f), K);
    SlotsAre(Slot(RuleOf(s.d), J, []), RuleOf(f), K);
    assert path == "a";
    OneRule(w, f, s.e);
  }

  ghost predicate GoesAway(s: Scene, vacated: Vacated) {
    vacated.table == s.c.table && vacated.key == K && vacated.replacement.None? && vacated.holder == "c"
  }

  lemma ReferrerIsMild(w: World, s: Scene, f: Declared, vacated: Vacated, work: Work, path: Path)
    requires Staged(w, s) && IsDeclared(w, f) && GoesAway(s, vacated) && Mild(s, work)
    requires LAST_OF_ALL !in work.pending
    ensures var later := ResolveReferrer(w, f.schema, f.fk, vacated, work, path);
      Mild(s, later) && LAST_OF_ALL !in later.pending && Extends(work, later)
  {
    hide Constraint, TargetsOf, WellDeclared, IsDeclared, NamesNow;
    NotNamedIsLeft(w, f, vacated, work, path);
    if NamesNow(w, work.after, f, K, path) {
      OnlyOneNames(w, s, f, work.after, path);
      TakesA(w, s, vacated, work);
    }
  }

  lemma TakesA(w: World, s: Scene, vacated: Vacated, work: Work)
    requires Staged(w, s) && GoesAway(s, vacated) && Mild(s, work) && work.after == Planned(s, Some(s.a))
    requires LAST_OF_ALL !in work.pending
    ensures var later := ResolveReferrer(w, s.e.schema, s.e.fk, vacated, work, "a");
      Mild(s, later) && LAST_OF_ALL !in later.pending && Extends(work, later)
  {
    hide Constraint, TargetsOf, WellDeclared, IsDeclared, Names;
    assert Planned(s, Some(s.a))["a" := None] == Planned(s, None);
    assert Remembered(w, work.before, "a") == work.before;
  }

  lemma {:induction false} ReferrersAreMild(
    w: World, s: Scene, f: Declared, vacated: Vacated, work: Work, paths: seq<Path>)
    requires Staged(w, s) && IsDeclared(w, f) && GoesAway(s, vacated) && Mild(s, work)
    requires LAST_OF_ALL !in work.pending
    ensures var later := ResolveReferrers(w, f.schema, f.fk, vacated, work, paths);
      Mild(s, later) && LAST_OF_ALL !in later.pending && Extends(work, later)
    decreases |paths|
  {
    hide Staged, Mild, GoesAway, IsDeclared, ResolveReferrer;
    if paths != [] {
      ReferrerIsMild(w, s, f, vacated, work, paths[0]);
      ReferrersAreMild(w, s, f, vacated, ResolveReferrer(w, f.schema, f.fk, vacated, work, paths[0]), paths[1..]);
    }
  }

  lemma {:induction false} ResolveIsMild(w: World, s: Scene, vacated: Vacated, work: Work, foreigns: seq<Declared>)
    requires Staged(w, s) && GoesAway(s, vacated) && Mild(s, work) && LAST_OF_ALL !in work.pending
    requires forall f | f in foreigns :: IsDeclared(w, f)
    ensures var later := Resolve(w, vacated, work, foreigns);
      Mild(s, later) && LAST_OF_ALL !in later.pending && Extends(work, later)
    decreases |foreigns|
  {
    hide Staged, Mild, GoesAway, IsDeclared, ResolveReferrers, Concerns, StillHeld, Referrers;
    if foreigns != [] {
      var f := foreigns[0];
      ReferrersAreMild(w, s, f, vacated, work, Referrers(w, work.after, RuleOf(f), vacated.key));
      ResolveIsMild(w, s, vacated, ResolveForeign(w, f.schema, f.fk, vacated, work), foreigns[1..]);
    }
  }

  lemma {:induction false} ExamineIsMild(
    w: World, s: Scene, schema: Schema, keys: seq<seq<string>>, work: Work)
    requires Staged(w, s) && Mild(s, work) && LAST_OF_ALL !in work.pending && work.events + |keys| <= MAX_EVENTS
    ensures var later := ExamineKeys(w, schema, s.c, None, "c", keys, work);
      Mild(s, later) && LAST_OF_ALL !in later.pending
    decreases |keys|
  {
    hide Constraint, TargetsOf, Chained, Resolve;
    if keys != [] {
      AllDeclared(w);
      var key := KeyOf(s.c, schema, keys[0]);
      if key.Some? {
        var counted := work.(events := work.events + 1);
        ResolveIsMild(w, s, Vacated(s.c.table, keys[0], K, None, "c"), counted, Foreigns(w));
      }
      ExamineIsMild(w, s, schema, keys[1..], ExamineKey(w, schema, s.c, None, "c", keys[0], work));
    }
  }

  /** One row waits, or none. */
  ghost predicate Waits(work: Work, at: nat) {
    && at < |work.pending| && work.pending[at] == LAST_OF_ALL && work.events == 0
    && forall i | 0 <= i < |work.pending| && i != at :: work.pending[i] != LAST_OF_ALL
  }

  lemma {:induction false} RunIsMild(w: World, s: Scene, work: Work)
    requires Staged(w, s) && Mild(s, work) && Counting(work)
    requires LAST_OF_ALL !in work.pending || exists at :: Waits(work, at)
    requires forall schema | schema in w.schemas :: |schema.keys| <= MAX_EVENTS
    ensures var end := Run(w, work); Mild(s, end) && end.pending == []
    decreases MAX_EVENTS + 1 - work.events, |work.pending|
  {
    hide Staged, Step;
    if work.pending != [] {
      StepAdvances(w, work);
      StepIsMild(w, s, work);
      hide Mild, Waits;
      RunIsMild(w, s, Step(w, work));
    }
  }

  lemma {:induction false} StepIsMild(w: World, s: Scene, work: Work)
    requires Staged(w, s) && Mild(s, work) && work.pending != []
    requires LAST_OF_ALL !in work.pending || exists at :: Waits(work, at)
    requires forall schema | schema in w.schemas :: |schema.keys| <= MAX_EVENTS
    ensures Mild(s, Step(w, work))
    ensures LAST_OF_ALL !in Step(w, work).pending || exists at :: Waits(Step(w, work), at)
  {
    hide ExamineKeys, SchemaOf;
    var rest := work.(pending := work.pending[1..]);
    OnlyCWasThere(w, s);
    hide Staged;
    assert forall e | e in rest.pending :: e in work.pending;
    if work.pending[0] != LAST_OF_ALL {
      assert Step(w, work) == rest;
      if at: nat :| Waits(work, at) { assert Waits(rest, at - 1); }
    } else {
      var at: nat :| Waits(work, at);
      assert at == 0 && LAST_OF_ALL !in rest.pending;
      var schema := SchemaOf(w.schemas, s.c.table).value;
      assert Remembered(w, work.before, "c") == work.before;
      ExamineIsMild(w, s, schema, schema.keys, rest);
      assert Step(w, work) == ExamineKeys(w, schema, s.c, None, "c", schema.keys, rest);
    }
  }

  lemma OnlyCWasThere(w: World, s: Scene)
    requires Staged(w, s)
    ensures w.rows == map["c" := s.c]
    ensures SchemaOf(w.schemas, s.c.table).Some? && SchemaOf(w.schemas, s.c.table).value in w.schemas
  {
    assert DeclaredWell(w, s.e);
    assert s.c.table in TargetsOf(w, s.e.fk);
    SchemaOfTable(w.schemas, s.c.table);
  }

  // ----- and what it leaves --------------------------------------------------------------------------

  lemma BeganThree(s: Scene)
    ensures Begin(Changed(s)) == Work(map["c" := s.c], Planned(s, Some(s.a)),
      [(None, Some("a")), (None, Some("b")), LAST_OF_ALL], [], [], [], 0, false)
  {
    var changes := Changed(s);
    assert changes[..2][..1] == changes[..1] && changes[..1][..0] == [];
    assert Begin([]) == NO_WORK;
    assert Begin(changes[..1]) == Begun(NO_WORK, changes[0]);
    assert Begin(changes[..2]) == Begun(Begin(changes[..1]), changes[1]);
    assert Begin(changes) == Begun(Begin(changes[..2]), changes[2]);
    assert NO_WORK.pending + [(None, Some("a"))] + [(None, Some("b"))] + [LAST_OF_ALL]
        == [(None, Some("a")), (None, Some("b")), LAST_OF_ALL];
    var after: map<Path, Option<Row>> := map[];
    assert after["a" := Some(s.a)]["b" := Some(s.b)]["c" := None] == Planned(s, Some(s.a));
  }

  lemma WellStaged(w: World, s: Scene)
    requires Staged(w, s)
    ensures WellPlanned(w, Changed(s), PlacesIn(s)) && NoDangling(w, map[])
    ensures WritesSoundly(w, Planned(s, Some(s.a)))
  {
    hide Constraint, TargetsOf, WellDeclared, IsDeclared;
    var plan := Planned(s, Some(s.a));
    forall f, key | IsDeclared(w, f) && WrittenIn(w, plan, f, key)
      ensures HeldBefore(w, f.fk, key) || Given(w, plan, f.fk, key)
    {
      SlotsAre(Slot(RuleOf(s.e), K, []), RuleOf(f), key);
      SlotsAre(Slot(RuleOf(s.d), J, []), RuleOf(f), key);
      var p :| p in plan && plan[p].Some? && plan[p].value.table == f.schema.table
        && Names(plan[p].value, RuleOf(f), key);
      if p == "a" {
        OneRule(w, f, s.e);
        assert HoldsFor(w, f.fk, key, "c");
      } else {
        OneRule(w, f, s.d);
        assert GivenAt(w, plan, f.fk, key, "a");
      }
    }
  }

  /** At the end nothing names the key that went, so the row that named it has gone. */
  lemma AHasGone(w: World, s: Scene, end: Work)
    requires Staged(w, s) && Mild(s, end) && end.pending == []
    requires ReferentialPlans.Holding(w, Planned(s, Some(s.a)), end, iset{})
    ensures end.after == Planned(s, None)
  {
    hide Constraint, TargetsOf, WellDeclared, IsDeclared, HeldUnder, Stands;
    var plan := Planned(s, Some(s.a));
    KIsGone(w, s, end.after);
    assert HoldsFor(w, s.e.fk, K, "c");
    assert (s.e, K) !in iset{};
    assert !Introduced(w, plan, s.e, K);
    assert Resolved(w, end, s.e, K);
    SlotsAre(Slot(RuleOf(s.e), K, []), RuleOf(s.e), K);
    assert NamesNow(w, plan, s.e, K, "a");
    if end.after == plan { assert false; }
  }

  lemma KIsGone(w: World, s: Scene, after: map<Path, Option<Row>>)
    requires Staged(w, s) && (after == Planned(s, Some(s.a)) || after == Planned(s, None))
    ensures !HeldNow(w, after, s.e.fk, K) && !Given(w, Planned(s, Some(s.a)), s.e.fk, K)
    ensures after == Planned(s, None) ==> !HeldNow(w, after, s.d.fk, J)
  {
    hide Constraint, TargetsOf, WellDeclared, IsDeclared;
  }

  lemma BDangles(w: World, s: Scene, after: map<Path, Option<Row>>)
    requires Staged(w, s) && after == Planned(s, None)
    ensures !NoDangling(w, after)
  {
    hide Constraint, TargetsOf, WellDeclared;
    KIsGone(w, s, after);
    SlotsAre(Slot(RuleOf(s.d), J, []), RuleOf(s.d), J);
    assert NamesNow(w, after, s.d, J, "b");
  }

  lemma {:induction false} ChainedIsUnsafe(w: World, s: Scene)
    requires Prepared(w) && Staged(w, s) && forall schema | schema in w.schemas :: |schema.keys| <= MAX_EVENTS
    ensures !SafePlan(w, Changed(s), PlacesIn(s))
  {
    hide Prepared, Staged, NoDangling, WellPlanned, WritesSoundly, Run, ReferentialPlans.Holding, InPlace, Begin;
    WellStaged(w, s);
    BeganThree(s);
    var begun := Begin(Changed(s));
    assert Waits(begun, 2);
    RunIsMild(w, s, begun);
    BeginHolds(w, Changed(s), PlacesIn(s));
    RunHolds(w, begun.after, begun);
    var end := Run(w, begun);
    AHasGone(w, s, end);
    BDangles(w, s, end.after);
  }

  /** The rows of the scene. */
  function SceneOf(w: World, d: Declared, e: Declared): Scene {
    var targets := TargetsOf(w, e.fk);
    Scene(d, e,
      Row(e.schema.table, map[Constraint(w, d.fk) := J], [Slot(RuleOf(e), K, [])]),
      Row(d.schema.table, map[], [Slot(RuleOf(d), J, [])]),
      Row(if targets == [] then "" else targets[0], map[Constraint(w, e.fk) := K], []))
  }

  lemma SceneIsStaged(bare: World, w: World, d: Declared, e: Declared)
    requires Chained(bare, d, e) && w == World(bare.schemas, map["c" := SceneOf(bare, d, e).c])
    ensures Staged(w, SceneOf(bare, d, e))
  {
    assert DeclaredWell(bare, e);
    SameSchemas(bare, w);
  }

  lemma SameSchemas(bare: World, w: World)
    requires w.schemas == bare.schemas
    ensures forall fk :: TargetsOf(w, fk) == TargetsOf(bare, fk) && Constraint(w, fk) == Constraint(bare, fk)
    ensures forall f :: IsDeclared(w, f) <==> IsDeclared(bare, f)
    ensures forall fk :: Coherent(bare, fk) ==> Coherent(w, fk)
    ensures WellDeclared(bare) ==> WellDeclared(w)
    ensures Prepared(bare) ==> Prepared(w)
    ensures Unchained(bare) ==> Unchained(w)
  {
    assert forall fk :: TargetsOf(w, fk) == TargetsOf(bare, fk);
    assert forall fk, columns :: Compares(w, fk, columns) <==> Compares(bare, fk, columns);
    assert forall f :: IsDeclared(w, f) <==> IsDeclared(bare, f);
    forall fk | Coherent(bare, fk) ensures Coherent(w, fk) {
    }
    forall f | WellDeclared(bare) && IsDeclared(w, f) ensures DeclaredWell(w, f) { assert DeclaredWell(bare, f); }
    forall t | Targeted(w, t) ensures Targeted(bare, t) {
    }
  }

  /**
   Sound plans are safe, whatever rows they change and in whatever way, exactly
   when no table a foreign key targets cascades deletions itself: the schemas
   alone decide.
   */
  lemma {:induction false} SafeExactlyWhenUnchained(schemas: seq<Schema>)
    requires Prepared(World(schemas, map[]))
    requires forall s | s in schemas :: |s.keys| <= MAX_EVENTS
    ensures SafeToPlan(schemas) <==> Unchained(World(schemas, map[]))
  {
    hide Prepared, SafePlan, Targeted, Staged;
    var bare := World(schemas, map[]);
    if Unchained(bare) {
      forall rows, changes, places ensures SafePlan(World(schemas, rows), changes, places) {
        SameSchemas(bare, World(schemas, rows));
        UnchainedIsSafe(World(schemas, rows), changes, places);
      }
    } else {
      var e :| IsDeclared(bare, e) && e.fk.onDelete == Cascade && Targeted(bare, e.schema.table);
      var d := TargetedBy(bare, e.schema.table);
      PreparedParts(bare);
      ChainIsUnsafe(bare, d, e);
    }
  }

  lemma ChainIsUnsafe(bare: World, d: Declared, e: Declared)
    requires Prepared(bare) && Chained(bare, d, e) && forall s | s in bare.schemas :: |s.keys| <= MAX_EVENTS
    ensures !SafeToPlan(bare.schemas)
  {
    hide Prepared, Chained, SafePlan, Staged, Unchained;
    var s := SceneOf(bare, d, e);
    var w := World(bare.schemas, map["c" := s.c]);
    SceneIsStaged(bare, w, d, e);
    SameSchemas(bare, w);
    ChainedIsUnsafe(w, s);
  }

  lemma TargetedBy(w: World, table: string) returns (d: Declared)
    requires Targeted(w, table)
    ensures IsDeclared(w, d) && table in TargetsOf(w, d.fk)
  {
    d :| IsDeclared(w, d) && table in TargetsOf(w, d.fk);
  }
}
