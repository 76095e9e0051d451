/** Exactly which schemas make deletions safe: those whose foreign keys compare under one constraint. */
module ReferentialLimits {
  import opened Json
  import opened Sequences
  import opened Judging
  import opened Referential
  import opened ReferentialSafety
  import opened ReferentialClosure

  /** No accepted plan of deletions, on any rows, leaves a reference to nothing. */
  ghost predicate SafeFor(schemas: seq<Schema>) {
    forall rows, changes ::
      var w := World(schemas, rows);
      DeletesOnly(w, changes) && NoDangling(w, map[]) ==>
        var expansion := Expanded(w, changes);
        expansion.Accepted? ==> NoDangling(w, expansion.after)
  }

  /** A foreign key into one table compares under one constraint. */
  lemma OneTargetIsCoherent(w: World, fk: ForeignKey)
    requires |TargetsOf(w, fk)| == 1
    ensures Coherent(w, fk)
  {
  }

  const K := "k"

  /**
   A target table's row that holds the key, another's that holds it under another constraint, and
   a reference to it.
   */
  function Rows(held: Schema, other: Schema, d: Declared, constraint: string, columns: seq<string>): map<Path, Row> {
    map[
      "u" := Row(held.table, map[constraint := K], []),
      "t" := Row(other.table, map[ConstraintName(other, columns) := K], []),
      "r" := Row(d.schema.table, map[], [Slot(RuleOf(d), K, [])])]
  }

  /** What makes the other row look as if it still held the key. */
  ghost predicate Misleads(w: World, d: Declared, held: Schema, other: Schema, columns: seq<string>) {
    && IsDeclared(w, d)
    && held.table in TargetsOf(w, d.fk) && other.table in TargetsOf(w, d.fk)
    && SchemaOf(w.schemas, held.table) == Some(held) && SchemaOf(w.schemas, other.table) == Some(other)
    && columns == TargetColumns(d.fk, held) && columns in held.keys && IsKey(other, columns)
    && ConstraintName(held, columns) == Constraint(w, d.fk)
    && ConstraintName(other, columns) != Constraint(w, d.fk)
  }

  lemma {:induction false} SchemaOfTable(schemas: seq<Schema>, table: string)
    ensures SchemaOf(schemas, table).Some? ==>
      SchemaOf(schemas, table).value.table == table && SchemaOf(schemas, table).value in schemas
  {
    if schemas != [] && schemas[0].table != table { SchemaOfTable(schemas[1..], table); }
  }

  /** An incoherent foreign key has such a pair of targets. */
  lemma {:induction false} IncoherentMisleads(w: World, d: Declared)
    returns (held: Schema, other: Schema, columns: seq<string>)
    requires WellDeclared(w) && IsDeclared(w, d) && !Coherent(w, d.fk)
    ensures Misleads(w, d, held, other, columns)
  {
    assert DeclaredWell(w, d);
    hide ConstraintName, TargetTables, WellDeclared;
    var t, cols :| t in TargetsOf(w, d.fk) && SchemaOf(w.schemas, t).Some? && Compares(w, d.fk, cols)
      && IsKey(SchemaOf(w.schemas, t).value, cols)
      && ConstraintName(SchemaOf(w.schemas, t).value, cols) != Constraint(w, d.fk);
    var u :| u in TargetsOf(w, d.fk) && SchemaOf(w.schemas, u).Some?
      && cols == TargetColumns(d.fk, SchemaOf(w.schemas, u).value);
    var first := TargetsOf(w, d.fk)[0];
    assert first in TargetsOf(w, d.fk);
    other := SchemaOf(w.schemas, t).value;
    columns := cols;
    held := SchemaOf(w.schemas, if d.fk.columns == [] then u else first).value;
    SchemaOfTable(w.schemas, t);
    SchemaOfTable(w.schemas, u);
    SchemaOfTable(w.schemas, first);
    PrimaryIsPrimary(held);
    PrimaryIsPrimary(SchemaOf(w.schemas, first).value);
  }

  lemma PrimaryIsPrimary(schema: Schema)
    ensures ConstraintName(schema, PrimaryKey(schema)) == PRIMARY
  {
  }

  // ----- nothing happens --------------------------------------------------------------------------

  /** Two declarations of one rule on one table are one. */
  lemma {:induction false} OneRule(w: World, d: Declared, e: Declared)
    requires WellDeclared(w) && IsDeclared(w, d) && IsDeclared(w, e)
    requires RuleOf(d) == RuleOf(e) && d.schema.table == e.schema.table
    ensures d == e
  {
    assert DeclaredWell(w, d) && DeclaredWell(w, e);
    SameSuffix("fk:" + d.schema.table + "/", d.fk.name, e.fk.name);
  }

  lemma SameSuffix(prefix: string, a: string, b: string)
    requires prefix + a == prefix + b
    ensures a == b
  {
    assert (prefix + a)[|prefix|..] == a && (prefix + b)[|prefix|..] == b;
  }

  ghost predicate Staged(w: World, d: Declared, held: Schema, other: Schema, columns: seq<string>) {
    && WellDeclared(w) && Misleads(w, d, held, other, columns)
    && w.rows == Rows(held, other, d, Constraint(w, d.fk), columns)
  }

  lemma {:induction false} ForeignDoesNothing(
    w: World, d: Declared, held: Schema, other: Schema, columns: seq<string>, e: Declared, keyed: seq<string>,
      work: Work)
    requires Staged(w, d, held, other, columns) && IsDeclared(w, e) && work.after == map["u" := None]
    ensures ResolveForeign(w, e.schema, e.fk, Vacated(held.table, keyed, K, None, "u"), work) == work
  {
    hide WellDeclared, Misleads, StillHeld, ResolveReferrers, Referrers;
    var vacated := Vacated(held.table, keyed, K, None, "u");
    if Concerns(w, e.fk, vacated) {
      if e == d {
        ComparedColumns(w, d, held, other, columns, vacated);
        OtherHolds(w, d, held, other, columns, work.after);
      } else {
        var paths := Referrers(w, work.after, RuleOf(e), K);
        forall p | p in paths ensures ResolveReferrer(w, e.schema, e.fk, vacated, work, p) == work {
          ReferrerDoesNothing(w, d, held, other, columns, e, vacated, work, p);
        }
        NobodyChanges(w, e, vacated, work, paths);
      }
    }
  }

  lemma ComparedColumns(w: World, d: Declared, held: Schema, other: Schema, columns: seq<string>, vacated: Vacated)
    requires Misleads(w, d, held, other, columns) && vacated.table == held.table && Concerns(w, d.fk, vacated)
    ensures vacated.columns == columns
  {
  }

  lemma {:induction false} ReferrerDoesNothing(
    w: World, d: Declared, held: Schema, other: Schema, columns: seq<string>, e: Declared, vacated: Vacated, work: Work,
      p: Path)
    requires Staged(w, d, held, other, columns) && IsDeclared(w, e) && e != d && work.after == map["u" := None]
    ensures ResolveReferrer(w, e.schema, e.fk, vacated, work, p) == work
  {
    hide WellDeclared;
    if RuleOf(e) == RuleOf(d) && e.schema.table == d.schema.table { OneRule(w, d, e); }
    hide Misleads;
    var row := Current(w, work.after, p);
    if row.Some? && Names(row.value, RuleOf(e), vacated.key) {
      var s :| s in row.value.slots && Naming(s, RuleOf(e), vacated.key);
      assert p == "r";
    }
  }

  lemma {:induction false} OtherHolds(
    w: World, d: Declared, held: Schema, other: Schema, columns: seq<string>, after: map<Path, Option<Row>>)
    requires Staged(w, d, held, other, columns) && after == map["u" := None]
    ensures StillHeld(w, after, K, columns, TargetTables(w.schemas, d.fk.to))
  {
    hide ConstraintName;
    var constraint := ConstraintName(other, columns);
    assert "t" in w.rows && HeldBy(w.rows["t"], other.table, constraint, K);
    assert HeldUnder(w, after, other.table, constraint, K);
    assert HeldAt(w, after, other.table, columns, K);
    assert other.table in TargetsOf(w, d.fk);
  }

  lemma {:induction false} NobodyChanges(w: World, e: Declared, vacated: Vacated, work: Work, paths: seq<Path>)
    requires forall p | p in paths :: ResolveReferrer(w, e.schema, e.fk, vacated, work, p) == work
    ensures ResolveReferrers(w, e.schema, e.fk, vacated, work, paths) == work
    decreases |paths|
  {
    hide ResolveReferrer;
    if paths != [] { NobodyChanges(w, e, vacated, work, paths[1..]); }
  }

  lemma {:induction false} ResolveDoesNothing(
    w: World, d: Declared, held: Schema, other: Schema, columns: seq<string>, keyed: seq<string>, work: Work,
      foreigns: seq<Declared>)
    requires Staged(w, d, held, other, columns) && work.after == map["u" := None]
    requires forall e | e in foreigns :: IsDeclared(w, e)
    ensures Resolve(w, Vacated(held.table, keyed, K, None, "u"), work, foreigns) == work
    decreases |foreigns|
  {
    hide ResolveForeign, Staged;
    if foreigns != [] {
      ForeignDoesNothing(w, d, held, other, columns, foreigns[0], keyed, work);
      ResolveDoesNothing(w, d, held, other, columns, keyed, work, foreigns[1..]);
    }
  }

  lemma {:induction false} ExamineDoesNothing(
    w: World, d: Declared, held: Schema, other: Schema, columns: seq<string>, keys: seq<seq<string>>, work: Work)
    requires Staged(w, d, held, other, columns) && work.after == map["u" := None]
    requires work.events + |keys| <= MAX_EVENTS && !work.failed
    ensures var later := ExamineKeys(w, held, w.rows["u"], None, "u", keys, work);
      later == work.(events := later.events)
    decreases |keys|
  {
    hide Resolve, WellDeclared, Misleads;
    if keys != [] {
      AllDeclared(w);
      var counted := work.(events := work.events + 1);
      ResolveDoesNothing(w, d, held, other, columns, keys[0], counted, Foreigns(w));
      var key := KeyOf(w.rows["u"], held, keys[0]);
      assert key.Some? ==> key.value == K;
      ExamineDoesNothing(w, d, held, other, columns, keys[1..],
        ExamineKey(w, held, w.rows["u"], None, "u", keys[0], work));
    }
  }

  // ----- the counterexample --------------------------------------------------------------------------------

  lemma {:induction false} StagedIsSound(w: World, d: Declared, held: Schema, other: Schema, columns: seq<string>)
    requires Staged(w, d, held, other, columns)
    ensures NoDangling(w, map[])
  {
    hide ConstraintName, TargetTables, WellDeclared;
    forall e, path, key | IsDeclared(w, e) && NamesNow(w, map[], e, key, path) ensures HeldNow(w, map[], e.fk, key) {
      assert path == "r" && key == K && RuleOf(e) == RuleOf(d);
      OneRule(w, d, e);
      assert HeldBy(w.rows["u"], held.table, Constraint(w, d.fk), K);
      assert HeldUnder(w, map[], held.table, Constraint(w, d.fk), K);
    }
  }

  lemma {:induction false} StagedDangles(w: World, d: Declared, held: Schema, other: Schema, columns: seq<string>)
    requires Staged(w, d, held, other, columns)
    ensures !NoDangling(w, map["u" := None])
  {
    hide ConstraintName, TargetTables, WellDeclared;
    var after: map<Path, Option<Row>> := map["u" := None];
    assert Naming(Slot(RuleOf(d), K, []), RuleOf(d), K);
    assert w.rows["r"].slots[0] in w.rows["r"].slots;
    assert NamesNow(w, after, d, K, "r");
    assert !HeldNow(w, after, d.fk, K);
  }

  lemma {:induction false} StagedIsAccepted(w: World, d: Declared, held: Schema, other: Schema, columns: seq<string>)
    requires Staged(w, d, held, other, columns) && |held.keys| <= MAX_EVENTS
    ensures DeletesOnly(w, [Change(Some(("u", w.rows["u"])), None)])
    ensures Expanded(w, [Change(Some(("u", w.rows["u"])), None)]) == Accepted(map["u" := None], [])
  {
    hide WellDeclared, Misleads, ExamineKeys, Step, Run;
    var row := w.rows["u"];
    var changes := [Change(Some(("u", row)), None)];
    BeginOne(row);
    var begun := Begin(changes);
    StagedSchema(w, d, held, other, columns);
    StepOne(w, held, begun);
    ExamineDoesNothing(w, d, held, other, columns, held.keys, begun.(pending := []));
    StepAdvances(w, begun);
    var end := Step(w, begun);
    assert end == begun.(pending := [], events := end.events);
    RunOne(w, begun);
  }

  lemma BeginOne(row: Row)
    ensures Begin([Change(Some(("u", row)), None)])
         == Work(map["u" := row], map["u" := None], [(Some("u"), None)], [], [], [], 0, false)
  {
    var changes := [Change(Some(("u", row)), None)];
    assert changes[..0] == [];
    assert Begin([]) == NO_WORK;
    assert NO_WORK.pending + [(Some("u"), None)] == [(Some("u"), None)];
    assert Begin(changes) == Begun(NO_WORK, changes[0]);
  }

  lemma StepOne(w: World, held: Schema, begun: Work)
    requires "u" in w.rows && w.rows["u"].table == held.table && SchemaOf(w.schemas, held.table) == Some(held)
    requires begun == Work(map["u" := w.rows["u"]], map["u" := None], [(Some("u"), None)], [], [], [], 0, false)
    ensures Step(w, begun) == ExamineKeys(w, held, w.rows["u"], None, "u", held.keys, begun.(pending := []))
  {
    hide ExamineKeys;
    assert begun.pending[1..] == [];
  }

  lemma RunOne(w: World, begun: Work)
    requires Counting(begun) && !begun.failed && begun.pending != []
    requires Counting(Step(w, begun)) && Step(w, begun).pending == []
    ensures Run(w, begun) == Step(w, begun)
  {
    hide Step;
    StepAdvances(w, begun);
    var end := Step(w, begun);
    assert Run(w, end) == end;
  }

  lemma StagedSchema(w: World, d: Declared, held: Schema, other: Schema, columns: seq<string>)
    requires Staged(w, d, held, other, columns)
    ensures SchemaOf(w.schemas, held.table) == Some(held)
  {
  }

  /** A foreign key that compares under two constraints can be left naming nothing by an accepted deletion. */
  lemma {:induction false} IncoherentIsUnsafe(schemas: seq<Schema>, d: Declared)
    requires WellDeclared(World(schemas, map[])) && IsDeclared(World(schemas, map[]), d)
    requires !Coherent(World(schemas, map[]), d.fk)
    requires forall s | s in schemas :: |s.keys| <= MAX_EVENTS
    ensures !SafeFor(schemas)
  {
    var bare := World(schemas, map[]);
    var held, other, columns := IncoherentMisleads(bare, d);
    var rows := Rows(held, other, d, Constraint(bare, d.fk), columns);
    var w := World(schemas, rows);
    OnlySchemasCount(bare, w, d, held, other, columns);
    SchemaOfTable(schemas, held.table);
    hide Staged, Misleads, WellDeclared, Coherent, Rows, NoDangling, Expanded, DeletesOnly;
    StagedIsSound(w, d, held, other, columns);
    StagedIsAccepted(w, d, held, other, columns);
    StagedDangles(w, d, held, other, columns);
    var changes := [Change(Some(("u", w.rows["u"])), None)];
    assert Expanded(World(schemas, rows), changes).Accepted?;
  }

  lemma OnlySchemasCount(bare: World, w: World, d: Declared, held: Schema, other: Schema, columns: seq<string>)
    requires w.schemas == bare.schemas && WellDeclared(bare) && Misleads(bare, d, held, other, columns)
    requires w.rows == Rows(held, other, d, Constraint(bare, d.fk), columns)
    ensures Staged(w, d, held, other, columns) && "u" in w.rows
    ensures SchemaOf(bare.schemas, held.table) == Some(held)
  {
    assert forall fk :: TargetsOf(w, fk) == TargetsOf(bare, fk);
    assert forall e :: IsDeclared(w, e) <==> IsDeclared(bare, e);
    forall e | IsDeclared(w, e) ensures DeclaredWell(w, e) { assert DeclaredWell(bare, e); }
  }

  /** Deletions are safe exactly when every foreign key is coherent: something the schemas alone decide. */
  lemma {:induction false} SafeExactlyWhenCoherent(schemas: seq<Schema>)
    requires WellDeclared(World(schemas, map[])) && NoDefaults(World(schemas, map[]))
    requires forall s | s in schemas :: |s.keys| <= MAX_EVENTS
    ensures SafeFor(schemas) <==> AllCoherent(World(schemas, map[]))
  {
    hide WellDeclared, NoDefaults, Coherent, NoDangling, DeletesOnly, Expanded;
    var bare := World(schemas, map[]);
    if !AllCoherent(bare) {
      var d :| IsDeclared(bare, d) && !Coherent(bare, d.fk);
      IncoherentIsUnsafe(schemas, d);
    } else {
      forall rows, changes | DeletesOnly(World(schemas, rows), changes) && NoDangling(World(schemas, rows), map[])
        && Expanded(World(schemas, rows), changes).Accepted?
        ensures NoDangling(World(schemas, rows), Expanded(World(schemas, rows), changes).after)
      {
        ReadyAnywhere(bare, World(schemas, rows));
        DeletionsAreSafe(World(schemas, rows), changes);
      }
    }
  }

  lemma ReadyAnywhere(bare: World, w: World)
    requires w.schemas == bare.schemas && WellDeclared(bare) && NoDefaults(bare) && AllCoherent(bare)
    ensures Ready(w)
  {
    assert forall fk :: TargetsOf(w, fk) == TargetsOf(bare, fk);
    assert forall fk, columns :: Compares(w, fk, columns) <==> Compares(bare, fk, columns);
    assert forall e :: IsDeclared(w, e) <==> IsDeclared(bare, e);
    forall e | IsDeclared(w, e) ensures DeclaredWell(w, e) && Coherent(w, e.fk) {
      assert DeclaredWell(bare, e) && Coherent(bare, e.fk);
    }
  }

  // ----- one that is not -------------------------------------------------------------------------------------

  /** Either a `u` by its `id`, or a `t` by its `code`; and `t` has another key, its `id`. */
  const EITHER: ForeignKey := ForeignKey("either", Tables(["u", "t"]), [], Cascade, Restrict, None, "")
  const U: Schema := Schema("u", [["id"]], None, [], [], [], [], false)
  const T: Schema := Schema("t", [["code"], ["id"]], None, [], [], [], [], false)
  const R: Schema := Schema("r", [["id"]], None, [EITHER], [], [], [], false)
  const BOTH: seq<Schema> := [U, T, R]

  lemma BothAreFound()
    ensures SchemaOf(BOTH, "u") == Some(U) && SchemaOf(BOTH, "t") == Some(T) && SchemaOf(BOTH, "r") == Some(R)
    ensures FindForeign(R.foreignKeys, "either") == Some(EITHER)
  {
    assert BOTH[1..] == [T, R] && [T, R][1..] == [R];
    assert "u"[0] != "t"[0] && "u"[0] != "r"[0] && "t"[0] != "r"[0];
    assert SchemaOf([R], "r") == Some(R);
    assert SchemaOf([T, R], "r") == SchemaOf([R], "r");
  }

  /** Deleting a `u` can leave a reference to nothing: a `t` with the same `id` looks as if it held the key. */
  lemma {:induction false} SchemasCanBeIncoherent()
    ensures WellDeclared(World(BOTH, map[])) && NoDefaults(World(BOTH, map[]))
    ensures !AllCoherent(World(BOTH, map[])) && !SafeFor(BOTH)
  {
    hide ConstraintName, SafeFor, SchemaOf;
    var w := World(BOTH, map[]);
    BothAreFound();
    forall d | IsDeclared(w, d) ensures d == Declared(R, EITHER) {
    }
    assert DeclaredWell(w, Declared(R, EITHER));
    EitherIsIncoherent(w);
    assert IsDeclared(w, Declared(R, EITHER));
    SafeExactlyWhenCoherent(BOTH);
  }

  lemma EitherIsIncoherent(w: World)
    requires w == World(BOTH, map[])
    ensures !Coherent(w, EITHER)
  {
    hide SchemaOf;
    BothAreFound();
    assert TargetsOf(w, EITHER)[0] == "u" && TargetsOf(w, EITHER)[1] == "t";
    assert Compares(w, EITHER, ["id"]) && IsKey(T, ["id"]);
    assert ["id"][0][0] != ["code"][0][0];
    assert ConstraintName(T, ["id"])[0] == 'u' && PRIMARY[0] == 'p';
    PrimaryIsPrimary(U);
  }
}
