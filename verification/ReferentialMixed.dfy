/**
 A plan that changes a row's key and deletes another row can leave a reference
 to nothing: the closure examines the keys rows held before the plan, never the
 keys it gave them, so a row whose key changed and which a cascade then deletes
 takes its new key with it unnoticed.
 */
module ReferentialMixed {
  import opened Json
  import opened Sequences
  import opened Texts
  import opened Judging
  import opened Referential
  import opened ReferentialSafety
  import opened ReferentialLimits

  const CODE: ForeignKey := ForeignKey("code", Table("t"), ["code"], Restrict, Cascade, None, "")
  const OWNER: ForeignKey := ForeignKey("owner", Table("t"), [], Cascade, Restrict, None, "")
  const T: Schema := Schema("t", [["id"], ["code"]], None, [CODE, OWNER], [], [], [], false)

  const UNIQUE := "unique:code"
  const BY_CODE := "fk:t/code"
  const BY_OWNER := "fk:t/owner"

  /** A row owned by `c`, a row that names it by its code, and `c`. */
  const A: Row := Row("t", map[PRIMARY := "1", UNIQUE := "x"], [Slot(BY_OWNER, "9", [])])
  const B: Row := Row("t", map[PRIMARY := "2"], [Slot(BY_CODE, "x", [])])
  const C: Row := Row("t", map[PRIMARY := "9"], [])
  const W: World := World([T], map["a" := A, "b" := B, "c" := C])

  /** The plan gives `a` another code and deletes `c`. */
  const A': Row := A.(held := map[PRIMARY := "1", UNIQUE := "y"])
  const B': Row := B.(slots := [Slot(BY_CODE, "y", [])])
  const PLAN: seq<Change> := [Change(Some(("a", A)), Some(("a", A'))), Change(Some(("c", C)), None)]

  lemma Names_()
    ensures ConstraintName(T, ["id"]) == PRIMARY && ConstraintName(T, ["code"]) == UNIQUE
    ensures ForeignRule("t", "code") == BY_CODE && ForeignRule("t", "owner") == BY_OWNER
    ensures SchemaOf([T], "t") == Some(T) && TargetTables([T], Table("t")) == ["t"]
    ensures TargetColumns(CODE, T) == ["code"] && TargetColumns(OWNER, T) == ["id"]
  {
    assert Joined(["code"]) == "code";
  }

  lemma ForeignsAre()
    ensures Foreigns(W) == [Declared(T, CODE), Declared(T, OWNER)]
  {
    FlatOne(ForeignsOf(), T);
    assert ForeignsOf()(T) == [Declared(T, CODE), Declared(T, OWNER)];
  }

  lemma AscendingOne(p: Path)
    ensures Ascending({p}) == [p] && Ascending({}) == []
  {
    assert {p} - {p} == {};
  }

  /** Resolving a vacated key no row holds, when at most one row names it. */
  lemma ResolvesOne(fk: ForeignKey, vacated: Vacated, work: Work, p: Path)
    requires fk in {CODE, OWNER} && vacated.table == "t"
    requires vacated.columns == TargetColumns(fk, T)
    requires !HeldUnder(W, work.after, "t", ConstraintName(T, vacated.columns), vacated.key)
    requires forall q | q in W.rows && Names(W.rows[q], ForeignRule("t", fk.name), vacated.key) :: q == p
    requires forall q | q in work.after && work.after[q].Some?
      && Names(work.after[q].value, ForeignRule("t", fk.name), vacated.key) :: q == p
    ensures ResolveForeign(W, T, fk, vacated, work) == ResolveReferrer(W, T, fk, vacated, work, p)
  {
    hide ConstraintName, ForeignRule, Joined, HeldUnder, ResolveReferrer, Names;
    Names_();
    var rule := ForeignRule("t", fk.name);
    var refer := (set q | q in W.rows && Names(W.rows[q], rule, vacated.key))
      + PlannedReferrers(work.after, rule, vacated.key);
    AscendingOne(p);
    if p in refer {
      assert refer == {p};
      assert [p][1..] == [];
      assert ResolveReferrers(W, T, fk, vacated, work, [p])
          == ResolveReferrers(W, T, fk, vacated, ResolveReferrer(W, T, fk, vacated, work, p), []);
    } else {
      assert refer == {};
      NotReferring(fk, vacated, work, p);
    }
  }

  lemma NotReferring(fk: ForeignKey, vacated: Vacated, work: Work, p: Path)
    requires p !in (set q | q in W.rows && Names(W.rows[q], ForeignRule("t", fk.name), vacated.key))
    requires p !in PlannedReferrers(work.after, ForeignRule("t", fk.name), vacated.key)
    ensures ResolveReferrer(W, T, fk, vacated, work, p) == work
  {
    hide Names, ForeignRule;
  }

  lemma Unconcerned(fk: ForeignKey, vacated: Vacated, work: Work)
    requires fk in {CODE, OWNER} && vacated.table == "t" && vacated.columns != TargetColumns(fk, T)
    ensures ResolveForeign(W, T, fk, vacated, work) == work
  {
    Names_();
  }

  /** Resolving over both foreign keys. */
  lemma ResolveBoth(vacated: Vacated, work: Work)
    ensures Resolve(W, vacated, work, Foreigns(W))
         == ResolveForeign(W, T, OWNER, vacated, ResolveForeign(W, T, CODE, vacated, work))
  {
    hide ResolveForeign;
    ForeignsAre();
    var both := [Declared(T, CODE), Declared(T, OWNER)];
    assert both[1..] == [Declared(T, OWNER)];
    assert [Declared(T, OWNER)][1..] == [];
    var first := ResolveForeign(W, T, CODE, vacated, work);
    assert Resolve(W, vacated, work, both) == Resolve(W, vacated, first, [Declared(T, OWNER)]);
    var second := ResolveForeign(W, T, OWNER, vacated, first);
    assert Resolve(W, vacated, first, [Declared(T, OWNER)]) == Resolve(W, vacated, second, []) == second;
  }

  /** Examining one key that a row gave up, under the one foreign key it concerns. */
  lemma ExaminesOne(
    original: Row, next: Option<Row>, holder: Path, columns: seq<string>, key: string, work: Work, fk: ForeignKey,
      p: Path)
    requires original.table == "t" && columns in {["id"], ["code"]} && !work.failed && work.events < MAX_EVENTS
    requires KeyOf(original, T, columns) == Some(key) && (next.Some? ==> KeyOf(next.value, T, columns) != Some(key))
    requires fk == if columns == ["code"] then CODE else OWNER
    requires !HeldUnder(W, work.after, "t", ConstraintName(T, columns), key)
    requires forall q | q in W.rows && Names(W.rows[q], ForeignRule("t", fk.name), key) :: q == p
    requires forall q | q in work.after && work.after[q].Some?
      && Names(work.after[q].value, ForeignRule("t", fk.name), key) :: q == p
    ensures var vacated := Vacated("t", columns, key, next, holder);
      ExamineKey(W, T, original, next, holder, columns, work)
        == ResolveReferrer(W, T, fk, vacated, work.(events := work.events + 1), p)
  {
    hide ResolveForeign, ResolveReferrer, Resolve, ConstraintName, HeldUnder, Names, KeyOf, ForeignRule, Foreigns,
      Joined;
    Names_();
    var vacated := Vacated("t", columns, key, next, holder);
    var counted := work.(events := work.events + 1);
    ResolveBoth(vacated, counted);
    if columns == ["code"] {
      ResolvesOne(CODE, vacated, counted, p);
      Unconcerned(OWNER, vacated, ResolveReferrer(W, T, CODE, vacated, counted, p));
    } else {
      Unconcerned(CODE, vacated, counted);
      ResolvesOne(OWNER, vacated, counted, p);
    }
  }

  lemma ExaminesNone(original: Row, next: Option<Row>, holder: Path, columns: seq<string>, work: Work)
    requires KeyOf(original, T, columns).None?
      || (next.Some? && KeyOf(next.value, T, columns) == KeyOf(original, T, columns))
    ensures ExamineKey(W, T, original, next, holder, columns, work) == work
  {
  }

  /** Taking up the row at `path`. */
  lemma Takes(work: Work, path: Path, rest: Work)
    requires work.pending != [] && work.pending[0].0 == Some(path) && path in W.rows && path in work.before
    requires work.before[path] == W.rows[path] && W.rows[path].table == "t"
    requires rest == work.(pending := work.pending[1..])
    ensures var to := work.pending[0].1;
      Step(W, work)
        == ExamineKeys(W, T, W.rows[path], if to.Some? then Current(W, work.after, to.value)
          else None, path, T.keys, rest)
  {
    hide ExamineKeys, Current;
    Names_();
  }

  lemma ExamineBoth(original: Row, next: Option<Row>, holder: Path, work: Work)
    ensures ExamineKeys(W, T, original, next, holder, T.keys, work)
         == ExamineKey(W, T, original, next, holder, ["code"], ExamineKey(W, T, original, next, holder, ["id"], work))
  {
    hide ExamineKey;
    assert T.keys[1..] == [["code"]];
    assert T.keys[1..][1..] == [];
  }

  // ----- the run ---------------------------------------------------------------------------------------

  const BEGUN: Work := Work(
    map["a" := A, "c" := C], map["a" := Some(A'), "c" := None],
    [(Some("a"), Some("a")), (Some("c"), None)], [], [], [], 0, false)

  const BY_UPDATE: Induced := Induced("b", Cascade, BY_CODE, "x", "a")
  const BY_DELETE: Induced := Induced("a", Cascade, BY_OWNER, "9", "c")

  const FIRST: Work := Work(
    map["a" := A, "c" := C, "b" := B], map["a" := Some(A'), "c" := None, "b" := Some(B')],
    [(Some("c"), None), (Some("b"), Some("b"))], [BY_UPDATE], [], [], 1, false)

  const SECOND: Work := FIRST.(
    after := map["a" := None, "c" := None, "b" := Some(B')],
    pending := [(Some("b"), Some("b")), (Some("a"), None)],
    induced := [BY_UPDATE, BY_DELETE],
    events := 2)

  const THIRD: Work := SECOND.(pending := [(Some("a"), None)])

  const LAST: Work := THIRD.(pending := [], events := 4)

  lemma Began()
    ensures Begin(PLAN) == BEGUN
  {
    assert PLAN[..1] == [PLAN[0]] && PLAN[..1][..0] == [];
    assert Begin([]) == NO_WORK;
    assert Begin(PLAN[..1]) == Begun(NO_WORK, PLAN[0]);
    assert Begin(PLAN) == Begun(Begun(NO_WORK, PLAN[0]), PLAN[1]);
    assert NO_WORK.pending + [(Some("a"), Some("a"))] + [(Some("c"), None)] == BEGUN.pending;
  }

  lemma KeysAre(row: Row)
    ensures KeyOf(row, T, ["id"]) == if PRIMARY in row.held then Some(row.held[PRIMARY]) else None
    ensures KeyOf(row, T, ["code"]) == if UNIQUE in row.held then Some(row.held[UNIQUE]) else None
  {
    Names_();
  }

  /** `a` gives up its old code, and `b` is made to name the new one. */
  lemma FirstStep()
    ensures Step(W, BEGUN) == FIRST
  {
    hide ExamineKeys, ExamineKey, ResolveReferrer, ConstraintName, Step, HeldUnder, Names, KeyOf, ForeignRule;
    Names_();
    KeysAre(A);
    KeysAre(A');
    var rest := BEGUN.(pending := [(Some("c"), None)]);
    assert BEGUN.pending[1..] == rest.pending;
    Takes(BEGUN, "a", rest);
    ExamineBoth(A, Some(A'), "a", rest);
    ExaminesNone(A, Some(A'), "a", ["id"], rest);
    NotHeld();
    OnlyB(rest);
    ExaminesOne(A, Some(A'), "a", ["code"], "x", rest, CODE, "b");
    CarriesToB(Vacated("t", ["code"], "x", Some(A'), "a"), rest.(events := 1));
  }

  lemma NotHeld()
    ensures !HeldUnder(W, BEGUN.after, "t", UNIQUE, "x") && !HeldUnder(W, FIRST.after, "t", PRIMARY, "9")
    ensures !HeldUnder(W, THIRD.after, "t", PRIMARY, "1") && !HeldUnder(W, THIRD.after, "t", UNIQUE, "x")
  {
    hide HeldUnder;
    NotHeldAtFirst();
    NotHeldThen();
    NotHeldAtLast();
  }

  lemma NotHeldAtFirst()
    ensures !HeldUnder(W, BEGUN.after, "t", UNIQUE, "x")
  {
    hide Holds, HeldUnder;
    WhoHolds();
    NotHeldBy(BEGUN.after, UNIQUE, "x", [A', B]);
  }

  lemma NotHeldThen()
    ensures !HeldUnder(W, FIRST.after, "t", PRIMARY, "9")
  {
    hide Holds, HeldUnder;
    WhoHolds();
    NotHeldBy(FIRST.after, PRIMARY, "9", [A', B']);
  }

  lemma NotHeldAtLast()
    ensures !HeldUnder(W, THIRD.after, "t", PRIMARY, "1") && !HeldUnder(W, THIRD.after, "t", UNIQUE, "x")
  {
    hide Holds, HeldUnder;
    WhoHolds();
    NotHeldBy(THIRD.after, PRIMARY, "1", [B']);
    NotHeldBy(THIRD.after, UNIQUE, "x", [B']);
  }

  lemma NotHeldBy(after: map<Path, Option<Row>>, constraint: string, key: string, rows: seq<Row>)
    requires forall p | p in W.rows && p !in after :: W.rows[p] in rows
    requires forall p | p in after && after[p].Some? :: after[p].value in rows
    requires forall row | row in rows :: !Holds(row, constraint, key)
    ensures !HeldUnder(W, after, "t", constraint, key)
  {
    hide Holds;
  }

  lemma WhoHolds()
    ensures !Holds(A', UNIQUE, "x") && !Holds(B, UNIQUE, "x") && !Holds(B', UNIQUE, "x")
    ensures !Holds(A', PRIMARY, "9") && !Holds(B', PRIMARY, "9") && !Holds(B', PRIMARY, "1")
  {
  }

  lemma OnlyB(work: Work)
    requires work.after == BEGUN.after
    ensures forall q | q in W.rows && Names(W.rows[q], BY_CODE, "x") :: q == "b"
    ensures forall q | q in work.after && work.after[q].Some? && Names(work.after[q].value, BY_CODE, "x") :: q == "b"
  {
  }

  lemma RedirectsB()
    ensures Redirected(B.slots, BY_CODE, "x", Some("y")) == [Slot(BY_CODE, "y", [])]
  {
    assert B.slots[..0] == [];
  }

  lemma CarriesToB(vacated: Vacated, work: Work)
    requires vacated == Vacated("t", ["code"], "x", Some(A'), "a")
    requires work == BEGUN.(pending := [(Some("c"), None)], events := 1)
    ensures ResolveReferrer(W, T, CODE, vacated, work, "b") == FIRST
  {
    hide Redirected;
    Names_();
    KeysAre(A');
    RedirectsB();
    assert B.slots[0] in B.slots && Naming(B.slots[0], BY_CODE, "x");
    assert work.pending + [(Some("b"), Some("b"))] == FIRST.pending;
  }

  /** `c` goes, and takes `a` with it. */
  lemma SecondStep()
    ensures Step(W, FIRST) == SECOND
  {
    hide ExamineKeys, ExamineKey, ResolveReferrer, ConstraintName, Step, HeldUnder, Names, KeyOf, ForeignRule;
    Names_();
    KeysAre(C);
    var rest := FIRST.(pending := [(Some("b"), Some("b"))]);
    assert FIRST.pending[1..] == rest.pending;
    Takes(FIRST, "c", rest);
    ExamineBoth(C, None, "c", rest);
    NotHeld();
    OnlyA(rest);
    ExaminesOne(C, None, "c", ["id"], "9", rest, OWNER, "a");
    DeletesA(Vacated("t", ["id"], "9", None, "c"), rest.(events := 2));
    ExaminesNone(C, None, "c", ["code"], SECOND);
  }

  lemma OnlyA(work: Work)
    requires work.after == FIRST.after
    ensures forall q | q in W.rows && Names(W.rows[q], BY_OWNER, "9") :: q == "a"
    ensures forall q | q in work.after && work.after[q].Some? && Names(work.after[q].value, BY_OWNER, "9") :: q == "a"
  {
  }

  lemma DeletesA(vacated: Vacated, work: Work)
    requires vacated == Vacated("t", ["id"], "9", None, "c")
    requires work == FIRST.(pending := [(Some("b"), Some("b"))], events := 2)
    ensures ResolveReferrer(W, T, OWNER, vacated, work, "a") == SECOND
  {
    Names_();
    assert A'.slots[0] in A'.slots && Naming(A'.slots[0], BY_OWNER, "9");
    assert work.pending + [(Some("a"), None)] == SECOND.pending;
    assert work.induced + [BY_DELETE] == SECOND.induced;
  }

  /** `b` holds the keys it held. */
  lemma ThirdStep()
    ensures Step(W, SECOND) == THIRD
  {
    hide ExamineKeys, ExamineKey, Step, KeyOf;
    KeysAre(B);
    KeysAre(B');
    assert SECOND.pending[1..] == THIRD.pending;
    Takes(SECOND, "b", THIRD);
    ExamineBoth(B, Some(B'), "b", THIRD);
    ExaminesNone(B, Some(B'), "b", ["id"], THIRD);
    ExaminesNone(B, Some(B'), "b", ["code"], THIRD);
  }

  /** `a` is examined for the code it held before the plan; nothing names that any more. */
  lemma LastStep()
    ensures Step(W, THIRD) == LAST
  {
    hide ExamineKeys, ExamineKey, ResolveReferrer, ConstraintName, Step, HeldUnder, Names, KeyOf, ForeignRule;
    Names_();
    KeysAre(A);
    var rest := THIRD.(pending := []);
    assert THIRD.pending[1..] == [];
    Takes(THIRD, "a", rest);
    ExamineBoth(A, None, "a", rest);
    NotHeld();
    NobodyLeft(rest.after);
    ExaminesOne(A, None, "a", ["id"], "1", rest, OWNER, "b");
    BNamesNeither(Vacated("t", ["id"], "1", None, "a"), Vacated("t", ["code"], "x", None, "a"), rest);
    ExaminesOne(A, None, "a", ["code"], "x", rest.(events := 3), CODE, "b");
  }

  lemma NobodyLeft(after: map<Path, Option<Row>>)
    requires after == THIRD.after
    ensures forall q | q in W.rows && Names(W.rows[q], BY_OWNER, "1") :: q == "b"
    ensures forall q | q in W.rows && Names(W.rows[q], BY_CODE, "x") :: q == "b"
    ensures forall q | q in after && after[q].Some? && Names(after[q].value, BY_OWNER, "1") :: q == "b"
    ensures forall q | q in after && after[q].Some? && Names(after[q].value, BY_CODE, "x") :: q == "b"
  {
    hide Names;
    WhoNames();
  }

  lemma WhoNames()
    ensures !Names(A, BY_OWNER, "1") && !Names(A, BY_CODE, "x") && !Names(C, BY_OWNER, "1") && !Names(C, BY_CODE, "x")
  {
  }

  lemma BNamesNeither(byId: Vacated, byCode: Vacated, rest: Work)
    requires rest == THIRD.(pending := []) && byId.key == "1" && byCode.key == "x"
    ensures ResolveReferrer(W, T, OWNER, byId, rest.(events := 3), "b") == rest.(events := 3)
    ensures ResolveReferrer(W, T, CODE, byCode, rest.(events := 4), "b") == rest.(events := 4)
  {
    Names_();
  }

  lemma RunFour()
    ensures Run(W, BEGUN) == LAST
  {
    hide Step;
    FirstStep();
    SecondStep();
    ThirdStep();
    LastStep();
    StepAdvances(W, BEGUN);
    StepAdvances(W, FIRST);
    StepAdvances(W, SECOND);
    StepAdvances(W, THIRD);
    assert Run(W, THIRD) == Run(W, LAST) == LAST;
    assert Run(W, SECOND) == Run(W, THIRD);
    assert Run(W, FIRST) == Run(W, SECOND);
  }

  /** Every reference names a row before the plan; the plan is accepted; and one names nothing after it. */
  lemma {:induction false} MixedPlansCanDangle()
    ensures WellDeclared(W) && AllCoherent(W) && NoDefaults(W) && NoDangling(W, map[])
    ensures Expanded(W, PLAN) == Accepted(LAST.after, LAST.induced)
    ensures !NoDangling(W, LAST.after)
  {
    hide Run;
    Began();
    RunFour();
    WIsSound();
    BDangles();
  }

  lemma WIsSound()
    ensures WellDeclared(W) && AllCoherent(W) && NoDefaults(W) && NoDangling(W, map[])
  {
    hide ConstraintName, ForeignRule, HeldNow, NamesNow, Coherent, Names, SchemaOf;
    Names_();
    FindsBoth();
    forall d | IsDeclared(W, d) ensures DeclaredWell(W, d) && Coherent(W, d.fk) {
      assert d.fk == CODE || d.fk == OWNER;
      OneTargetIsCoherent(W, d.fk);
    }
    forall d, path, key | IsDeclared(W, d) && NamesNow(W, map[], d, key, path) ensures HeldNow(W, map[], d.fk, key) {
      assert d.fk == CODE || d.fk == OWNER;
      AllHeld(d, key, path);
    }
  }

  lemma FindsBoth()
    ensures FindForeign(T.foreignKeys, "code") == Some(CODE) && FindForeign(T.foreignKeys, "owner") == Some(OWNER)
  {
    assert T.foreignKeys[1..] == [OWNER];
  }

  lemma AllHeld(d: Declared, key: string, path: Path)
    requires d.schema == T && d.fk in {CODE, OWNER} && NamesNow(W, map[], d, key, path)
    ensures HeldNow(W, map[], d.fk, key)
  {
    hide ConstraintName, ForeignRule, HeldUnder;
    Names_();
    assert key == if d.fk == CODE then "x" else "9";
    HeldBefore();
    assert TargetsOf(W, d.fk) == ["t"] && "t" in TargetsOf(W, d.fk);
    assert Constraint(W, d.fk) == if d.fk == CODE then UNIQUE else PRIMARY;
  }

  lemma HeldBefore()
    ensures HeldUnder(W, map[], "t", UNIQUE, "x") && HeldUnder(W, map[], "t", PRIMARY, "9")
  {
    assert "a" in W.rows && HeldBy(W.rows["a"], "t", UNIQUE, "x");
    assert "c" in W.rows && HeldBy(W.rows["c"], "t", PRIMARY, "9");
  }

  lemma BDangles()
    ensures !NoDangling(W, LAST.after)
  {
    hide ConstraintName, ForeignRule;
    Names_();
    var d := Declared(T, CODE);
    assert IsDeclared(W, d);
    assert B'.slots[0] in B'.slots && Naming(B'.slots[0], BY_CODE, "y");
    assert NamesNow(W, LAST.after, d, "y", "b");
    assert !HeldNow(W, LAST.after, CODE, "y");
  }
}
