/** Judging a planned change to rows: by its scope when there is a verdict to start from, and whole otherwise. */
module Prospecting {
  import opened Json
  import opened Sequences
  import opened Order
  import opened Verdicts
  import opened Judging
  import opened Scoping

  /** The most files a change may touch and still be judged by what it changes. */
  const INCREMENTAL_LIMIT := 4096

  // ----- pushing findings ---------------------------------------------------------------------

  function Pushed(v: Verdict, report: Report): Verdict {
    if report.warning then v.(warnings := v.warnings + [report.finding]) else v.(errors := v.errors + [report.finding])
  }

  lemma PushOne(v: Verdict, reports: seq<Report>, report: Report)
    ensures Pushed(Told(v, reports), report) == Told(v, reports + [report])
  {
    hide Flat;
    FlatBoth(AsWarning(true), reports, [report]);
    FlatBoth(AsWarning(false), reports, [report]);
    FlatOne(AsWarning(true), report);
    FlatOne(AsWarning(false), report);
  }

  lemma ToldBoth(v: Verdict, first: seq<Report>, second: seq<Report>)
    ensures Told(Told(v, first), second) == Told(v, first + second)
  {
    hide Flat;
    FlatBoth(AsWarning(true), first, second);
    FlatBoth(AsWarning(false), first, second);
    assert v.errors + Errors(first) + Errors(second) == v.errors + (Errors(first) + Errors(second));
    assert v.warnings + Warnings(first) + Warnings(second) == v.warnings + (Warnings(first) + Warnings(second));
  }

  lemma ToldNothing(v: Verdict)
    ensures Told(v, []) == v
  {
  }

  lemma FlatStep<T, U>(f: T -> seq<U>, xs: seq<T>, i: nat)
    requires i < |xs|
    ensures Flat(f, xs[..i + 1]) == Flat(f, xs[..i]) + f(xs[i])
  {
    assert xs[..i + 1] == xs[..i] + [xs[i]];
    FlatBoth(f, xs[..i], [xs[i]]);
    FlatOne(f, xs[i]);
  }

  /** Push a report for each of some things. */
  method TellEach<T>(v: Verdict, tell: T -> Report, things: seq<T>) returns (verdict: Verdict)
    ensures verdict == Told(v, Apply(tell, things))
  {
    verdict := v;
    ToldNothing(v);
    for i := 0 to |things|
      invariant verdict == Told(v, Apply(tell, things[..i]))
    {
      PushOne(v, Apply(tell, things[..i]), tell(things[i]));
      assert Apply(tell, things[..i + 1]) == Apply(tell, things[..i]) + [tell(things[i])];
      verdict := Pushed(verdict, tell(things[i]));
    }
    assert things[..|things|] == things;
  }

  method TellFaults(db: Database, files: seq<File>, scope: Option<Scope>, v: Verdict) returns (verdict: Verdict)
    ensures verdict == Told(v, Flat(FaultsIn(db, scope), files))
  {
    hide Flat, Told;
    verdict := v;
    FlatNothing(FaultsIn(db, scope));
    ToldNothing(v);
    for i := 0 to |files|
      invariant verdict == Told(v, Flat(FaultsIn(db, scope), files[..i]))
    {
      FlatStep(FaultsIn(db, scope), files, i);
      if TouchesPath(scope, files[i].path) {
        verdict := TellEach(verdict, FaultOf(db, files[i]), files[i].faults);
        ToldBoth(v, Flat(FaultsIn(db, scope), files[..i]), Apply(FaultOf(db, files[i]), files[i].faults));
      } else {
        assert Flat(FaultsIn(db, scope), files[..i]) + [] == Flat(FaultsIn(db, scope), files[..i]);
      }
    }
    assert files[..|files|] == files;
  }

  method TellUnique(
    db: Database, files: seq<File>, scope: Option<Scope>, schema: Schema, columns: seq<string>, v: Verdict)
    returns (verdict: Verdict)
    ensures verdict == Told(v, Found(db, files, scope, Unique(schema, columns)))
  {
    hide Flat, Told, DuplicatesIn;
    var duplicates := DuplicatesIn(files, [schema.table], ConstraintName(schema, columns), false, scope);
    verdict := v;
    FlatNothing(UniqueOf(db, schema, columns));
    ToldNothing(v);
    for i := 0 to |duplicates|
      invariant verdict == Told(v, Flat(UniqueOf(db, schema, columns), duplicates[..i]))
    {
      FlatStep(UniqueOf(db, schema, columns), duplicates, i);
      var d := duplicates[i];
      if d.holders != [] {
        verdict := TellEach(verdict, UniqueAt(db, schema, columns, d.key, d.holders[0]), d.holders[1..]);
        ToldBoth(v, Flat(UniqueOf(db, schema, columns), duplicates[..i]),
          Apply(UniqueAt(db, schema, columns, d.key, d.holders[0]), d.holders[1..]));
      } else {
        assert Flat(UniqueOf(db, schema, columns), duplicates[..i]) + []
          == Flat(UniqueOf(db, schema, columns), duplicates[..i]);
      }
    }
    assert duplicates[..|duplicates|] == duplicates;
  }

  /** Push what each of some things makes. */
  method TellAll<T>(v: Verdict, tell: T -> seq<Report>, things: seq<T>) returns (verdict: Verdict)
    ensures verdict == Told(v, Flat(tell, things))
  {
    hide Flat, Told;
    verdict := v;
    FlatNothing(tell);
    ToldNothing(v);
    for i := 0 to |things|
      invariant verdict == Told(v, Flat(tell, things[..i]))
    {
      FlatStep(tell, things, i);
      var reports := tell(things[i]);
      ghost var before := verdict;
      ToldNothing(before);
      for j := 0 to |reports|
        invariant verdict == Told(before, reports[..j])
      {
        PushOne(before, reports[..j], reports[j]);
        assert reports[..j + 1] == reports[..j] + [reports[j]];
        verdict := Pushed(verdict, reports[j]);
      }
      assert reports[..|reports|] == reports;
      ToldBoth(v, Flat(tell, things[..i]), reports);
    }
    assert things[..|things|] == things;
  }

  method TellNamespace(
    db: Database, files: seq<File>, scope: Option<Scope>, tables: seq<string>, domain: Option<string>, v: Verdict)
    returns (verdict: Verdict)
    ensures verdict == Told(v, Found(db, files, scope, Namespace(tables, domain)))
  {
    hide Flat, Told, DuplicatesIn;
    var duplicates := DuplicatesIn(files, tables, PRIMARY, true, scope);
    verdict := v;
    FlatNothing(NamespaceOf(db, domain));
    ToldNothing(v);
    for i := 0 to |duplicates|
      invariant verdict == Told(v, Flat(NamespaceOf(db, domain), duplicates[..i]))
    {
      FlatStep(NamespaceOf(db, domain), duplicates, i);
      var d := duplicates[i];
      if d.holders != [] {
        verdict := TellAll(verdict, NamespaceAt(db, domain, d.key, d.holders[0]), d.holders[1..]);
        ToldBoth(v, Flat(NamespaceOf(db, domain), duplicates[..i]),
          Flat(NamespaceAt(db, domain, d.key, d.holders[0]), d.holders[1..]));
      } else {
        assert Flat(NamespaceOf(db, domain), duplicates[..i]) + [] == Flat(NamespaceOf(db, domain), duplicates[..i]);
      }
    }
    assert duplicates[..|duplicates|] == duplicates;
  }

  /** Add what one rule finds. */
  method Tell(db: Database, files: seq<File>, scope: Option<Scope>, rule: Rule, v: Verdict) returns (verdict: Verdict)
    ensures verdict == Told(v, Found(db, files, scope, rule))
  {
    hide Flat, Told, DuplicatesIn, DanglingIn;
    match rule
    case Faults =>
      verdict := TellFaults(db, files, scope, v);
    case Unique(schema, columns) =>
      verdict := TellUnique(db, files, scope, schema, columns, v);
    case Namespace(tables, domain) =>
      verdict := TellNamespace(db, files, scope, tables, domain, v);
    case Foreign(schema, fk, constraint, targets) =>
      verdict :=
        TellEach(v, DanglingAt(db, schema, fk),
          DanglingIn(files, ForeignRule(schema.table, fk.name), constraint, targets, scope));
    case Graph(table, name) =>
      if TouchesTable(scope, table) {
        var rows := Filter(OfTable(table), files);
        verdict := TellEach(v, CycleAt(db, rows, table, name), db.cyclesOf(AcyclicRule(table, name), rows));
      } else {
        ToldNothing(v);
        verdict := v;
      }
    case Check(table, name) =>
      verdict := TellAll(v, Violating(db, table, name, scope), files);
    case Assert(table, assertion) =>
      verdict := TellEach(v, AssertedAt(db, files, table, assertion), db.asserted(table, assertion, files));
  }

  /** Judge a state: whole, or what a scope can change of it. */
  method Judge(db: Database, state: State, scope: Option<Scope>) returns (verdict: Verdict)
    ensures verdict == Judged(db, state, scope)
  {
    hide Flat, Told, Rules, Found;
    var rules := Rules(db);
    verdict := state.general;
    FlatNothing(FoundBy(db, state.files, scope));
    ToldNothing(verdict);
    for i := 0 to |rules|
      invariant verdict == Told(state.general, Flat(FoundBy(db, state.files, scope), rules[..i]))
    {
      FlatStep(FoundBy(db, state.files, scope), rules, i);
      verdict := Tell(db, state.files, scope, rules[i], verdict);
      ToldBoth(state.general, Flat(FoundBy(db, state.files, scope), rules[..i]),
        Found(db, state.files, scope, rules[i]));
    }
    assert rules[..|rules|] == rules;
  }

  // ----- the mirror ------------------------------------------------------------------------------

  predicate PathBefore(a: string, b: string) {
    CompareStrings(a, b) == Less
  }

  ghost predicate InPathOrder(files: seq<File>) {
    forall i, j | 0 <= i < j < |files| :: PathBefore(files[i].path, files[j].path)
  }

  /** A file put where its path belongs, in place of what was there. */
  function WithFile(files: seq<File>, file: File): seq<File> {
    if files == [] then [file]
    else
      var front, last := files[..|files| - 1], files[|files| - 1];
      if last.path == file.path then front + [file]
      else if PathBefore(last.path, file.path) then files + [file]
      else WithFile(front, file) + [last]
  }

  function NotAt(path: string): File -> bool {
    (file: File) => file.path != path
  }

  function WithoutFile(files: seq<File>, path: string): seq<File> {
    Filter(NotAt(path), files)
  }

  lemma {:induction false} WithFileHolds(files: seq<File>, file: File)
    requires InPathOrder(files)
    ensures forall f :: f in WithFile(files, file) <==> f == file || (f in files && f.path != file.path)
    ensures InPathOrder(WithFile(files, file))
  {
    hide CompareStrings;
    PathsCompare();
    if files != [] {
      var front, last := files[..|files| - 1], files[|files| - 1];
      assert forall f :: f in files <==> f in front || f == last;
      if last.path == file.path || PathBefore(last.path, file.path) {
        forall f | f in front ensures f.path != file.path {
          var i :| 0 <= i < |front| && front[i] == f;
          assert PathBefore(files[i].path, files[|files| - 1].path);
        }
        forall i | 0 <= i < |front| ensures PathBefore(front[i].path, file.path) {
          assert PathBefore(files[i].path, last.path);
        }
      } else {
        WithFileHolds(front, file);
        var placed := WithFile(front, file);
        forall i | 0 <= i < |placed| ensures PathBefore(placed[i].path, last.path) {
          assert placed[i] in placed;
          if placed[i] != file {
            var j :| 0 <= j < |front| && front[j] == placed[i];
            assert PathBefore(files[j].path, files[|files| - 1].path);
          }
        }
      }
    }
  }

  lemma PathsCompare()
    ensures forall a, b :: PathBefore(a, b) ==> a != b && !PathBefore(b, a)
    ensures forall a, b :: PathBefore(a, b) || a == b || PathBefore(b, a)
    ensures forall a, b, c :: PathBefore(a, b) && PathBefore(b, c) ==> PathBefore(a, c)
  {
    StringsAreTotal();
    hide CompareStrings;
  }

  lemma {:induction false} WithoutFileHolds(files: seq<File>, path: string)
    requires InPathOrder(files)
    ensures forall f :: f in WithoutFile(files, path) <==> f in files && f.path != path
    ensures InPathOrder(WithoutFile(files, path))
  {
    hide PathBefore;
    if files != [] {
      var front, last := files[..|files| - 1], files[|files| - 1];
      WithoutFileHolds(front, path);
      var kept := WithoutFile(front, path);
      assert forall f :: f in files <==> f in front || f == last;
      forall i | 0 <= i < |kept| ensures PathBefore(kept[i].path, last.path) {
        assert kept[i] in kept;
        var j :| 0 <= j < |front| && front[j] == kept[i];
        assert PathBefore(files[j].path, files[|files| - 1].path);
      }
    }
  }

  lemma {:induction false} WithoutStands(files: seq<File>, scope: Scope, path: string)
    requires path in scope.paths
    ensures Filter(Untouched(scope), WithoutFile(files, path)) == Filter(Untouched(scope), files)
  {
    var untouched := Untouched(scope);
    FilterTwice(NotAt(path), untouched, files);
    FilterAgrees(Both(NotAt(path), untouched), untouched, files);
  }

  lemma FilterLast<T>(keep: T -> bool, xs: seq<T>, x: T)
    ensures Filter(keep, xs + [x]) == Filter(keep, xs) + if keep(x) then [x] else []
  {
    assert (xs + [x])[..|xs|] == xs;
  }

  lemma {:induction false} WithStands(files: seq<File>, scope: Scope, file: File)
    requires file.path in scope.paths
    ensures Filter(Untouched(scope), WithFile(files, file)) == Filter(Untouched(scope), files)
  {
    hide PathBefore, Filter;
    var untouched := Untouched(scope);
    if files == [] {
      assert [file] == [] + [file];
      FilterLast(untouched, [], file);
    } else {
      var front, last := files[..|files| - 1], files[|files| - 1];
      assert files == front + [last];
      FilterLast(untouched, front, last);
      FilterLast(untouched, front, file);
      FilterLast(untouched, files, file);
      FilterLast(untouched, WithFile(front, file), last);
      WithStands(front, scope, file);
    }
  }
}
