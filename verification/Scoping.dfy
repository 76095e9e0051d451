/** Judging what a change can change, and keeping the rest, is judging the whole. */
module Scoping {
  import opened Json
  import opened Sequences
  import opened Order
  import opened Verdicts
  import opened Judging

  // ----- what a scope covers -------------------------------------------------------------------

  function Untouched(scope: Scope): File -> bool {
    (file: File) => file.path !in scope.paths
  }

  /** The scope names everything a file holds that the change could affect. */
  ghost predicate Covers(scope: Scope, files: seq<File>) {
    forall f | f in files && f.path in scope.paths :: f.table in scope.tables && forall h | h in f.held ::
      h.key in scope.keys
  }

  /** Files outside the scope are the same before and after, and what those inside it hold is in it. */
  ghost predicate Confined(before: seq<File>, after: seq<File>, scope: Scope) {
    && Filter(Untouched(scope), before) == Filter(Untouched(scope), after)
    && Covers(scope, before) && Covers(scope, after)
  }

  // ----- exchanging findings ---------------------------------------------------------------------

  /** Whole and scoped findings, before and after, differ by the same rest. */
  ghost predicate Exchanges<T(!new)>(whole: seq<T>, part: seq<T>, whole': seq<T>, part': seq<T>) {
    exists rest: multiset<T> :: multiset(whole) == multiset(part) + rest && multiset(whole') == multiset(part') + rest
  }

  lemma ExchangesBy<T(!new)>(whole: seq<T>, part: seq<T>, whole': seq<T>, part': seq<T>, rest: multiset<T>)
    requires multiset(whole) == multiset(part) + rest && multiset(whole') == multiset(part') + rest
    ensures Exchanges(whole, part, whole', part')
  {
  }

  lemma ExchangesBoth<T(
    !new)>(a: seq<T>, b: seq<T>, c: seq<T>, d: seq<T>, a': seq<T>, b': seq<T>, c': seq<T>, d': seq<T>)
    requires Exchanges(a, b, c, d) && Exchanges(a', b', c', d')
    ensures Exchanges(a + a', b + b', c + c', d + d')
  {
    var r: multiset<T> :| multiset(a) == multiset(b) + r && multiset(c) == multiset(d) + r;
    var s: multiset<T> :| multiset(a') == multiset(b') + s && multiset(c') == multiset(d') + s;
    ExchangesBy(a + a', b + b', c + c', d + d', r + s);
  }

  lemma {:induction false} ExchangesFlat<T, U(!new)>(
    f: T -> seq<U>, g: T -> seq<U>, f': T -> seq<U>, g': T -> seq<U>, xs: seq<T>)
    requires forall x | x in xs :: Exchanges(f(x), g(x), f'(x), g'(x))
    ensures Exchanges(Flat(f, xs), Flat(g, xs), Flat(f', xs), Flat(g', xs))
  {
    if xs == [] {
      ExchangesBy<U>([], [], [], [], multiset{});
    } else {
      var front, last := xs[..|xs| - 1], xs[|xs| - 1];
      assert last in xs && forall x | x in front :: x in xs;
      ExchangesFlat(f, g, f', g', front);
      ExchangesBoth(Flat(f, front), Flat(g, front), Flat(f', front), Flat(g', front), f(last), g(last), f'(last),
        g'(last));
    }
  }

  /** Lists made unit by unit: units apart from the change give the same rest on both sides. */
  lemma {:induction false} ExchangesUnits<T, U(!new)>(
    f: T -> seq<U>, g: T -> seq<U>, f': T -> seq<U>, g': T -> seq<U>, h: T -> seq<U>, apart: T -> bool, xs: seq<T>,
      xs': seq<T>)
    requires forall x | x in xs :: multiset(f(x)) == multiset(g(x)) + multiset(h(x))
    requires forall x | x in xs' :: multiset(f'(x)) == multiset(g'(x)) + multiset(h(x))
    requires forall x | (x in xs || x in xs') && !apart(x) :: h(x) == []
    requires multiset(Filter(apart, xs)) == multiset(Filter(apart, xs'))
    ensures Exchanges(Flat(f, xs), Flat(g, xs), Flat(f', xs'), Flat(g', xs'))
  {
    FlatSums(f, g, h, xs);
    FlatSums(f', g', h, xs');
    FlatFilter(h, apart, xs);
    FlatFilter(h, apart, xs');
    FlatPermutes(h, Filter(apart, xs), Filter(apart, xs'));
    ExchangesBy(Flat(f, xs), Flat(g, xs), Flat(f', xs'), Flat(g', xs'), multiset(Flat(h, xs)));
  }

  lemma ExchangesSame<T(!new)>(whole: seq<T>, whole': seq<T>)
    ensures Exchanges(whole, whole, whole', whole')
    ensures Exchanges(whole, [], whole, [])
  {
    ExchangesBy(whole, whole, whole', whole', multiset{});
    ExchangesBy(whole, [], whole, [], multiset(whole));
  }

  // ----- files one by one: faults and checks ----------------------------------------------------------

  /** What a list of findings by file says of files outside the scope. */
  function Outside(scope: Scope, f: File -> seq<Report>): File -> seq<Report> {
    (file: File) => if file.path in scope.paths then [] else f(file)
  }

  lemma {:induction false} FilesExchange(
    before: seq<File>, after: seq<File>, scope: Scope, whole: File -> seq<Report>, part: File -> seq<Report>)
    requires Confined(before, after, scope)
    requires forall file :: part(file) == if file.path in scope.paths then whole(file) else []
    ensures Exchanges(Flat(whole, before), Flat(part, before), Flat(whole, after), Flat(part, after))
  {
    ExchangesUnits(whole, part, whole, part, Outside(scope, whole), Untouched(scope), before, after);
  }

  // ----- keys one by one: duplicates ---------------------------------------------------------------------

  function ApartKey(scope: Scope): string -> bool {
    (key: string) => key !in scope.keys
  }

  /** A key outside the scope is held by the same files, before and after. */
  lemma {:induction false} SameHolders(
    before: seq<File>, after: seq<File>, scope: Scope, tables: seq<string>, constraint: string, key: string)
    requires Confined(before, after, scope) && key !in scope.keys
    ensures Filter(Holding(tables, constraint, key), before) == Filter(Holding(tables, constraint, key), after)
  {
    HoldersUntouched(before, scope, tables, constraint, key);
    HoldersUntouched(after, scope, tables, constraint, key);
  }

  lemma {:induction false} HoldersUntouched(
    files: seq<File>, scope: Scope, tables: seq<string>, constraint: string, key: string)
    requires Covers(scope, files) && key !in scope.keys
    ensures Filter(Holding(tables, constraint, key), files)
         == Filter(Holding(tables, constraint, key), Filter(Untouched(scope), files))
  {
    var holding, untouched := Holding(tables, constraint, key), Untouched(scope);
    FilterTwice(untouched, holding, files);
    FilterAgrees(Both(untouched, holding), holding, files);
  }

  lemma {:induction false} KeyIsHeld(files: seq<File>, tables: seq<string>, constraint: string, key: string)
    ensures key in KeysHeld(files, tables, constraint) <==> exists f ::
      f in files && HoldsKey(f, tables, constraint, key)
  {
    var under := KeysUnder(tables, constraint);
    var keys := Flat(under, files);
    SortKeepsAll(CompareStrings, Distinct(keys));
    assert key in multiset(KeysHeld(files, tables, constraint)) <==> key in multiset(Distinct(keys));
    DistinctHolds(keys, key);
    FlatHolds(under, files, key);
    forall i | 0 <= i < |files| ensures key in under(files[i]) <==> HoldsKey(files[i], tables, constraint, key) {
      FileHolds(files[i], tables, constraint, key);
    }
    if f :| f in files && HoldsKey(f, tables, constraint, key) {
      var i :| 0 <= i < |files| && files[i] == f;
    }
  }

  lemma {:induction false} FileHolds(file: File, tables: seq<string>, constraint: string, key: string)
    ensures key in KeysUnder(tables, constraint)(file) <==> HoldsKey(file, tables, constraint, key)
  {
    if file.table in tables {
      var some := Filter((h: Held) => h.constraint == constraint, file.held);
      var keys := KeysUnder(tables, constraint)(file);
      assert keys == Apply((h: Held) => h.key, some);
      if HoldsKey(file, tables, constraint, key) {
        assert Held(constraint, key) in some;
        var i :| 0 <= i < |some| && some[i] == Held(constraint, key);
        assert keys[i] == key;
      }
      if key in keys {
        var i :| 0 <= i < |keys| && keys[i] == key;
        assert some[i] in some && some[i].key == key;
      }
    }
  }

  lemma {:induction false} KeysAreOnce(files: seq<File>, tables: seq<string>, constraint: string)
    ensures Once(KeysHeld(files, tables, constraint))
  {
    var keys := Distinct(Flat(KeysUnder(tables, constraint), files));
    DistinctIsOnce(Flat(KeysUnder(tables, constraint), files));
    SortKeepsAll(CompareStrings, keys);
    PermutedOnce(keys, Sort(CompareStrings, keys));
  }

  /** Outside the scope, the same keys are held. */
  lemma {:induction false} SameKeysApart(
    before: seq<File>, after: seq<File>, scope: Scope, tables: seq<string>, constraint: string)
    requires Confined(before, after, scope)
    ensures multiset(Filter(ApartKey(scope), KeysHeld(before, tables, constraint)))
         == multiset(Filter(ApartKey(scope), KeysHeld(after, tables, constraint)))
  {
    hide KeysHeld, Confined;
    var apart := ApartKey(scope);
    var b, a := KeysHeld(before, tables, constraint), KeysHeld(after, tables, constraint);
    KeysAreOnce(before, tables, constraint);
    KeysAreOnce(after, tables, constraint);
    FilterOnce(apart, b);
    FilterOnce(apart, a);
    forall key ensures key in Filter(apart, b) <==> key in Filter(apart, a) {
      KeyIsHeld(before, tables, constraint, key);
      KeyIsHeld(after, tables, constraint, key);
      if key !in scope.keys {
        SameHolders(before, after, scope, tables, constraint, key);
        HeldIsFiltered(before, tables, constraint, key);
        HeldIsFiltered(after, tables, constraint, key);
      }
    }
    OnceSame(Filter(apart, b), Filter(apart, a));
  }

  lemma HeldIsFiltered(files: seq<File>, tables: seq<string>, constraint: string, key: string)
    ensures (exists f :: f in files && HoldsKey(f, tables, constraint, key)) <==>
      Filter(Holding(tables, constraint, key), files) != []
  {
    var holders := Filter(Holding(tables, constraint, key), files);
    if f :| f in files && HoldsKey(f, tables, constraint, key) {
      assert Holding(tables, constraint, key)(f);
      assert f in holders;
    }
    if holders != [] {
      assert holders[0] in holders;
      assert Holding(tables, constraint, key)(holders[0]);
    }
  }

  /** What is told of a key outside the scope. */
  function OutsideKey(scope: Scope, f: string -> seq<Report>): string -> seq<Report> {
    (key: string) => if key in scope.keys then [] else f(key)
  }

  lemma {:induction false} DuplicatesExchange(
    before: seq<File>, after: seq<File>, scope: Scope, tables: seq<string>, constraint: string, across: bool,
      tell: Duplicate -> seq<Report>)
    requires Confined(before, after, scope)
    ensures Exchanges(
      Flat(tell, DuplicatesIn(before, tables, constraint, across, None)),
      Flat(tell, DuplicatesIn(before, tables, constraint, across, Some(scope))),
      Flat(tell, DuplicatesIn(after, tables, constraint, across, None)),
      Flat(tell, DuplicatesIn(after, tables, constraint, across, Some(scope))))
  {
    hide KeysHeld, Confined, Flat, Filter, Exchanges;
    var wholeB := DuplicateOf(before, tables, constraint, across, None);
    var partB := DuplicateOf(before, tables, constraint, across, Some(scope));
    var wholeA := DuplicateOf(after, tables, constraint, across, None);
    var partA := DuplicateOf(after, tables, constraint, across, Some(scope));
    var b, a := KeysHeld(before, tables, constraint), KeysHeld(after, tables, constraint);
    FlatNests(tell, wholeB, b);
    FlatNests(tell, partB, b);
    FlatNests(tell, wholeA, a);
    FlatNests(tell, partA, a);
    SameKeysApart(before, after, scope, tables, constraint);
    FlatNothing(tell);
    var rest := OutsideKey(scope, Nested(tell, wholeB));
    forall key
      ensures Nested(tell, partB)(key) == if key in scope.keys then Nested(tell, wholeB)(key) else []
      ensures Nested(tell, partA)(key) == if key in scope.keys then Nested(tell, wholeA)(key) else []
      ensures key !in scope.keys ==> Nested(tell, wholeA)(key) == Nested(tell, wholeB)(key)
    {
      if key !in scope.keys { SameHolders(before, after, scope, tables, constraint, key); }
    }
    ExchangesUnits(Nested(tell, wholeB), Nested(tell, partB), Nested(tell, wholeA), Nested(tell, partA), rest,
      ApartKey(scope), b, a);
  }

  lemma FlatNothing<T, U>(f: T -> seq<U>)
    ensures Flat(f, []) == []
  {
  }

  // ----- references one by one ------------------------------------------------------------------------------

  /** A reference outside the scope dangles before exactly when it does after. */
  lemma {:induction false} DanglingExchange(
    before: seq<File>, after: seq<File>, scope: Scope, rule: string, constraint: string, tables: seq<string>,
      tell: Edge -> Report)
    requires Confined(before, after, scope)
    ensures Exchanges(
      Apply(tell, DanglingIn(before, rule, constraint, tables, None)),
      Apply(tell, DanglingIn(before, rule, constraint, tables, Some(scope))),
      Apply(tell, DanglingIn(after, rule, constraint, tables, None)),
      Apply(tell, DanglingIn(after, rule, constraint, tables, Some(scope))))
  {
    hide Confined, Flat, Filter, Exchanges, DanglingFrom;
    var one := Singly(tell);
    forall files, s ensures Apply(tell, DanglingIn(files, rule, constraint, tables, s))
      == Flat(Nested(one, DanglingFrom(files, rule, constraint, tables, s)), files)
    {
      ApplyIsFlat(tell, DanglingIn(files, rule, constraint, tables, s));
      FlatNests(one, DanglingFrom(files, rule, constraint, tables, s), files);
    }
    var wholeB, partB := DanglingFrom(before, rule, constraint, tables, None),
      DanglingFrom(before, rule, constraint, tables, Some(scope));
    var wholeA, partA := DanglingFrom(after, rule, constraint, tables, None),
      DanglingFrom(after, rule, constraint, tables, Some(scope));
    var apart := ApartFrom(before, rule, constraint, tables, scope);
    forall file
      ensures multiset(Nested(one, wholeB)(file))
        == multiset(Nested(one, partB)(file)) + multiset(Nested(one, apart)(file))
      ensures multiset(Nested(one, wholeA)(file))
        == multiset(Nested(one, partA)(file)) + multiset(Nested(one, apart)(file))
      ensures file.path in scope.paths ==> Nested(one, apart)(file) == []
    {
      DanglingSplits(before, before, after, scope, rule, constraint, tables, tell, file);
      DanglingSplits(after, before, after, scope, rule, constraint, tables, tell, file);
      FlatNothing(one);
    }
    SameFilesApart(before, after, scope);
    ExchangesUnits(Nested(one, wholeB), Nested(one, partB), Nested(one, wholeA), Nested(one, partA), Nested(one, apart),
      Untouched(scope), before, after);
  }

  lemma SameFilesApart(before: seq<File>, after: seq<File>, scope: Scope)
    requires Confined(before, after, scope)
    ensures Filter(Untouched(scope), before) == Filter(Untouched(scope), after)
  {
  }

  function Singly<T, U>(f: T -> U): T -> seq<U> {
    x => [f(x)]
  }

  lemma {:induction false} ApplyIsFlat<T, U>(f: T -> U, xs: seq<T>)
    ensures Apply(f, xs) == Flat(Singly(f), xs)
  {
    if xs != [] {
      ApplyIsFlat(f, xs[..|xs| - 1]);
    }
  }

  /** A file's dangling references outside the scope: of an untouched file, naming an untouched key. */
  function ApartOf(
    files: seq<File>, rule: string, constraint: string, tables: seq<string>, scope: Scope,
      file: File): Reference -> bool
  {
    (r: Reference) =>
      && r.rule == rule && Missing(files, tables, constraint, r.target)
      && file.path !in scope.paths && r.target !in scope.keys
  }

  function ApartFrom(
    files: seq<File>, rule: string, constraint: string, tables: seq<string>, scope: Scope): File -> seq<Edge>
  {
    (file: File) => Apply(EdgeOf(file), Filter(ApartOf(files, rule, constraint, tables, scope, file), file.references))
  }

  lemma {:induction false} DanglingSplits(
    files: seq<File>, before: seq<File>, after: seq<File>, scope: Scope, rule: string, constraint: string,
      tables: seq<string>,
    tell: Edge -> Report, file: File)
    requires Confined(before, after, scope) && (files == before || files == after)
    ensures var one := Singly(tell);
      var whole := DanglingFrom(files, rule, constraint, tables, None);
      var part := DanglingFrom(files, rule, constraint, tables, Some(scope));
      var apart := ApartFrom(before, rule, constraint, tables, scope);
      && multiset(Nested(one, whole)(file)) == multiset(Nested(one, part)(file)) + multiset(Nested(one, apart)(file))
      && (file.path in scope.paths ==> apart(file) == [])
  {
    hide Confined, Missing, Flat, Filter;
    var whole, part := DanglingOf(files, rule, constraint, tables, None, file),
      DanglingOf(files, rule, constraint, tables, Some(scope), file);
    var apart := ApartOf(before, rule, constraint, tables, scope, file);
    var some := file.references;
    forall r: Reference
      ensures multiset(TellIf(tell, file, whole)(r))
        == multiset(TellIf(tell, file, part)(r)) + multiset(TellIf(tell, file, apart)(r))
    {
      if r.target !in scope.keys { SameMissing(before, after, scope, tables, constraint, r.target); }
    }
    FlatSums(TellIf(tell, file, whole), TellIf(tell, file, part), TellIf(tell, file, apart), some);
    TellFiltered(tell, file, whole, some);
    TellFiltered(tell, file, part, some);
    TellFiltered(tell, file, apart, some);
    if file.path in scope.paths { FilterNone(apart, some); }
  }

  lemma SameMissing(
    before: seq<File>, after: seq<File>, scope: Scope, tables: seq<string>, constraint: string, key: string)
    requires Confined(before, after, scope) && key !in scope.keys
    ensures Missing(before, tables, constraint, key) <==> Missing(after, tables, constraint, key)
  {
    SameHolders(before, after, scope, tables, constraint, key);
  }

  function TellIf(tell: Edge -> Report, file: File, keep: Reference -> bool): Reference -> seq<Report> {
    (r: Reference) => if keep(r) then [tell(Edge(file, r))] else []
  }

  lemma {:induction false} TellFiltered(tell: Edge -> Report, file: File, keep: Reference -> bool, some: seq<Reference>)
    ensures Flat(Singly(tell), Apply(EdgeOf(file), Filter(keep, some))) == Flat(TellIf(tell, file, keep), some)
  {
    if some != [] {
      var front, last := some[..|some| - 1], some[|some| - 1];
      TellFiltered(tell, file, keep, front);
      var kept := Filter(keep, front);
      if keep(last) {
        assert Apply(EdgeOf(file), kept + [last]) == Apply(EdgeOf(file), kept) + [Edge(file, last)];
        FlatBoth(Singly(tell), Apply(EdgeOf(file), kept), [Edge(file, last)]);
        FlatOne(Singly(tell), Edge(file, last));
      } else {
        assert kept + [] == kept;
      }
    }
  }

  // ----- tables one by one: graphs -----------------------------------------------------------------------------

  lemma {:induction false} SameRows(before: seq<File>, after: seq<File>, scope: Scope, table: string)
    requires Confined(before, after, scope) && table !in scope.tables
    ensures Filter(OfTable(table), before) == Filter(OfTable(table), after)
  {
    RowsUntouched(before, scope, table);
    RowsUntouched(after, scope, table);
  }

  lemma {:induction false} RowsUntouched(files: seq<File>, scope: Scope, table: string)
    requires Covers(scope, files) && table !in scope.tables
    ensures Filter(OfTable(table), files) == Filter(OfTable(table), Filter(Untouched(scope), files))
  {
    FilterTwice(Untouched(scope), OfTable(table), files);
    FilterAgrees(Both(Untouched(scope), OfTable(table)), OfTable(table), files);
  }

  lemma ViolatingInScope(db: Database, table: string, name: string, scope: Scope, file: File)
    ensures Violating(db, table, name, Some(scope))(file) == if file.path in scope.paths
      then Violating(db, table, name, None)(file) else []
  {
    assert TouchesPath(None, file.path);
    assert TouchesPath(Some(scope), file.path) <==> file.path in scope.paths;
  }

  // ----- every rule --------------------------------------------------------------------------------------------

  /** For each rule, what is found whole and in scope differ by the same findings before and after. */
  lemma {:induction false} RuleExchanges(db: Database, before: seq<File>, after: seq<File>, scope: Scope, rule: Rule)
    requires Confined(before, after, scope)
    ensures Exchanges(
      Found(db, before, None, rule), Found(db, before, Some(scope), rule),
      Found(db, after, None, rule), Found(db, after, Some(scope), rule))
  {
    hide Confined, Exchanges, Flat, Filter, DuplicatesIn, DanglingIn;
    match rule
    case Faults =>
      FilesExchange(before, after, scope, FaultsIn(db, None), FaultsIn(db, Some(scope)));
    case Unique(schema, columns) =>
      DuplicatesExchange(before, after, scope, [schema.table], ConstraintName(schema, columns), false,
        UniqueOf(db, schema, columns));
    case Namespace(tables, domain) =>
      DuplicatesExchange(before, after, scope, tables, PRIMARY, true, NamespaceOf(db, domain));
    case Foreign(schema, fk, constraint, targets) =>
      DanglingExchange(before, after, scope, ForeignRule(schema.table, fk.name), constraint, targets,
        DanglingAt(db, schema, fk));
    case Graph(table, name) =>
      if table !in scope.tables { SameRows(before, after, scope, table); }
      ExchangesSame(Found(db, before, None, rule), Found(db, after, None, rule));
    case Check(table, name) =>
      forall file: File
        ensures Violating(db, table, name, Some(scope))(file) == if file.path in scope.paths
          then Violating(db, table, name, None)(file) else []
      {
        ViolatingInScope(db, table, name, scope, file);
      }
      FilesExchange(before, after, scope, Violating(db, table, name, None), Violating(db, table, name, Some(scope)));
    case Assert(table, assertion) =>
      ExchangesSame(Found(db, before, None, rule), Found(db, after, None, rule));
  }

  // ----- and the verdicts --------------------------------------------------------------------------------------

  lemma {:induction false} WarningsCount(warning: bool, reports: seq<Report>, finding: Finding)
    ensures multiset(Flat(AsWarning(warning), reports))[finding] == multiset(reports)[Report(finding, warning)]
  {
    if reports != [] {
      var front, last := reports[..|reports| - 1], reports[|reports| - 1];
      WarningsCount(warning, front, finding);
      assert reports == front + [last];
    }
  }

  lemma {:induction false} AsWarningExchanges(
    warning: bool, whole: seq<Report>, part: seq<Report>, whole': seq<Report>, part': seq<Report>)
    requires Exchanges(whole, part, whole', part')
    ensures var f := AsWarning(warning);
      && multiset(Flat(f, part)) <= multiset(Flat(f, whole))
      && multiset(Flat(f, whole')) == multiset(Flat(f, whole)) - multiset(Flat(f, part)) + multiset(Flat(f, part'))
  {
    var f := AsWarning(warning);
    var rest: multiset<Report> :| multiset(whole) == multiset(part) + rest
      && multiset(whole') == multiset(part') + rest;
    forall finding
      ensures multiset(Flat(f, part))[finding] <= multiset(Flat(f, whole))[finding]
      ensures multiset(Flat(f, whole'))[finding]
        == multiset(Flat(f, whole))[finding] - multiset(Flat(f, part))[finding] + multiset(Flat(f, part'))[finding]
    {
      WarningsCount(warning, whole, finding);
      WarningsCount(warning, part, finding);
      WarningsCount(warning, whole', finding);
      WarningsCount(warning, part', finding);
    }
  }

  /** What `Revalidate` is given of one list of a verdict, and what it has to make of it. */
  ghost predicate Patches(previous: seq<Finding>, before: seq<Finding>, after: seq<Finding>, whole: seq<Finding>) {
    multiset(before) <= multiset(previous) && multiset(whole) == multiset(previous) - multiset(before) + multiset(after)
  }

  /** The whole verdict of the new state is the old one, less the scoped findings before, with those after. */
  lemma {:induction false} ScopedIsWhole(db: Database, before: State, after: State, scope: Scope)
    requires Confined(before.files, after.files, scope)
    ensures var previous, whole := Verdicts.Canonical(Judged(db, before, None)), Judged(db, after, None);
      var gone, found := Judged(db, before, Some(scope)), Judged(db, after, Some(scope));
      && Patches(previous.errors, gone.errors, found.errors, whole.errors)
      && Patches(previous.warnings, gone.warnings, found.warnings, whole.warnings)
  {
    hide Confined, Found, Exchanges, Rules, Flat, Sort, Patches;
    var rules := Rules(db);
    var wb, pb := FoundBy(db, before.files, None), FoundBy(db, before.files, Some(scope));
    var wa, pa := FoundBy(db, after.files, None), FoundBy(db, after.files, Some(scope));
    forall rule | rule in rules ensures Exchanges(wb(rule), pb(rule), wa(rule), pa(rule)) {
      RuleExchanges(db, before.files, after.files, scope, rule);
    }
    ExchangesFlat(wb, pb, wa, pa, rules);
    PatchesList(false, before.general.errors, after.general.errors, Flat(wb, rules), Flat(pb, rules), Flat(wa, rules),
      Flat(pa, rules));
    PatchesList(true, before.general.warnings, after.general.warnings, Flat(wb, rules), Flat(pb, rules),
      Flat(wa, rules), Flat(pa, rules));
  }

  lemma PatchesList(
    warning: bool, general: seq<Finding>, general': seq<Finding>,
    whole: seq<Report>, part: seq<Report>, whole': seq<Report>, part': seq<Report>)
    requires Exchanges(whole, part, whole', part')
    ensures var f := AsWarning(warning);
      Patches(Sort(CompareFindings, general + Flat(f, whole)), general + Flat(f, part), general' + Flat(f, part'),
        general' + Flat(f, whole'))
  {
    hide Exchanges, Flat, Sort;
    AsWarningExchanges(warning, whole, part, whole', part');
    SortKeepsAll(CompareFindings, general + Flat(AsWarning(warning), whole));
  }
}
