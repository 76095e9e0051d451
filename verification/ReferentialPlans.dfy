/**
 Any plan, of deletions, insertions, updates and moves together: an accepted one
 can leave naming nothing only references to keys the plan itself brought in.
 */
module ReferentialPlans {
  import opened Json
  import opened Sequences
  import opened Judging
  import opened Referential
  import opened ReferentialSafety
  import opened ReferentialClosure
  import opened ReferentialLimits

  // ----- plans ---------------------------------------------------------------------------------------

  /** Where each table's rows are: a path belongs to one table. */
  type Places = Path -> string

  /**
   Rows are changed from what they are, within their tables, to paths that are
   free or that the plan also changes.
   */
  ghost predicate WellPlanned(w: World, changes: seq<Change>, places: Places) {
    && (forall p | p in w.rows :: w.rows[p].table == places(p))
    && (forall c | c in changes :: WellChanged(w, changes, places, c))
  }

  ghost predicate WellChanged(w: World, changes: seq<Change>, places: Places, c: Change) {
    && (c.before.Some? ==> c.before.value.0 in w.rows && c.before.value.1 == w.rows[c.before.value.0])
    && (c.after.Some? ==>
          && c.after.value.1.table == places(c.after.value.0)
          && (c.before.Some? ==> places(c.before.value.0) == places(c.after.value.0))
          && (c.after.value.0 in w.rows ==> c.after.value.0 in PlanPaths(changes)))
  }

  /** No update does what no deletion does: references are never reset to a default. */
  ghost predicate NoResets(w: World) {
    forall d | IsDeclared(w, d) :: d.fk.onDelete != SetDefault && d.fk.onUpdate != SetDefault
  }

  /** A planned row holds the key a foreign key compares. */
  ghost predicate Given(w: World, plan: map<Path, Option<Row>>, fk: ForeignKey, key: string) {
    exists p | p in plan :: GivenAt(w, plan, fk, key, p)
  }

  ghost predicate GivenAt(w: World, plan: map<Path, Option<Row>>, fk: ForeignKey, key: string, p: Path)
    requires p in plan
  {
    plan[p].Some? && plan[p].value.table in TargetsOf(w, fk) && Holds(plan[p].value, Constraint(w, fk), key)
  }

  ghost predicate HeldBefore(w: World, fk: ForeignKey, key: string) {
    exists p :: HoldsFor(w, fk, key, p)
  }

  ghost predicate WrittenIn(w: World, plan: map<Path, Option<Row>>, d: Declared, key: string) {
    exists p | p in plan && plan[p].Some? ::
      plan[p].value.table == d.schema.table && Names(plan[p].value, RuleOf(d), key)
  }

  /** The plan brings a key in: it gives it to a row, or writes a reference to it though no row held it. */
  ghost predicate Introduced(w: World, plan: map<Path, Option<Row>>, d: Declared, key: string) {
    Given(w, plan, d.fk, key) || (WrittenIn(w, plan, d, key) && !HeldBefore(w, d.fk, key))
  }

  // ----- what every step keeps -----------------------------------------------------------------------

  /** A row is what it was, or what the plan made it, but for its references. */
  ghost predicate Based(w: World, plan: map<Path, Option<Row>>, p: Path, row: Row) {
    if p in plan then plan[p].Some? && row.table == plan[p].value.table && row.held == plan[p].value.held
    else p in w.rows && row.table == w.rows[p].table && row.held == w.rows[p].held
  }

  ghost predicate Stands(w: World, plan: map<Path, Option<Row>>, work: Work) {
    && (forall p | p in plan :: p in work.after)
    && (forall p | p in work.after && work.after[p].Some? :: Based(w, plan, p, work.after[p].value))
    && (forall p | p in work.before :: p in w.rows && work.before[p] == w.rows[p])
    && (forall e | e in work.pending :: e.1 == None || e.1 == e.0 || (e.1.value in plan && AtHome(w, plan, e)))
  }

  /** A row planned to another path stays in its table. */
  ghost predicate AtHome(w: World, plan: map<Path, Option<Row>>, e: (Option<Path>, Option<Path>))
    requires e.1.Some? && e.1.value in plan
  {
    e.0.Some? && e.0.value in w.rows && plan[e.1.value].Some? ==> plan[e.1.value].value.table == w.rows[e.0.value].table
  }

  /** The plan puts rows only where rows of their table are. */
  ghost predicate InPlace(w: World, plan: map<Path, Option<Row>>) {
    forall p | p in plan && p in w.rows && plan[p].Some? :: plan[p].value.table == w.rows[p].table
  }

  /** A row that held the key has still to be examined. */
  ghost predicate Awaited(w: World, work: Work, fk: ForeignKey, key: string) {
    exists p, to :: (Some(p), to) in work.pending && HoldsFor(w, fk, key, p)
  }

  ghost predicate Resolved(w: World, work: Work, d: Declared, key: string) {
    HeldNow(w, work.after, d.fk, key) || Awaited(w, work, d.fk, key) || Handled(w, work, d, key)
  }

  /** Every key the plan did not bring in is settled, save those still owed. */
  ghost predicate Resolves(w: World, plan: map<Path, Option<Row>>, work: Work, owed: Owed) {
    forall d, key | IsDeclared(w, d) && !Introduced(w, plan, d, key) && (d, key) !in owed :: Resolved(w, work, d, key)
  }

  ghost predicate Holding(w: World, plan: map<Path, Option<Row>>, work: Work, owed: Owed) {
    Stands(w, plan, work) && Resolves(w, plan, work, owed)
  }

  // ----- the ways a row changes ------------------------------------------------------------------------

  /** A row names, under any foreign key, only keys another names or keys the plan gave. */
  ghost predicate NamesNoMore(w: World, plan: map<Path, Option<Row>>, row: Row, original: Row) {
    forall d, key | IsDeclared(w, d) && row.table == d.schema.table && Names(row, RuleOf(d), key) ::
      Names(original, RuleOf(d), key) || Given(w, plan, d.fk, key)
  }

  ghost predicate Alters(
    w: World, plan: map<Path, Option<Row>>, work: Work, later: Work, path: Path, row: Option<Row>)
  {
    && Current(w, work.after, path).Some?
    && (row.Some? ==>
          var was := Current(w, work.after, path).value;
          row.value.table == was.table && row.value.held == was.held && NamesNoMore(w, plan, row.value, was))
    && later.after == work.after[path := row]
    && later.pending == work.pending + [(Some(path), if row.Some? then Some(path) else None)]
    && later.refusals == work.refusals && later.deferred == work.deferred
    && later.before == Remembered(w, work.before, path)
  }

  lemma CurrentIsBased(w: World, plan: map<Path, Option<Row>>, work: Work, path: Path)
    requires Stands(w, plan, work) && Current(w, work.after, path).Some?
    ensures Based(w, plan, path, Current(w, work.after, path).value)
  {
  }

  lemma {:induction false} AlterStands(
    w: World, plan: map<Path, Option<Row>>, work: Work, later: Work, path: Path, row: Option<Row>)
    requires Stands(w, plan, work) && Alters(w, plan, work, later, path, row)
    ensures Stands(w, plan, later)
  {
    hide NamesNoMore, AtHome;
    CurrentIsBased(w, plan, work, path);
  }

  lemma NamesFewer(
    w: World, plan: map<Path, Option<Row>>, work: Work, later: Work, path: Path, row: Option<Row>,
    d: Declared, key: string, p: Path)
    requires Alters(w, plan, work, later, path, row) && NamesNow(w, later.after, d, key, p)
    requires IsDeclared(w, d) && !Given(w, plan, d.fk, key)
    ensures NamesNow(w, work.after, d, key, p)
  {
    hide Given, Names, IsDeclared;
  }

  lemma BasedIsGiven(w: World, plan: map<Path, Option<Row>>, p: Path, row: Row, fk: ForeignKey, key: string)
    requires Based(w, plan, p, row) && row.table in TargetsOf(w, fk) && Holds(row, Constraint(w, fk), key)
    ensures p in plan ==> Given(w, plan, fk, key)
  {
    hide Constraint, TargetsOf;
    if p in plan { assert GivenAt(w, plan, fk, key, p); }
  }

  /** A key loses its holder only to a change that waits to be examined. */
  lemma {:induction false} HeldOrAwaited(
    w: World, plan: map<Path, Option<Row>>, work: Work, later: Work, path: Path, row: Option<Row>,
    fk: ForeignKey, key: string)
    requires Stands(w, plan, work) && Alters(w, plan, work, later, path, row)
    requires HeldNow(w, work.after, fk, key) && !Given(w, plan, fk, key)
    ensures HeldNow(w, later.after, fk, key) || Awaited(w, later, fk, key)
  {
    hide Constraint, TargetsOf, HeldUnder, NamesNoMore, AtHome, Given;
    var t :| t in TargetsOf(w, fk) && HeldUnder(w, work.after, t, Constraint(w, fk), key);
    var constraint := Constraint(w, fk);
    HeldMeans(w, work.after, t, constraint, key);
    HeldMeans(w, later.after, t, constraint, key);
    var holder :| HoldsNow(w, work.after, t, constraint, key, holder);
    if holder == path && row.None? {
      CurrentIsBased(w, plan, work, path);
      assert (Some(path), None) in later.pending;
      BasedIsGiven(w, plan, path, Current(w, work.after, path).value, fk, key);
      assert HoldsFor(w, fk, key, path);
    } else {
      assert HoldsNow(w, later.after, t, constraint, key, holder);
    }
  }

  lemma AwaitedStays(w: World, work: Work, later: Work, fk: ForeignKey, key: string)
    requires Awaited(w, work, fk, key) && work.pending <= later.pending
    ensures Awaited(w, later, fk, key)
  {
    var p, to :| (Some(p), to) in work.pending && HoldsFor(w, fk, key, p);
    assert (Some(p), to) in later.pending;
  }

  lemma {:induction false} AlterHolds(
    w: World, plan: map<Path, Option<Row>>, work: Work, later: Work, path: Path, row: Option<Row>, owed: Owed)
    requires Holding(w, plan, work, owed) && Alters(w, plan, work, later, path, row)
    ensures Holding(w, plan, later, owed)
  {
    AlterStands(w, plan, work, later, path, row);
    assert work.pending <= later.pending;
    hide Stands, Alters, HeldNow, Awaited, Given, WrittenIn, HeldBefore;
    forall d, key | IsDeclared(w, d) && !Introduced(w, plan, d, key) && (d, key) !in owed
      ensures Resolved(w, later, d, key)
    {
      assert Resolved(w, work, d, key);
      if Handled(w, work, d, key) {
        AlterHandled(w, plan, work, later, path, row, d, key);
      } else if HeldNow(w, work.after, d.fk, key) {
        HeldOrAwaited(w, plan, work, later, path, row, d.fk, key);
      } else {
        AwaitedStays(w, work, later, d.fk, key);
      }
    }
  }

  lemma AlterHandled(
    w: World, plan: map<Path, Option<Row>>, work: Work, later: Work, path: Path, row: Option<Row>,
    d: Declared, key: string)
    requires Alters(w, plan, work, later, path, row) && Handled(w, work, d, key)
    requires IsDeclared(w, d) && !Given(w, plan, d.fk, key)
    ensures Handled(w, later, d, key)
  {
    hide NamesNow, NamesNoMore, Given, IsDeclared;
    if later.refusals == [] {
      forall p | NamesNow(w, later.after, d, key, p) ensures IsDeferred(w, later, d, key, p) {
        NamesFewer(w, plan, work, later, path, row, d, key, p);
        assert IsDeferred(w, work, d, key, p);
      }
    }
  }

  // ----- what actions leave -----------------------------------------------------------------------------

  lemma {:induction false} RedirectedTo(slots: seq<Slot>, rule: string, key: string, target: Option<string>)
    ensures forall s | s in Redirected(slots, rule, key, target) ::
      (s in slots && !Naming(s, rule, key)) || (target.Some? && s.rule == rule && s.target == target.value)
  {
    if slots != [] { RedirectedTo(slots[..|slots| - 1], rule, key, target); }
  }

  /** What an update cascade writes is a key the plan gave; and nothing writes another. */
  ghost predicate Carries(w: World, plan: map<Path, Option<Row>>, fk: ForeignKey, vacated: Vacated) {
    && vacated.replacement.Some? ==>
      var carried := Carried(w, vacated);
      carried.Some? ==> carried.value != vacated.key && Given(w, plan, fk, carried.value)
  }

  predicate Rewrites(action: Action) {
    action in {Cascade, SetNull, Remove}
  }

  lemma {:induction false} ActedNamesNoMore(
    w: World, plan: map<Path, Option<Row>>, d: Declared, vacated: Vacated, row: Row)
    requires WellDeclared(w) && IsDeclared(w, d) && row.table == d.schema.table && Carries(w, plan, d.fk, vacated)
    requires Rewrites(ActionOf(d.fk, vacated)) && !(ActionOf(d.fk, vacated) == Cascade && vacated.replacement.None?)
    ensures var acted := Acted(w, d.fk, RuleOf(d), vacated, row);
      && acted.table == row.table && acted.held == row.held
      && NamesNoMore(w, plan, acted, row) && !Names(acted, RuleOf(d), vacated.key)
  {
    hide Given, IsDeclared, WellDeclared, Carried;
    var acted := Acted(w, d.fk, RuleOf(d), vacated, row);
    var target := if ActionOf(d.fk, vacated) == Cascade then Carried(w, vacated) else None;
    RedirectedTo(row.slots, RuleOf(d), vacated.key, target);
    SweptAway(row.slots, RuleOf(d), vacated.key);
    forall e, key | IsDeclared(w, e) && acted.table == e.schema.table && Names(acted, RuleOf(e), key)
      ensures Names(row, RuleOf(e), key) || Given(w, plan, e.fk, key)
    {
      var s :| s in acted.slots && Naming(s, RuleOf(e), key);
      if s !in row.slots { OneRule(w, d, e); }
    }
  }

  // ----- resolving one referrer ----------------------------------------------------------------------------

  /** Nothing dealt with comes undone, and no reference appears to a key the plan did not give. */
  ghost predicate Nearer(w: World, plan: map<Path, Option<Row>>, work: Work, later: Work) {
    && (forall d, key, path | IsDeclared(w, d) && !Given(w, plan, d.fk, key)
      && NamesNow(w, later.after, d, key, path) ::
          NamesNow(w, work.after, d, key, path))
    && (forall check | check in work.deferred :: check in later.deferred)
    && (work.refusals != [] ==> later.refusals != [])
  }

  lemma AlterIsNearer(
    w: World, plan: map<Path, Option<Row>>, work: Work, later: Work, path: Path, row: Option<Row>)
    requires Alters(w, plan, work, later, path, row)
    ensures Nearer(w, plan, work, later)
  {
    hide NamesNow, Given, IsDeclared, NamesNoMore;
    forall d, key, p | IsDeclared(w, d) && !Given(w, plan, d.fk, key) && NamesNow(w, later.after, d, key, p)
      ensures NamesNow(w, work.after, d, key, p)
    {
      NamesFewer(w, plan, work, later, path, row, d, key, p);
    }
  }

  lemma NearerThrough(w: World, plan: map<Path, Option<Row>>, a: Work, b: Work, c: Work)
    requires Nearer(w, plan, a, b) && Nearer(w, plan, b, c)
    ensures Nearer(w, plan, a, c)
  {
    hide NamesNow, Given, IsDeclared;
  }

  /** A path's reference to the key is dealt with, unless the plan gave the key. */
  ghost predicate DoneWith(w: World, plan: map<Path, Option<Row>>, work: Work, d: Declared, key: string, path: Path) {
    Given(w, plan, d.fk, key) || Done(w, work, d, key, path)
  }

  lemma DoneWithStays(
    w: World, plan: map<Path, Option<Row>>, work: Work, later: Work, d: Declared, key: string, path: Path)
    requires IsDeclared(w, d) && Nearer(w, plan, work, later) && DoneWith(w, plan, work, d, key, path)
    ensures DoneWith(w, plan, later, d, key, path)
  {
    hide NamesNow, Given, IsDeclared;
  }

  /** The foreign key concerns what was given up, and carries only what the plan gave. */
  ghost predicate GivenUp(w: World, plan: map<Path, Option<Row>>, fk: ForeignKey, vacated: Vacated) {
    Concerns(w, fk, vacated) && Carries(w, plan, fk, vacated)
  }

  /** What a rewriting action leaves of a row. */
  function Leaves(w: World, d: Declared, vacated: Vacated, row: Option<Row>): Option<Row> {
    if row.None? || (ActionOf(d.fk, vacated) == Cascade && vacated.replacement.None?) then None
    else Some(Acted(w, d.fk, RuleOf(d), vacated, row.value))
  }

  lemma {:induction false} ReferrerAlters(
    w: World, plan: map<Path, Option<Row>>, d: Declared, vacated: Vacated, work: Work, path: Path)
    requires WellDeclared(w) && IsDeclared(w, d) && GivenUp(w, plan, d.fk, vacated)
    requires Rewrites(ActionOf(d.fk, vacated)) && NamesNow(w, work.after, d, vacated.key, path)
    ensures var later := ResolveReferrer(w, d.schema, d.fk, vacated, work, path);
      var row := Leaves(w, d, vacated, Current(w, work.after, path));
      Alters(w, plan, work, later, path, row) && !NamesNow(w, later.after, d, vacated.key, path)
  {
    hide WellDeclared, IsDeclared, Concerns, Carries, Acted, Names, NamesNoMore, Remembered;
    var row := Current(w, work.after, path).value;
    if !(ActionOf(d.fk, vacated) == Cascade && vacated.replacement.None?) {
      ActedNamesNoMore(w, plan, d, vacated, row);
    }
  }

  lemma {:induction false} ReferrerHolds(
    w: World, plan: map<Path, Option<Row>>, d: Declared, vacated: Vacated, work: Work, path: Path, owed: Owed)
    requires WellDeclared(w) && NoResets(w) && IsDeclared(w, d) && GivenUp(w, plan, d.fk, vacated)
    requires Holding(w, plan, work, owed)
    ensures var later := ResolveReferrer(w, d.schema, d.fk, vacated, work, path);
      Holding(w, plan, later, owed) && Nearer(w, plan, work, later) && DoneWith(w, plan, later, d, vacated.key, path)
  {
    hide WellDeclared, IsDeclared, GivenUp, Holding, Nearer, NamesNow, Given, Alters, ResolveReferrer, Acted;
    var later := ResolveReferrer(w, d.schema, d.fk, vacated, work, path);
    NotNamedIsLeft(w, d, vacated, work, path);
    if !NamesNow(w, work.after, d, vacated.key, path) {
      SameWork(w, plan, work);
    } else if Rewrites(ActionOf(d.fk, vacated)) {
      var row := Leaves(w, d, vacated, Current(w, work.after, path));
      ReferrerAlters(w, plan, d, vacated, work, path);
      AlterHolds(w, plan, work, later, path, row, owed);
      AlterIsNearer(w, plan, work, later, path, row);
    } else {
      NotReset(w, d, vacated);
      PutsOff(w, plan, d, vacated, work, path, owed);
    }
  }

  lemma NotReset(w: World, d: Declared, vacated: Vacated)
    requires NoResets(w) && IsDeclared(w, d) && !Rewrites(ActionOf(d.fk, vacated))
    ensures ActionOf(d.fk, vacated) in {Restrict, NoAction}
  {
  }

  lemma NotNamedIsLeft(w: World, d: Declared, vacated: Vacated, work: Work, path: Path)
    ensures !NamesNow(w, work.after, d, vacated.key, path) ==>
      ResolveReferrer(w, d.schema, d.fk, vacated, work, path) == work
  {
    hide Names;
  }

  lemma SameWork(w: World, plan: map<Path, Option<Row>>, work: Work)
    ensures Nearer(w, plan, work, work)
  {
  }

  lemma {:induction false} PutsOff(
    w: World, plan: map<Path, Option<Row>>, d: Declared, vacated: Vacated, work: Work, path: Path, owed: Owed)
    requires GivenUp(w, plan, d.fk, vacated) && Holding(w, plan, work, owed)
    requires NamesNow(w, work.after, d, vacated.key, path) && ActionOf(d.fk, vacated) in {Restrict, NoAction}
    ensures var later := ResolveReferrer(w, d.schema, d.fk, vacated, work, path);
      Holding(w, plan, later, owed) && Nearer(w, plan, work, later) && DoneWith(w, plan, later, d, vacated.key, path)
  {
    var later := ResolveReferrer(w, d.schema, d.fk, vacated, work, path);
    assert later == work.(refusals := later.refusals, deferred := later.deferred);
    assert work.refusals <= later.refusals && work.deferred <= later.deferred;
    if ActionOf(d.fk, vacated) == NoAction {
      var check := Deferred(path, d.fk.name, vacated);
      assert later.deferred == work.deferred + [check] && check in later.deferred;
      assert Compares(w, d.fk, vacated.columns);
      assert IsDeferred(w, later, d, vacated.key, path);
    }
    hide ResolveReferrer, Holding, Nearer, Concerns, NamesNow, Given, Carries;
    OnlyPutOff(w, plan, work, later, owed);
  }

  lemma {:induction false} OnlyPutOff(w: World, plan: map<Path, Option<Row>>, work: Work, later: Work, owed: Owed)
    requires Holding(w, plan, work, owed)
    requires later == work.(refusals := later.refusals, deferred := later.deferred)
    requires work.refusals <= later.refusals && work.deferred <= later.deferred
    ensures Holding(w, plan, later, owed) && Nearer(w, plan, work, later)
  {
    hide NamesNow, HeldNow, Introduced, Based, AtHome, Given, IsDeclared;
    assert forall check | check in work.deferred :: check in later.deferred;
    forall d, key | IsDeclared(w, d) && !Introduced(w, plan, d, key) && (d, key) !in owed
      ensures Resolved(w, later, d, key)
    {
      assert Resolved(w, work, d, key);
      if Handled(w, work, d, key) && later.refusals == [] {
        forall path | NamesNow(w, later.after, d, key, path) ensures IsDeferred(w, later, d, key, path) {
          assert IsDeferred(w, work, d, key, path);
        }
      }
    }
  }

  // ----- resolving a vacated key ---------------------------------------------------------------------------

  lemma {:induction false} ReferrersHold(
    w: World, plan: map<Path, Option<Row>>, d: Declared, vacated: Vacated, work: Work, paths: seq<Path>, owed: Owed)
    requires WellDeclared(w) && NoResets(w) && IsDeclared(w, d) && GivenUp(w, plan, d.fk, vacated)
    requires Holding(w, plan, work, owed)
    ensures var later := ResolveReferrers(w, d.schema, d.fk, vacated, work, paths);
      && Holding(w, plan, later, owed) && Nearer(w, plan, work, later)
      && forall p | p in paths :: DoneWith(w, plan, later, d, vacated.key, p)
    decreases |paths|
  {
    hide WellDeclared, NoResets, IsDeclared, Holding, Nearer, DoneWith, ResolveReferrer, GivenUp;
    if paths == [] {
      SameWork(w, plan, work);
    } else {
      var first := ResolveReferrer(w, d.schema, d.fk, vacated, work, paths[0]);
      var later := ResolveReferrers(w, d.schema, d.fk, vacated, first, paths[1..]);
      ReferrerHolds(w, plan, d, vacated, work, paths[0], owed);
      ReferrersHold(w, plan, d, vacated, first, paths[1..], owed);
      NearerThrough(w, plan, work, first, later);
      DoneWithStays(w, plan, first, later, d, vacated.key, paths[0]);
      assert forall p | p in paths :: p == paths[0] || p in paths[1..];
    }
  }

  lemma AllDoneWith(w: World, plan: map<Path, Option<Row>>, d: Declared, key: string, work: Work, later: Work)
    requires IsDeclared(w, d) && Nearer(w, plan, work, later) && !Given(w, plan, d.fk, key)
    requires forall p | p in Referrers(w, work.after, RuleOf(d), key) :: DoneWith(w, plan, later, d, key, p)
    ensures Handled(w, later, d, key)
  {
    hide NamesNow, Referrers, Given, IsDeclared;
    forall path | NamesNow(w, later.after, d, key, path) && later.refusals == []
      ensures IsDeferred(w, later, d, key, path)
    {
      NamersRefer(w, work.after, d, key, path);
    }
  }

  lemma OneResolved(w: World, plan: map<Path, Option<Row>>, work: Work, owed: Owed, d: Declared, key: string)
    requires Holding(w, plan, work, owed) && (Introduced(w, plan, d, key) || Resolved(w, work, d, key))
    ensures Holding(w, plan, work, owed - iset{(d, key)})
  {
    hide Resolved, Introduced, Stands;
  }

  /** After one foreign key's references to the vacated key are resolved, that key is settled for it. */
  lemma {:induction false} ForeignHolds(
    w: World, plan: map<Path, Option<Row>>, d: Declared, vacated: Vacated, work: Work, owed: Owed)
    requires WellDeclared(w) && NoResets(w) && AllCoherent(w) && IsDeclared(w, d) && Holding(w, plan, work, owed)
    requires Concerns(w, d.fk, vacated) ==> Carries(w, plan, d.fk, vacated)
    ensures Holding(w, plan, ResolveForeign(w, d.schema, d.fk, vacated, work),
      owed - if Concerns(w, d.fk, vacated) then iset{(d, vacated.key)} else iset{})
  {
    hide WellDeclared, NoResets, Holding, DoneWith, Nearer, StillHeld, HeldNow, Handled, NamesNow, Referrers, Concerns,
      ResolveReferrers, Given, WrittenIn, HeldBefore, Awaited, Carries;
    var later := ResolveForeign(w, d.schema, d.fk, vacated, work);
    if Concerns(w, d.fk, vacated) {
      ConcernsCompare(w, d.fk, vacated);
      if StillHeld(w, work.after, vacated.key, vacated.columns, TargetTables(w.schemas, d.fk.to)) {
        StillHeldIsHeld(w, d.fk, work.after, vacated.key, vacated.columns);
      } else {
        ReferrersHold(w, plan, d, vacated, work, Referrers(w, work.after, RuleOf(d), vacated.key), owed);
        if !Given(w, plan, d.fk, vacated.key) { AllDoneWith(w, plan, d, vacated.key, work, later); }
      }
      OneResolved(w, plan, later, owed, d, vacated.key);
    } else {
      assert owed - iset{} == owed;
    }
  }

  lemma {:induction false} ResolveHolds(
    w: World, plan: map<Path, Option<Row>>, vacated: Vacated, work: Work, foreigns: seq<Declared>, owed: Owed)
    requires WellDeclared(w) && NoResets(w) && AllCoherent(w) && Holding(w, plan, work, owed)
    requires forall d | d in foreigns :: IsDeclared(w, d)
    requires forall d | d in foreigns && Concerns(w, d.fk, vacated) :: Carries(w, plan, d.fk, vacated)
    ensures Holding(w, plan, Resolve(w, vacated, work, foreigns), owed - Discharged(w, foreigns, vacated))
    decreases |foreigns|
  {
    hide WellDeclared, Holding, ResolveForeign, NoResets, AllCoherent, Concerns, Carries, IsDeclared;
    if foreigns == [] {
      assert owed - Discharged(w, foreigns, vacated) == owed;
    } else {
      var d := foreigns[0];
      var now := if Concerns(w, d.fk, vacated) then iset{(d, vacated.key)} else iset{};
      ForeignHolds(w, plan, d, vacated, work, owed);
      ResolveHolds(w, plan, vacated, ResolveForeign(w, d.schema, d.fk, vacated, work), foreigns[1..], owed - now);
      assert owed - now - Discharged(w, foreigns[1..], vacated) == owed - Discharged(w, foreigns, vacated);
    }
  }

  // ----- examining a row -----------------------------------------------------------------------------------

  /** The keys a row held for foreign keys and no longer holds, by the columns still to be examined. */
  ghost function OwedFor(w: World, path: Path, next: Option<Row>, keys: seq<seq<string>>): Owed {
    iset d, key | (d, key) in OwedBy(w, path, keys) && !KeepsKey(w, d, path, next, key) :: (d, key)
  }

  ghost predicate KeepsKey(w: World, d: Declared, path: Path, next: Option<Row>, key: string) {
    && path in w.rows && SchemaOf(w.schemas, w.rows[path].table).Some? && next.Some?
    && KeyOf(next.value, SchemaOf(w.schemas, w.rows[path].table).value, ComparedBy(w, d.fk, path)) == Some(key)
  }

  lemma HoldingMore(w: World, plan: map<Path, Option<Row>>, work: Work, owed: Owed, more: Owed)
    requires Holding(w, plan, work, owed) && owed <= more
    ensures Holding(w, plan, work, more)
  {
    hide Resolved, Introduced, Stands;
  }

  lemma CountedHolds(w: World, plan: map<Path, Option<Row>>, work: Work, later: Work, owed: Owed)
    requires Holding(w, plan, work, owed) && later == work.(events := later.events, failed := later.failed)
    ensures Holding(w, plan, later, owed)
  {
    hide HeldNow, NamesNow, Introduced, Based, AtHome;
    forall d, key | IsDeclared(w, d) && !Introduced(w, plan, d, key) && (d, key) !in owed
      ensures Resolved(w, later, d, key)
    {
      assert Resolved(w, work, d, key);
      assert forall path :: IsDeferred(w, work, d, key, path) ==> IsDeferred(w, later, d, key, path);
    }
  }

  /** What replaces a row that gave up a key is a row the plan wrote. */
  ghost predicate Replaces(w: World, plan: map<Path, Option<Row>>, path: Path, next: Option<Row>) {
    next.Some? ==>
      && path in w.rows && next.value.table == w.rows[path].table
      && (next.value.held == w.rows[path].held || PlannedLike(plan, next.value))
  }

  ghost predicate PlannedLike(plan: map<Path, Option<Row>>, row: Row) {
    exists p | p in plan && plan[p].Some? :: plan[p].value.table == row.table && plan[p].value.held == row.held
  }

  lemma {:induction false} ReplacementCarries(
    w: World, plan: map<Path, Option<Row>>, d: Declared, path: Path, next: Option<Row>, columns: seq<string>,
      key: string)
    requires Prepared(w) && IsDeclared(w, d) && path in w.rows && Replaces(w, plan, path, next)
    requires SchemaOf(w.schemas, w.rows[path].table).Some?
    requires var schema := SchemaOf(w.schemas, w.rows[path].table).value;
      && columns in schema.keys && KeyOf(w.rows[path], schema, columns) == Some(key)
      && (next.Some? ==> KeyOf(next.value, schema, columns) != Some(key))
    requires Concerns(w, d.fk, Vacated(w.rows[path].table, columns, key, next, path))
    ensures Carries(w, plan, d.fk, Vacated(w.rows[path].table, columns, key, next, path))
  {
    var vacated := Vacated(w.rows[path].table, columns, key, next, path);
    assert Coherent(w, d.fk);
    assert Compares(w, d.fk, columns);
    hide Constraint, ConstraintName;
    if next.Some? && Carried(w, vacated).Some? {
      var p :| p in plan && plan[p].Some? && plan[p].value.table == next.value.table
        && plan[p].value.held == next.value.held;
      assert GivenAt(w, plan, d.fk, Carried(w, vacated).value, p);
    }
  }

  /** What validating the schemas establishes, of foreign keys that compare under one constraint and reset nothing. */
  ghost predicate Prepared(w: World) {
    WellDeclared(w) && AllCoherent(w) && NoResets(w)
  }

  lemma PreparedParts(w: World)
    requires Prepared(w)
    ensures WellDeclared(w) && AllCoherent(w) && NoResets(w) && Ready(w)
  {
  }

  lemma {:induction false} ExamineKeyHolds(
    w: World, plan: map<Path, Option<Row>>, path: Path, next: Option<Row>, columns: seq<string>,
    rest: seq<seq<string>>, work: Work)
    requires Prepared(w) && path in w.rows && SchemaOf(w.schemas, w.rows[path].table).Some?
    requires Replaces(w, plan, path, next)
    requires !work.failed && Holding(w, plan, work, OwedFor(w, path, next, [columns] + rest))
    requires columns in SchemaOf(w.schemas, w.rows[path].table).value.keys
    ensures var schema := SchemaOf(w.schemas, w.rows[path].table).value;
      var later := ExamineKey(w, schema, w.rows[path], next, path, columns, work);
      later.failed || Holding(w, plan, later, OwedFor(w, path, next, rest))
  {
    hide Resolve, KeyOf, Holding, Prepared, HoldsFor, IsDeclared, ConstraintName, WellDeclared, AllCoherent, NoResets,
      Carries, Concerns, Replaces, Ready;
    PreparedParts(w);
    var schema := SchemaOf(w.schemas, w.rows[path].table).value;
    var key := KeyOf(w.rows[path], schema, columns);
    var owed, less := OwedFor(w, path, next, [columns] + rest), OwedFor(w, path, next, rest);
    if key.None? || (next.Some? && KeyOf(next.value, schema, columns) == key) {
      forall d, k | (d, k) in owed ensures (d, k) in less {
        HeldIsKey(w, d, path, k);
      }
      HoldingMore(w, plan, work, owed, less);
    } else {
      var counted := work.(events := work.events + 1);
      var vacated := Vacated(w.rows[path].table, columns, key.value, next, path);
      CountedHolds(w, plan, work, counted, owed);
      AllDeclared(w);
      forall d | d in Foreigns(w) && Concerns(w, d.fk, vacated) ensures Carries(w, plan, d.fk, vacated) {
        ReplacementCarries(w, plan, d, path, next, columns, key.value);
      }
      ResolveHolds(w, plan, vacated, counted, Foreigns(w), owed);
      forall d, k | (d, k) in owed - Discharged(w, Foreigns(w), vacated) ensures (d, k) in less {
        HeldIsKey(w, d, path, k);
        if ComparedBy(w, d.fk, path) == columns {
          ComparedConcerns(w, d.fk, path, k, vacated);
          ForeignsHold(w, d);
        }
      }
      HoldingMore(w, plan, Resolve(w, vacated, counted, Foreigns(w)), owed - Discharged(w, Foreigns(w), vacated), less);
    }
  }

  lemma {:induction false} ExamineKeysHold(
    w: World, plan: map<Path, Option<Row>>, path: Path, next: Option<Row>, keys: seq<seq<string>>, work: Work)
    requires Prepared(w) && path in w.rows && SchemaOf(w.schemas, w.rows[path].table).Some?
    requires Replaces(w, plan, path, next)
    requires work.failed || Holding(w, plan, work, OwedFor(w, path, next, keys))
    requires forall columns | columns in keys :: columns in SchemaOf(w.schemas, w.rows[path].table).value.keys
    ensures var schema := SchemaOf(w.schemas, w.rows[path].table).value;
      var later := ExamineKeys(w, schema, w.rows[path], next, path, keys, work);
      later.failed || Holding(w, plan, later, iset{})
    decreases |keys|
  {
    hide Holding, Prepared, HoldsFor, ExamineKey, Replaces;
    var schema := SchemaOf(w.schemas, w.rows[path].table).value;
    if keys == [] {
      assert OwedFor(w, path, next, keys) == iset{};
    } else {
      var first := ExamineKey(w, schema, w.rows[path], next, path, keys[0], work);
      if work.failed {
        FailedStays(w, schema, w.rows[path], next, path, keys[0], work);
      } else {
        assert [keys[0]] + keys[1..] == keys;
        ExamineKeyHolds(w, plan, path, next, keys[0], keys[1..], work);
      }
      ExamineKeysHold(w, plan, path, next, keys[1..], first);
    }
  }

  // ----- one step, and the run -----------------------------------------------------------------------------

  /** Taking a row up leaves owed only what it held and its next self does not. */
  lemma {:induction false} TakesUp(
    w: World, plan: map<Path, Option<Row>>, work: Work, rest: Work, path: Path, next: Option<Row>,
      keys: seq<seq<string>>)
    requires Prepared(w) && Holding(w, plan, work, iset{}) && work.pending != [] && work.pending[0].0 == Some(path)
    requires path in w.rows && rest == work.(pending := work.pending[1..], before := Remembered(w, work.before, path))
    requires next == if work.pending[0].1.Some? then Current(w, work.after, work.pending[0].1.value) else None
    requires Replaces(w, plan, path, next)
    requires SchemaOf(w.schemas, w.rows[path].table).Some? ==>
      keys == SchemaOf(w.schemas, w.rows[path].table).value.keys
    ensures Holding(w, plan, rest, OwedFor(w, path, next, keys))
  {
    var owed := OwedFor(w, path, next, keys);
    RestStands(w, plan, work, rest, path);
    hide Stands, NamesNow, HoldsFor, Prepared, Introduced, HeldNow, Replaces, OwedBy, KeepsKey;
    forall d, key | IsDeclared(w, d) && !Introduced(w, plan, d, key) && (d, key) !in owed
      ensures Resolved(w, rest, d, key)
    {
      assert Resolved(w, work, d, key);
      assert forall p :: IsDeferred(w, work, d, key, p) ==> IsDeferred(w, rest, d, key, p);
      if Awaited(w, work, d.fk, key) {
        var p, to :| (Some(p), to) in work.pending && HoldsFor(w, d.fk, key, p);
        if (Some(p), to) in work.pending[1..] {
          assert (Some(p), to) in rest.pending;
        } else {
          assert p == path;
          PreparedParts(w);
          HeldIsKey(w, d, path, key);
          IsOwed(w, d, path, keys, key);
          KeptIsHeld(w, plan, work, d, path, next, key);
        }
      }
    }
  }

  lemma IsOwed(w: World, d: Declared, path: Path, keys: seq<seq<string>>, key: string)
    requires IsDeclared(w, d) && HoldsFor(w, d.fk, key, path) && ComparedBy(w, d.fk, path) in keys
    ensures (d, key) in OwedBy(w, path, keys)
  {
  }

  /** A key a row's next self keeps is held. */
  lemma {:induction false} KeptIsHeld(
    w: World, plan: map<Path, Option<Row>>, work: Work, d: Declared, path: Path, next: Option<Row>, key: string)
    requires Prepared(w) && IsDeclared(w, d) && HoldsFor(w, d.fk, key, path) && Replaces(w, plan, path, next)
    requires work.pending != []
    requires next == if work.pending[0].1.Some? then Current(w, work.after, work.pending[0].1.value) else None
    ensures KeepsKey(w, d, path, next, key) ==> HeldNow(w, work.after, d.fk, key)
  {
    hide ConstraintName, HeldUnder, NoResets;
    if KeepsKey(w, d, path, next, key) {
      assert Coherent(w, d.fk) && DeclaredWell(w, d);
      var columns := ComparedBy(w, d.fk, path);
      assert Compares(w, d.fk, columns);
      hide Constraint, TargetsOf;
      var table, constraint := w.rows[path].table, Constraint(w, d.fk);
      HeldMeans(w, work.after, table, constraint, key);
      assert HoldsNow(w, work.after, table, constraint, key, work.pending[0].1.value);
    }
  }

  lemma RestStands(w: World, plan: map<Path, Option<Row>>, work: Work, rest: Work, path: Path)
    requires Stands(w, plan, work) && work.pending != [] && path in w.rows
    requires rest == work.(pending := work.pending[1..], before := Remembered(w, work.before, path))
    ensures Stands(w, plan, rest)
  {
    hide Based, AtHome;
    assert forall e | e in rest.pending :: e in work.pending;
  }

  lemma {:induction false} NextReplaces(w: World, plan: map<Path, Option<Row>>, work: Work, path: Path)
    requires Stands(w, plan, work) && InPlace(w, plan) && work.pending != [] && work.pending[0].0 == Some(path)
    requires path in w.rows
    ensures var to := work.pending[0].1;
      Replaces(w, plan, path, if to.Some? then Current(w, work.after, to.value) else None)
  {
    var e := work.pending[0];
    assert e in work.pending;
    if e.1.Some? && Current(w, work.after, e.1.value).Some? {
      CurrentIsBased(w, plan, work, e.1.value);
    }
  }

  /** A row that was not there to begin with gave up nothing. */
  lemma {:induction false} NotThere(w: World, plan: map<Path, Option<Row>>, work: Work, rest: Work)
    requires Holding(w, plan, work, iset{}) && work.pending != [] && rest == work.(pending := work.pending[1..])
    requires work.pending[0].0.None? || work.pending[0].0.value !in w.rows
    ensures Holding(w, plan, rest, iset{})
  {
    hide NamesNow, Introduced, HeldNow, Based, AtHome, Constraint, TargetsOf;
    assert forall e | e in rest.pending :: e in work.pending;
    forall d, key | IsDeclared(w, d) && !Introduced(w, plan, d, key) ensures Resolved(w, rest, d, key) {
      assert (d, key) !in iset{};
      assert Resolved(w, work, d, key);
      assert forall p :: IsDeferred(w, work, d, key, p) ==> IsDeferred(w, rest, d, key, p);
      if Awaited(w, work, d.fk, key) {
        var p, to :| (Some(p), to) in work.pending && HoldsFor(w, d.fk, key, p);
        assert (Some(p), to) in rest.pending;
      }
    }
  }

  lemma OriginalIs(w: World, plan: map<Path, Option<Row>>, work: Work, path: Path)
    requires Stands(w, plan, work)
    ensures Original(w, work.before, path) == if path in w.rows then Some(w.rows[path]) else None
  {
  }

  lemma {:induction false} StepHolds(w: World, plan: map<Path, Option<Row>>, work: Work)
    requires Prepared(w) && InPlace(w, plan) && work.pending != [] && Holding(w, plan, work, iset{})
    ensures Step(w, work).failed || Holding(w, plan, Step(w, work), iset{})
  {
    hide Prepared, InPlace, Stands, Resolves, ExamineKeys, Current, Original, OwedFor, Remembered, Replaces;
    var (from, to) := work.pending[0];
    if from.None? || from.value !in w.rows {
      if from.Some? { OriginalIs(w, plan, work, from.value); }
      NotThere(w, plan, work, work.(pending := work.pending[1..]));
    } else {
      var path := from.value;
      OriginalIs(w, plan, work, path);
      var schema := SchemaOf(w.schemas, w.rows[path].table);
      if schema.Some? {
        var next := if to.Some? then Current(w, work.after, to.value) else None;
        var rest := work.(pending := work.pending[1..], before := Remembered(w, work.before, path));
        NextReplaces(w, plan, work, path);
        TakesUp(w, plan, work, rest, path, next, schema.value.keys);
        ExamineKeysHold(w, plan, path, next, schema.value.keys, rest);
      }
    }
  }

  lemma {:induction false} RunHolds(w: World, plan: map<Path, Option<Row>>, work: Work)
    requires Prepared(w) && InPlace(w, plan) && Counting(work) && Holding(w, plan, work, iset{})
    ensures var end := Run(w, work); end.failed || (Holding(w, plan, end, iset{}) && end.pending == [])
    decreases MAX_EVENTS + 1 - work.events, |work.pending|
  {
    hide Holding, Prepared, InPlace, Step;
    if !work.failed && work.pending != [] {
      StepAdvances(w, work);
      StepHolds(w, plan, work);
      if Step(w, work).failed {
        assert Run(w, Step(w, work)) == Step(w, work);
      } else {
        RunHolds(w, plan, Step(w, work));
      }
    }
  }

  // ----- the plan begun --------------------------------------------------------------------------------------

  ghost predicate Fills(changes: seq<Change>, p: Path, row: Row) {
    exists c | c in changes :: c.after == Some((p, row))
  }

  lemma {:induction false} BeginIs(w: World, changes: seq<Change>, all: seq<Change>, places: Places)
    requires WellPlanned(w, all, places) && forall c | c in changes :: c in all
    ensures var begun := Begin(changes);
      && (forall p | p in begun.before :: p in w.rows && begun.before[p] == w.rows[p])
      && (forall c | c in changes :: (PathOf(c.before), PathOf(c.after)) in begun.pending)
      && (forall e | e in begun.pending :: exists c | c in changes :: e == (PathOf(c.before), PathOf(c.after)))
      && (forall c | c in changes && c.after.Some? :: c.after.value.0 in begun.after)
      && (forall p | p in begun.after && begun.after[p].Some? :: Fills(changes, p, begun.after[p].value))
      && (forall p | p in begun.after && p in w.rows :: p in PlanPaths(all))
  {
    hide WellChanged;
    if changes != [] {
      var front, last := changes[..|changes| - 1], changes[|changes| - 1];
      assert last in changes && forall c | c in front :: c in changes;
      BeginIs(w, front, all, places);
      assert last in all && WellChanged(w, all, places, last);
      BeganOne(w, changes, all, places);
    }
  }

  lemma BeganOne(w: World, changes: seq<Change>, all: seq<Change>, places: Places)
    requires changes != [] && changes[|changes| - 1] in all && WellChanged(w, all, places, changes[|changes| - 1])
    requires var front := changes[..|changes| - 1];
      var begun := Begin(front);
      && (forall p | p in begun.before :: p in w.rows && begun.before[p] == w.rows[p])
      && (forall c | c in front :: (PathOf(c.before), PathOf(c.after)) in begun.pending)
      && (forall e | e in begun.pending :: exists c | c in front :: e == (PathOf(c.before), PathOf(c.after)))
      && (forall c | c in front && c.after.Some? :: c.after.value.0 in begun.after)
      && (forall p | p in begun.after && begun.after[p].Some? :: Fills(front, p, begun.after[p].value))
      && (forall p | p in begun.after && p in w.rows :: p in PlanPaths(all))
    ensures var begun := Begin(changes);
      && (forall p | p in begun.before :: p in w.rows && begun.before[p] == w.rows[p])
      && (forall c | c in changes :: (PathOf(c.before), PathOf(c.after)) in begun.pending)
      && (forall e | e in begun.pending :: exists c | c in changes :: e == (PathOf(c.before), PathOf(c.after)))
      && (forall c | c in changes && c.after.Some? :: c.after.value.0 in begun.after)
      && (forall p | p in begun.after && begun.after[p].Some? :: Fills(changes, p, begun.after[p].value))
      && (forall p | p in begun.after && p in w.rows :: p in PlanPaths(all))
  {
    var front, last := changes[..|changes| - 1], changes[|changes| - 1];
    var begun := Begin(changes);
    assert forall c | c in changes :: c in front || c == last;
    forall p | p in begun.after && begun.after[p].Some? ensures Fills(changes, p, begun.after[p].value) {
      if last.after.Some? && p == last.after.value.0 {
        assert last.after == Some((p, begun.after[p].value));
      } else {
        assert p in Begin(front).after && Begin(front).after[p] == begun.after[p];
        assert Fills(front, p, begun.after[p].value);
        var c :| c in front && c.after == Some((p, begun.after[p].value));
        assert c in changes;
      }
    }
    forall e | e in begun.pending ensures exists c | c in changes :: e == (PathOf(c.before), PathOf(c.after)) {
      if e in Begin(front).pending {
        var c :| c in front && e == (PathOf(c.before), PathOf(c.after));
        assert c in changes;
      } else {
        assert last in changes;
      }
    }
  }

  lemma {:induction false} BeginHolds(w: World, changes: seq<Change>, places: Places)
    requires WellPlanned(w, changes, places) && NoDangling(w, map[])
    ensures InPlace(w, Begin(changes).after) && Holding(w, Begin(changes).after, Begin(changes), iset{})
  {
    var begun := Begin(changes);
    var plan := begun.after;
    BeginIs(w, changes, changes, places);
    BeginStands(w, changes, places);
    hide Stands, Given, NoDangling, WellPlanned, NamesNow;
    forall d, key | IsDeclared(w, d) && !Introduced(w, plan, d, key) ensures Resolved(w, begun, d, key) {
      assert (d, key) !in iset{};
      if HeldBefore(w, d.fk, key) {
        var q :| HoldsFor(w, d.fk, key, q);
        HeldFromTheStart(w, changes, d, key, q);
      } else {
        forall path ensures !NamesNow(w, plan, d, key, path) { NoneNames(w, plan, d, key, path); }
      }
    }
  }

  lemma HeldFromTheStart(w: World, changes: seq<Change>, d: Declared, key: string, q: Path)
    requires HoldsFor(w, d.fk, key, q)
    requires forall p | p in Begin(changes).after && p in w.rows :: p in PlanPaths(changes)
    requires forall c | c in changes :: (PathOf(c.before), PathOf(c.after)) in Begin(changes).pending
    ensures HeldNow(w, Begin(changes).after, d.fk, key) || Awaited(w, Begin(changes), d.fk, key)
  {
    hide Constraint, TargetsOf, Begin;
    if q in Begin(changes).after {
      var c :| c in changes && c.before.Some? && c.before.value.0 == q;
      assert (Some(q), PathOf(c.after)) in Begin(changes).pending;
    } else {
      assert HeldUnder(w, Begin(changes).after, w.rows[q].table, Constraint(w, d.fk), key);
    }
  }

  lemma NoneNames(w: World, plan: map<Path, Option<Row>>, d: Declared, key: string, path: Path)
    requires NoDangling(w, map[]) && IsDeclared(w, d) && !Introduced(w, plan, d, key) && !HeldBefore(w, d.fk, key)
    ensures !NamesNow(w, plan, d, key, path)
  {
    hide Given, Names, IsDeclared, Constraint, TargetsOf;
    if path !in plan {
      assert NamesNow(w, plan, d, key, path) == NamesNow(w, map[], d, key, path);
      NoneHeld(w, d.fk, key);
    }
  }

  lemma NoneHeld(w: World, fk: ForeignKey, key: string)
    requires !HeldBefore(w, fk, key)
    ensures !HeldNow(w, map[], fk, key)
  {
    hide Constraint, TargetsOf;
    forall t | t in TargetsOf(w, fk) ensures !HeldUnder(w, map[], t, Constraint(w, fk), key) {
      forall p | p in w.rows ensures !HeldBy(w.rows[p], t, Constraint(w, fk), key) {
        assert !HoldsFor(w, fk, key, p);
      }
    }
  }

  lemma {:induction false} BeginStands(w: World, changes: seq<Change>, places: Places)
    requires WellPlanned(w, changes, places)
    ensures InPlace(w, Begin(changes).after) && Stands(w, Begin(changes).after, Begin(changes))
  {
    BeginIs(w, changes, changes, places);
    hide Begin, PlanPaths;
    var begun := Begin(changes);
    var plan := begun.after;
    forall p | p in plan && plan[p].Some? ensures plan[p].value.table == places(p) {
      var c :| c in changes && c.after == Some((p, plan[p].value));
      assert WellChanged(w, changes, places, c);
    }
    forall e | e in begun.pending ensures e.1 == None || (e.1.value in plan && AtHome(w, plan, e)) {
      var c :| c in changes && e == (PathOf(c.before), PathOf(c.after));
      assert WellChanged(w, changes, places, c);
    }
  }

  // ----- the end ---------------------------------------------------------------------------------------------

  /** Every reference to a key the plan brought in names a row. */
  ghost predicate IntroducedHold(w: World, plan: map<Path, Option<Row>>, after: map<Path, Option<Row>>) {
    forall d, path, key | IsDeclared(w, d) && Introduced(w, plan, d, key) && NamesNow(w, after, d, key, path) ::
      HeldNow(w, after, d.fk, key)
  }

  lemma {:induction false} EndIsNoDangling(w: World, plan: map<Path, Option<Row>>, work: Work)
    requires Prepared(w) && Holding(w, plan, work, iset{}) && work.pending == [] && work.refusals == []
    requires forall check | check in work.deferred :: !Forbids(w, work, check)
    ensures NoDangling(w, work.after) <==> IntroducedHold(w, plan, work.after)
  {
    hide HeldNow, Constraint, TargetsOf, Stands, Forbids, Introduced, NamesNow;
    PreparedParts(w);
    forall d, path, key | IsDeclared(w, d) && !Introduced(w, plan, d, key) && NamesNow(w, work.after, d, key, path)
      ensures HeldNow(w, work.after, d.fk, key)
    {
      assert (d, key) !in iset{};
      assert Resolved(w, work, d, key);
      if !HeldNow(w, work.after, d.fk, key) {
        assert IsDeferred(w, work, d, key, path);
        var check :| check in work.deferred
          && check.path == path && check.foreignKey == d.fk.name && check.vacated.key == key
          && Compares(w, d.fk, check.vacated.columns);
        DeferredForbids(w, work, d, check);
      }
    }
  }

  /**
   From rows whose every reference names a row, any accepted plan leaves every
   reference naming a row, but for references to keys the plan itself brought
   in: so exactly when those hold too.
   */
  lemma {:induction false} OnlyIntroducedCanDangle(w: World, changes: seq<Change>, places: Places)
    requires Prepared(w) && WellPlanned(w, changes, places) && NoDangling(w, map[])
    ensures var expansion := Expanded(w, changes);
      expansion.Accepted? ==>
        (NoDangling(w, expansion.after) <==> IntroducedHold(w, Begin(changes).after, expansion.after))
  {
    hide NoDangling, Prepared, Holding, InPlace, Forbids, Step, WellPlanned, IntroducedHold;
    BeginHolds(w, changes, places);
    var end := Run(w, Begin(changes));
    RunHolds(w, Begin(changes).after, Begin(changes));
    if Expanded(w, changes).Accepted? { EndIsNoDangling(w, Begin(changes).after, end); }
  }

  /** A key the plan gave is held as long as a row it was given to stays. */
  lemma {:induction false} GivenIsHeld(
    w: World, plan: map<Path, Option<Row>>, work: Work, fk: ForeignKey, key: string, p: Path)
    requires Stands(w, plan, work) && p in plan && GivenAt(w, plan, fk, key, p)
    requires p in work.after && work.after[p].Some?
    ensures HeldNow(w, work.after, fk, key)
  {
    hide Constraint, TargetsOf, AtHome;
    assert Based(w, plan, p, work.after[p].value);
    assert HeldUnder(w, work.after, plan[p].value.table, Constraint(w, fk), key);
  }

  /** The plan writes references only to keys some row held, or that it gives to one. */
  ghost predicate WritesSoundly(w: World, plan: map<Path, Option<Row>>) {
    forall d, key | IsDeclared(w, d) && WrittenIn(w, plan, d, key) ::
      HeldBefore(w, d.fk, key) || Given(w, plan, d.fk, key)
  }

  ghost predicate Targeted(w: World, table: string) {
    exists d :: IsDeclared(w, d) && table in TargetsOf(w, d.fk)
  }

  /** Every row the plan wrote that some foreign key could name is still there. */
  ghost predicate NamedStay(w: World, plan: map<Path, Option<Row>>, after: map<Path, Option<Row>>) {
    forall p | p in plan && plan[p].Some? && Targeted(w, plan[p].value.table) :: p in after && after[p].Some?
  }

  /**
   So a plan whose own references are sound is safe whenever no cascade takes
   away a row it wrote that could be named.
   */
  lemma {:induction false} KeptPlansAreSafe(w: World, changes: seq<Change>, places: Places)
    requires Prepared(w) && WellPlanned(w, changes, places) && NoDangling(w, map[])
    requires WritesSoundly(w, Begin(changes).after)
    ensures var expansion, plan := Expanded(w, changes), Begin(changes).after;
      expansion.Accepted? && NamedStay(w, plan, expansion.after) ==> NoDangling(w, expansion.after)
  {
    hide NoDangling, Prepared, Resolves, InPlace, Forbids, Step, WellPlanned, Stands, GivenAt, HeldBefore, WrittenIn,
      IsDeclared, HeldNow, NamesNow;
    OnlyIntroducedCanDangle(w, changes, places);
    BeginHolds(w, changes, places);
    var end := Run(w, Begin(changes));
    RunHolds(w, Begin(changes).after, Begin(changes));
    var expansion, plan := Expanded(w, changes), Begin(changes).after;
    if expansion.Accepted? && NamedStay(w, plan, expansion.after) {
      forall d, path, key | IsDeclared(w, d) && Introduced(w, plan, d, key)
        && NamesNow(w, expansion.after, d, key, path)
        ensures HeldNow(w, expansion.after, d.fk, key)
      {
        assert Given(w, plan, d.fk, key);
        var p :| p in plan && GivenAt(w, plan, d.fk, key, p);
        GivenIsPlanned(w, plan, d, key, p);
        GivenIsHeld(w, plan, end, d.fk, key, p);
      }
    }
  }

  lemma GivenIsPlanned(w: World, plan: map<Path, Option<Row>>, d: Declared, key: string, p: Path)
    requires IsDeclared(w, d) && p in plan && GivenAt(w, plan, d.fk, key, p)
    ensures plan[p].Some? && Targeted(w, plan[p].value.table)
  {
  }

  // ----- which planned rows the plan keeps -----------------------------------------------------------------

  /** A change takes its row from a path that an earlier change filled. */
  ghost predicate Unseats(changes: seq<Change>, i: nat, j: nat)
    requires i < j < |changes|
  {
    var at := PathOf(changes[i].after);
    at.Some? && PathOf(changes[j].before) == at && PathOf(changes[j].after) != at
  }

  ghost predicate FillApart(changes: seq<Change>) {
    forall i, j | 0 <= i < j < |changes| && changes[i].after.Some? ::
      PathOf(changes[i].after) != PathOf(changes[j].after)
  }

  ghost predicate IsKept(plan: map<Path, Option<Row>>, c: Change)
    requires c.after.Some?
  {
    c.after.value.0 in plan && plan[c.after.value.0] == Some(c.after.value.1)
  }

  lemma {:induction false} KeptThrough(changes: seq<Change>, i: nat, n: nat)
    requires i < n <= |changes| && changes[i].after.Some? && FillApart(changes)
    ensures IsKept(Begin(changes[..n]).after, changes[i]) <==> forall j | i < j < n :: !Unseats(changes, i, j)
  {
    var k := n - 1;
    assert changes[..n][..k] == changes[..k] && changes[..n][k] == changes[k];
    assert Begin(changes[..n]) == Begun(Begin(changes[..k]), changes[k]);
    if i < k {
      KeptThrough(changes, i, k);
      KeptByOne(Begin(changes[..k]), changes, i, k);
    }
  }

  lemma KeptByOne(work: Work, changes: seq<Change>, i: nat, k: nat)
    requires i < k < |changes| && changes[i].after.Some? && FillApart(changes)
    ensures IsKept(Begun(work, changes[k]).after, changes[i]) <==>
      IsKept(work.after, changes[i]) && !Unseats(changes, i, k)
  {
    assert PathOf(changes[i].after) != PathOf(changes[k].after);
  }

  /**
   Every planned row is in the plan exactly when no change leaves a path that an
   earlier one filled.
   */
  lemma {:induction false} PlannedRowsAreKeptExactly(changes: seq<Change>)
    requires FillApart(changes)
    ensures (forall c | c in changes && c.after.Some? :: IsKept(Begin(changes).after, c)) <==>
      forall i, j | 0 <= i < j < |changes| :: !Unseats(changes, i, j)
  {
    hide Begin, Unseats, FillApart, IsKept;
    assert changes[..|changes|] == changes;
    forall i | 0 <= i < |changes| && changes[i].after.Some?
      ensures IsKept(Begin(changes).after, changes[i]) <==> forall j | i < j < |changes| :: !Unseats(changes, i, j)
    {
      KeptThrough(changes, i, |changes|);
    }
    forall i, j | 0 <= i < j < |changes| ensures Unseats(changes, i, j) ==> changes[i].after.Some? {
      UnseatsFilled(changes, i, j);
    }
    assert forall i | 0 <= i < |changes| :: changes[i] in changes;
  }

  lemma UnseatsFilled(changes: seq<Change>, i: nat, j: nat)
    requires i < j < |changes|
    ensures Unseats(changes, i, j) ==> changes[i].after.Some?
  {
  }

  const ONE_KEY: Schema := Schema("t", [["id"]], None, [], [], [], [], false)
  const FIRST: Row := Row("t", map[PRIMARY := "1"], [])
  const SECOND: Row := Row("t", map[PRIMARY := "2"], [])
  const TRADING: World := World([ONE_KEY], map["1" := FIRST, "2" := SECOND])

  /** Each row goes where the other was. */
  const TRADE: seq<Change> :=
    [Change(Some(("1", FIRST)), Some(("2", SECOND))), Change(Some(("2", SECOND)), Some(("1", FIRST)))]

  const LEFT: map<Path, Option<Row>> := map["1" := Some(FIRST), "2" := None]

  const TRADED: Work := Work(map["1" := FIRST, "2" := SECOND], LEFT,
    [(Some("1"), Some("2")), (Some("2"), Some("1"))], [], [], [], 0, false)

  lemma TradeBegins()
    ensures Begin(TRADE) == TRADED
  {
    assert TRADE[..1] == [TRADE[0]] && TRADE[..1][..0] == [];
    assert Begin([]) == NO_WORK;
    assert "1"[0] != "2"[0];
    assert Begin(TRADE[..1]) == Begun(NO_WORK, TRADE[0]);
    assert Begin(TRADE) == Begun(Begin(TRADE[..1]), TRADE[1]);
    assert NO_WORK.pending + [(Some("1"), Some("2"))] + [(Some("2"), Some("1"))] == TRADED.pending;
    var none: map<Path, Option<Row>> := map[];
    assert none["1" := None]["2" := Some(SECOND)]["2" := None]["1" := Some(FIRST)] == LEFT;
  }

  /** Where there are no foreign keys, a row that changes only counts. */
  lemma OnlyCounts(work: Work, from: Path, to: Path, original: Row)
    requires work.pending != [] && work.pending[0] == (Some(from), Some(to)) && !work.failed && work.events < 5
    requires from in work.before && work.before[from] == original && original.table == "t"
    requires PRIMARY in original.held
    requires var next := Current(TRADING, work.after, to);
      next.Some? ==> PRIMARY in next.value.held && next.value.held[PRIMARY] != original.held[PRIMARY]
    ensures Step(TRADING, work) == work.(pending := work.pending[1..], events := work.events + 1)
  {
    hide Current;
    assert Foreigns(TRADING) == [] by { FlatOne(ForeignsOf(), ONE_KEY); }
    assert ONE_KEY.keys[1..] == [];
    assert ConstraintName(ONE_KEY, ["id"]) == PRIMARY;
  }

  /** Two rows trading paths: the plan is accepted as it began, and keeps one of them. */
  lemma TradedRowIsLost()
    ensures FillApart(TRADE) && Expanded(TRADING, TRADE) == Accepted(LEFT, [])
    ensures Unseats(TRADE, 0, 1) && !IsKept(LEFT, TRADE[0])
  {
    hide Step;
    TradeBegins();
    var one := TRADED.(pending := TRADED.pending[1..], events := 1);
    OnlyCounts(TRADED, "1", "2", FIRST);
    OnlyCounts(one, "2", "1", SECOND);
    assert TRADED.pending[1..][1..] == [];
    StepAdvances(TRADING, TRADED);
    StepAdvances(TRADING, one);
    var two := one.(pending := [], events := 2);
    assert Run(TRADING, two) == two;
    assert Run(TRADING, one) == Run(TRADING, two);
    assert Run(TRADING, TRADED) == Run(TRADING, one);
  }
}
