/** The mirror of a folder's rows, taking a planned change in, and judging the state it makes. */
module Catalogs {
  import opened Json
  import opened Sequences
  import opened Order
  import opened Verdicts
  import opened Judging
  import opened Scoping
  import opened Prospecting

  /** A planned row file. */
  datatype Write = Write(path: string, bytes: string)

  /**
   What taking a file in depends on: the table a path belongs to, if it is a
   row file of one whose schema loads; and what reading its bytes gives.
   */
  datatype Folder = Folder(
    db: Database,
    tableOf: string -> Option<string>,
    read: (string, string) -> File,
    portable: bool)

  ghost predicate Reads(folder: Folder) {
    forall path, bytes | folder.tableOf(path).Some? ::
      folder.read(path, bytes).path == path && folder.read(path, bytes).table == folder.tableOf(path).value
  }

  /** A row file's table is the one its path belongs to. */
  ghost predicate Placed(folder: Folder, files: seq<File>) {
    forall f | f in files && folder.tableOf(f.path).Some? :: f.table == folder.tableOf(f.path).value
  }

  class Mirror {
    var files: seq<File>

    ghost predicate Valid()
      reads this
    {
      InPathOrder(files)
    }

    constructor ()
      ensures Valid() && files == []
    {
      files := [];
    }

    method Put(file: File)
      requires Valid()
      modifies this
      ensures Valid() && files == WithFile(old(files), file)
    {
      WithFileHolds(files, file);
      files := WithFile(files, file);
    }

    method Remove(path: string)
      requires Valid()
      modifies this
      ensures Valid() && files == WithoutFile(old(files), path)
    {
      WithoutFileHolds(files, path);
      files := WithoutFile(files, path);
    }
  }

  // ----- the state a change makes ------------------------------------------------------------

  function Deleted(files: seq<File>, deletes: seq<string>): seq<File> {
    if deletes == [] then files else WithoutFile(Deleted(files, deletes[..|deletes| - 1]), deletes[|deletes| - 1])
  }

  function Written(folder: Folder, files: seq<File>, writes: seq<Write>): seq<File> {
    if writes == [] then files
    else
      var last := writes[|writes| - 1];
      WithFile(Written(folder, files, writes[..|writes| - 1]), folder.read(last.path, last.bytes))
  }

  function Changed(folder: Folder, files: seq<File>, writes: seq<Write>, deletes: seq<string>): seq<File> {
    Written(folder, Deleted(files, deletes), writes)
  }

  function Touched(writes: seq<Write>, deletes: seq<string>): set<string> {
    (set w | w in writes :: w.path) + (set d | d in deletes)
  }

  function Standing(touched: set<string>): Finding -> bool {
    (f: Finding) => f.path.None? || f.path.value !in touched
  }

  /** A new file whose name another, untouched file of its table has, to a filesystem that folds names. */
  function Collision(folder: Folder, files: seq<File>, w: Write, touched: set<string>): seq<Finding> {
    var file := folder.read(w.path, w.bytes);
    if FileAt(files, w.path).None?
      && exists other | other in files ::
        other.table == file.table && other.folded == file.folded && other.path != w.path && other.path !in touched
    then [Finding(Some(w.path), None, "PORTABILITY_COLLISION", None, w.path, Some(file.table), w.path)]
    else []
  }

  function Collisions(folder: Folder, files: seq<File>, writes: seq<Write>, touched: set<string>): seq<Finding> {
    if writes == [] then []
    else
      var front := writes[..|writes| - 1];
      Collisions(folder, files, front, touched)
        + Collision(folder, Written(folder, files, front), writes[|writes| - 1], touched)
  }

  /** The findings of observing the folder, as they stand after the change. */
  function GeneralAfter(
    folder: Folder, general: Verdict, files: seq<File>, writes: seq<Write>, deletes: seq<string>): Verdict
  {
    var touched := Touched(writes, deletes);
    var collisions := Collisions(folder, Deleted(files, deletes), writes, touched);
    Verdict(
      Filter(Standing(touched), general.errors) + (if folder.portable then collisions else []),
      Filter(Standing(touched), general.warnings) + (if folder.portable then [] else collisions))
  }

  function StateAfter(folder: Folder, state: State, writes: seq<Write>, deletes: seq<string>): State {
    State(Changed(folder, state.files, writes, deletes),
      GeneralAfter(folder, state.general, state.files, writes, deletes))
  }

  // ----- the scope of a change --------------------------------------------------------------------

  function KeysAt(files: seq<File>, paths: set<string>): set<string> {
    set f, h | f in files && f.path in paths && h in f.held :: h.key
  }

  function KeysWritten(folder: Folder, writes: seq<Write>): set<string> {
    set w, h | w in writes && h in folder.read(w.path, w.bytes).held :: h.key
  }

  function TablesAt(folder: Folder, paths: set<string>): set<string> {
    set p | p in paths && folder.tableOf(p).Some? :: folder.tableOf(p).value
  }

  function ScopeOf(folder: Folder, files: seq<File>, writes: seq<Write>, deletes: seq<string>): Scope {
    var paths := Touched(writes, deletes);
    Scope(TablesAt(folder, paths), paths, KeysAt(files, paths) + KeysWritten(folder, writes))
  }

  predicate AllRowFiles(folder: Folder, writes: seq<Write>, deletes: seq<string>) {
    (forall w | w in writes :: folder.tableOf(w.path).Some?) && (forall d | d in deletes :: folder.tableOf(d).Some?)
  }

  lemma {:induction false} DeletedHolds(files: seq<File>, deletes: seq<string>, scope: Scope)
    requires InPathOrder(files) && forall d | d in deletes :: d in scope.paths
    ensures InPathOrder(Deleted(files, deletes))
    ensures forall f | f in Deleted(files, deletes) :: f in files
    ensures Filter(Untouched(scope), Deleted(files, deletes)) == Filter(Untouched(scope), files)
  {
    hide InPathOrder, Filter, Untouched, WithoutFile;
    if deletes != [] {
      var front, last := deletes[..|deletes| - 1], deletes[|deletes| - 1];
      assert forall d | d in front :: d in deletes;
      DeletedHolds(files, front, scope);
      WithoutFileHolds(Deleted(files, front), last);
      WithoutStands(Deleted(files, front), scope, last);
    }
  }

  lemma {:induction false} WrittenHolds(folder: Folder, files: seq<File>, writes: seq<Write>, scope: Scope)
    requires InPathOrder(files) && Reads(folder)
    requires forall w | w in writes :: w.path in scope.paths && folder.tableOf(w.path).Some?
    ensures InPathOrder(Written(folder, files, writes))
    ensures forall f | f in Written(folder, files, writes) ::
      f in files || exists w | w in writes :: f == folder.read(w.path, w.bytes)
    ensures Filter(Untouched(scope), Written(folder, files, writes)) == Filter(Untouched(scope), files)
  {
    hide InPathOrder, Filter, Untouched, WithFile;
    if writes != [] {
      var front, last := writes[..|writes| - 1], writes[|writes| - 1];
      assert last in writes && forall w | w in front :: w in writes;
      WrittenHolds(folder, files, front, scope);
      var file := folder.read(last.path, last.bytes);
      WithFileHolds(Written(folder, files, front), file);
      WithStands(Written(folder, files, front), scope, file);
    }
  }

  /** The scope of a change covers it. */
  lemma {:induction false} ScopeConfines(folder: Folder, files: seq<File>, writes: seq<Write>, deletes: seq<string>)
    requires InPathOrder(files) && Reads(folder) && Placed(folder, files) && AllRowFiles(folder, writes, deletes)
    ensures InPathOrder(Changed(folder, files, writes, deletes))
    ensures Confined(files, Changed(folder, files, writes, deletes), ScopeOf(folder, files, writes, deletes))
    ensures Placed(folder, Changed(folder, files, writes, deletes))
  {
    hide InPathOrder, Filter, Deleted, Written;
    var scope, deleted := ScopeOf(folder, files, writes, deletes), Deleted(files, deletes);
    DeletedHolds(files, deletes, scope);
    WrittenHolds(folder, deleted, writes, scope);
    forall f | f in files && f.path in scope.paths
      ensures f.table in scope.tables && forall h | h in f.held :: h.key in scope.keys
    {
      assert folder.tableOf(f.path).Some?;
    }
    forall f | f in Written(folder, deleted, writes) && f.path in scope.paths
      ensures f.table in scope.tables && forall h | h in f.held :: h.key in scope.keys
    {
      if f !in files {
        var w :| w in writes && f == folder.read(w.path, w.bytes);
      }
    }
  }

  // ----- taking a change in --------------------------------------------------------------------------

  /** Name the paths and tables a change touches, and the keys those paths hold now and will hold after it. */
  method ScopeChange(folder: Folder, mirror: Mirror, writes: seq<Write>, deletes: seq<string>) returns (scope: Scope)
    requires mirror.Valid()
    ensures scope == ScopeOf(folder, mirror.files, writes, deletes)
  {
    var paths := Touched(writes, deletes);
    var keys := KeysAt(mirror.files, paths);
    ghost var held := keys;
    for i := 0 to |writes|
      invariant keys == held + KeysWritten(folder, writes[..i])
    {
      assert writes[..i + 1] == writes[..i] + [writes[i]];
      keys := keys + set h | h in folder.read(writes[i].path, writes[i].bytes).held :: h.key;
    }
    assert writes[..|writes|] == writes;
    scope := Scope(TablesAt(folder, paths), paths, keys);
  }

  /** Take planned row files into the mirror, and return the observation's own findings as they then stand. */
  method IngestRows(folder: Folder, mirror: Mirror, general: Verdict, writes: seq<Write>, deletes: seq<string>)
    returns (findings: Verdict)
    requires mirror.Valid()
    modifies mirror
    ensures mirror.Valid() && mirror.files == Changed(folder, old(mirror.files), writes, deletes)
    ensures findings == GeneralAfter(folder, general, old(mirror.files), writes, deletes)
  {
    hide Deleted, Written, Collisions, Collision, WithFile, WithoutFile, Filter, Standing, Touched, InPathOrder;
    ghost var before := mirror.files;
    var touched := Touched(writes, deletes);
    NoneYet(folder, before, touched);
    for i := 0 to |deletes|
      invariant mirror.Valid() && mirror.files == Deleted(before, deletes[..i])
    {
      DeletedStep(before, deletes, i);
      mirror.Remove(deletes[i]);
    }
    assert deletes[..|deletes|] == deletes;
    ghost var deleted := mirror.files;
    NoneYet(folder, deleted, touched);
    var errors, warnings := Filter(Standing(touched), general.errors), Filter(Standing(touched), general.warnings);
    ghost var standing := Verdict(errors, warnings);
    for i := 0 to |writes|
      invariant mirror.Valid() && mirror.files == Written(folder, deleted, writes[..i])
      invariant errors == standing.errors + if folder.portable then Collisions(folder, deleted, writes[..i], touched)
        else []
      invariant warnings == standing.warnings + if folder.portable then []
        else Collisions(folder, deleted, writes[..i], touched)
    {
      WrittenStep(folder, deleted, writes, i, touched);
      var collision := Collision(folder, mirror.files, writes[i], touched);
      mirror.Put(folder.read(writes[i].path, writes[i].bytes));
      if folder.portable { errors := errors + collision; } else { warnings := warnings + collision; }
    }
    assert writes[..|writes|] == writes;
    findings := Verdict(errors, warnings);
  }

  lemma NoneYet(folder: Folder, files: seq<File>, touched: set<string>)
    ensures Deleted(files, []) == files == Written(folder, files, []) && Collisions(folder, files, [], touched) == []
  {
  }

  lemma DeletedStep(files: seq<File>, deletes: seq<string>, i: nat)
    requires i < |deletes|
    ensures Deleted(files, deletes[..i + 1]) == WithoutFile(Deleted(files, deletes[..i]), deletes[i])
  {
    hide WithoutFile;
    assert deletes[..i + 1][..i] == deletes[..i];
  }

  lemma WrittenStep(folder: Folder, files: seq<File>, writes: seq<Write>, i: nat, touched: set<string>)
    requires i < |writes|
    ensures Written(folder, files, writes[..i + 1])
         == WithFile(Written(folder, files, writes[..i]), folder.read(writes[i].path, writes[i].bytes))
    ensures Collisions(folder, files, writes[..i + 1], touched)
         == Collisions(folder, files, writes[..i], touched)
           + Collision(folder, Written(folder, files, writes[..i]), writes[i], touched)
  {
    hide WithFile, Collision;
    assert writes[..i + 1][..i] == writes[..i];
  }

  // ----- judging a planned change ----------------------------------------------------------------------

  lemma {:induction false} ScopedVerdictIsWhole(
    folder: Folder, state: State, writes: seq<Write>, deletes: seq<string>, previous: Verdict)
    requires InPathOrder(state.files) && Reads(folder) && Placed(folder, state.files)
    requires AllRowFiles(folder, writes, deletes)
    requires previous == Canonical(Judged(folder.db, state, None))
    ensures var scope := ScopeOf(folder, state.files, writes, deletes);
      var after := StateAfter(folder, state, writes, deletes);
      var gone, found, whole := Judged(folder.db, state, Some(scope)), Judged(folder.db, after, Some(scope)),
        Judged(folder.db, after, None);
      && Patches(previous.errors, gone.errors, found.errors, whole.errors)
      && Patches(previous.warnings, gone.warnings, found.warnings, whole.warnings)
  {
    hide Judged, Patches, Confined, InPathOrder, Changed;
    ScopeConfines(folder, state.files, writes, deletes);
    ScopedIsWhole(folder.db, state, StateAfter(folder, state, writes, deletes),
      ScopeOf(folder, state.files, writes, deletes));
  }

  /**
   Judge a change to rows. Nothing, if it touches anything but rows of tables
   whose schemas load; and otherwise the verdict judging the new state whole gives.
   */
  method Prospect(
    folder: Folder, mirror: Mirror, general: Verdict, writes: seq<Write>, deletes: seq<string>,
      previous: Option<Verdict>)
    returns (prospect: Option<(State, Verdict)>)
    requires mirror.Valid() && Reads(folder) && Placed(folder, mirror.files)
    requires previous.Some? ==> previous.value == Canonical(Judged(folder.db, State(mirror.files, general), None))
    modifies mirror
    ensures mirror.Valid() && Placed(folder, mirror.files)
    ensures prospect.Some? <==> AllRowFiles(folder, writes, deletes)
    ensures prospect.None? ==> mirror.files == old(mirror.files)
    ensures prospect.Some? ==>
      && prospect.value.0 == StateAfter(folder, State(old(mirror.files), general), writes, deletes)
      && prospect.value.0.files == mirror.files
      && prospect.value.1 == Canonical(Judged(folder.db, prospect.value.0, None))
  {
    if !AllRowFiles(folder, writes, deletes) { return None; }
    hide Judged, Confined, Changed, ScopeOf, GeneralAfter, AllRowFiles, InPathOrder;
    ghost var state := State(mirror.files, general);
    ScopeConfines(folder, mirror.files, writes, deletes);
    if previous.Some? && |writes| + |deletes| <= INCREMENTAL_LIMIT {
      ScopedVerdictIsWhole(folder, state, writes, deletes, previous.value);
      var scope := ScopeChange(folder, mirror, writes, deletes);
      var before := Judge(folder.db, State(mirror.files, general), Some(scope));
      var findings := IngestRows(folder, mirror, general, writes, deletes);
      var future := State(mirror.files, findings);
      var after := Judge(folder.db, future, Some(scope));
      var patched := Revalidate(previous.value, before, after);
      // The verdicts cannot disagree, so the whole judgement kept for that is never reached.
      assert patched.Some? && patched.value == Canonical(Judged(folder.db, future, None));
      prospect := Some((future, patched.value));
    } else {
      var findings := IngestRows(folder, mirror, general, writes, deletes);
      var future := State(mirror.files, findings);
      var whole := Judge(folder.db, future, None);
      prospect := Some((future, Canonical(whole)));
    }
  }
}
