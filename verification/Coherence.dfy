/** A change taken into the mirror, and the folder scanned once it is written: when the two leave one mirror. */
module Coherence {
  import opened Json
  import opened Sequences
  import opened Verdicts
  import opened Judging
  import opened Prospecting
  import opened Catalogs
  import S = Scanning

  /** What stands at each path of the folder. */
  type Disk = map<string, S.Item>

  /** The settings of a scan, and the directory and name that make a path. */
  datatype View = View(scan: S.Scan, placeOf: string -> S.Place)

  /** The bytes a scan takes in at a path, if it takes anything in. */
  function Scanned(view: View, disk: Disk, path: string): Option<string> {
    var wanted := S.Wanted(view.scan, view.placeOf(path), if path in disk then Some(disk[path]) else None);
    if wanted.Some? then Some(wanted.value.0) else None
  }

  function ReadAs(folder: Folder, path: string, bytes: Option<string>): Option<File> {
    if bytes.Some? then Some(folder.read(path, bytes.value)) else None
  }

  /** The mirror holds of every row path what a scan of the folder makes of it. */
  ghost predicate Shows(folder: Folder, view: View, files: seq<File>, disk: Disk) {
    forall path | folder.tableOf(path).Some? :: FileAt(files, path) == ReadAs(folder, path, Scanned(view, disk, path))
  }

  ghost predicate DistinctWrites(writes: seq<Write>) {
    forall i, j | 0 <= i < j < |writes| :: writes[i].path != writes[j].path
  }

  /** The folder once the change is written to it. */
  ghost predicate Applied(disk: Disk, later: Disk, writes: seq<Write>, deletes: seq<string>) {
    && (forall w | w in writes :: w.path in later && later[w.path].bytes == Some(w.bytes))
    && (forall path | path !in Touched(writes, deletes) ::
          (path in later <==> path in disk) && (path in disk ==> later[path] == disk[path]))
    && (forall path | path in deletes && (forall w | w in writes :: w.path != path) :: path !in later)
  }

  lemma {:induction false} FileAtIs(files: seq<File>, path: string, f: File)
    requires InPathOrder(files)
    ensures FileAt(files, path) == Some(f) <==> f in files && f.path == path
  {
    PathsCompare();
    if files != [] {
      forall g | g in files[1..] ensures g.path != files[0].path {
        var i :| 0 <= i < |files| - 1 && files[1..][i] == g;
        assert PathBefore(files[0].path, files[i + 1].path);
      }
      FileAtIs(files[1..], path, f);
      assert forall g :: g in files <==> g == files[0] || g in files[1..];
    }
  }

  lemma SameFilesAt(files: seq<File>, others: seq<File>, path: string)
    requires InPathOrder(files) && InPathOrder(others)
    requires forall f: File | f.path == path :: f in files <==> f in others
    ensures FileAt(files, path) == FileAt(others, path)
  {
    if FileAt(files, path).Some? {
      FileAtIs(files, path, FileAt(files, path).value);
      FileAtIs(others, path, FileAt(files, path).value);
    }
    if FileAt(others, path).Some? {
      FileAtIs(files, path, FileAt(others, path).value);
      FileAtIs(others, path, FileAt(others, path).value);
    }
  }

  lemma {:induction false} DeletedAt(files: seq<File>, deletes: seq<string>, path: string)
    requires InPathOrder(files)
    ensures InPathOrder(Deleted(files, deletes))
    ensures FileAt(Deleted(files, deletes), path) == if path in deletes then None else FileAt(files, path)
  {
    hide InPathOrder, WithoutFile, FileAt;
    if deletes != [] {
      var front, last := deletes[..|deletes| - 1], deletes[|deletes| - 1];
      var before, after := Deleted(files, front), Deleted(files, deletes);
      assert forall d :: d in deletes <==> d in front || d == last;
      DeletedAt(files, front, path);
      WithoutFileHolds(before, last);
      if path == last {
        if FileAt(after, path).Some? { FileAtIs(after, path, FileAt(after, path).value); }
      } else {
        SameFilesAt(after, before, path);
      }
    }
  }

  lemma {:induction false} WrittenAt(folder: Folder, files: seq<File>, writes: seq<Write>, path: string)
    requires InPathOrder(files) && Reads(folder) && DistinctWrites(writes)
    requires forall w | w in writes :: folder.tableOf(w.path).Some?
    ensures InPathOrder(Written(folder, files, writes))
    ensures forall w | w in writes && w.path == path ::
      FileAt(Written(folder, files, writes), path) == Some(folder.read(path, w.bytes))
    ensures (forall w | w in writes :: w.path != path) ==>
      FileAt(Written(folder, files, writes), path) == FileAt(files, path)
  {
    hide InPathOrder, WithFile, FileAt;
    if writes != [] {
      var front, last := writes[..|writes| - 1], writes[|writes| - 1];
      var before, after := Written(folder, files, front), Written(folder, files, writes);
      assert forall w :: w in writes <==> w in front || w == last;
      WrittenAt(folder, files, front, path);
      var file := folder.read(last.path, last.bytes);
      WithFileHolds(before, file);
      if path == last.path {
        FileAtIs(after, path, file);
        forall w | w in writes && w.path == path ensures w == last { OneWrite(writes, w); }
      } else {
        SameFilesAt(after, before, path);
      }
    }
  }

  lemma OneWrite(writes: seq<Write>, w: Write)
    requires DistinctWrites(writes) && w in writes && w.path == writes[|writes| - 1].path
    ensures w == writes[|writes| - 1]
  {
  }

  /**
   Where the mirror showed the folder, and the change has been written to it,
   the mirror that took the change in shows the folder exactly when a scan would
   admit every file written.
   */
  lemma {:induction false} IngestedIsScannedExactly(
    folder: Folder, view: View, files: seq<File>, disk: Disk, later: Disk, writes: seq<Write>, deletes: seq<string>)
    requires InPathOrder(files) && Reads(folder) && AllRowFiles(folder, writes, deletes) && DistinctWrites(writes)
    requires Shows(folder, view, files, disk) && Applied(disk, later, writes, deletes)
    ensures Shows(folder, view, Changed(folder, files, writes, deletes), later) <==>
      forall w | w in writes :: S.Admitted(view.scan, view.placeOf(w.path), later[w.path])
  {
    hide InPathOrder, FileAt, Deleted, Written, DistinctWrites, S.Admitted;
    var changed := Changed(folder, files, writes, deletes);
    forall w | w in writes
      ensures FileAt(changed, w.path) == ReadAs(folder, w.path, Scanned(view, later, w.path)) <==>
        S.Admitted(view.scan, view.placeOf(w.path), later[w.path])
    {
      DeletedAt(files, deletes, w.path);
      WrittenAt(folder, Deleted(files, deletes), writes, w.path);
    }
    forall path | folder.tableOf(path).Some? && forall w | w in writes :: w.path != path
      ensures FileAt(changed, path) == ReadAs(folder, path, Scanned(view, later, path))
    {
      DeletedAt(files, deletes, path);
      WrittenAt(folder, Deleted(files, deletes), writes, path);
    }
  }

  // ----- what the scan leaves ----------------------------------------------------------------------

  /** A table's listing is what stands in its directory. */
  ghost predicate Lists(folder: Folder, view: View, disk: Disk, table: string, entries: seq<S.Entry>) {
    forall path | folder.tableOf(path) == Some(table) ::
      && view.placeOf(path).table == table
      && S.ItemAt(entries, view.placeOf(path).name) == if path in disk then Some(disk[path]) else None
  }

  /** The rows of a table the mirror holds are those the scan left. */
  ghost predicate Agrees(folder: Folder, view: View, files: seq<File>, held: map<S.Place, S.Held>, table: string) {
    forall path | folder.tableOf(path) == Some(table) ::
      var stamp := S.HeldAt(held, view.placeOf(path));
      FileAt(files, path) == if stamp.Some? then Some(folder.read(path, stamp.value.bytes)) else None
  }

  /**
   Taking planned rows in, and scanning a table of the folder they have been
   written to, leave the same rows of it wherever each file written is one the
   scan admits.
   */
  method IngestThenScan(
    folder: Folder, view: View, catalog: Catalogs.Mirror, mirror: S.Mirror, general: Verdict, writes: seq<Write>,
      deletes: seq<string>, ghost disk: Disk, ghost later: Disk, table: string, entries: seq<S.Entry>)
    requires catalog.Valid() && Reads(folder) && AllRowFiles(folder, writes, deletes) && DistinctWrites(writes)
    requires Shows(folder, view, catalog.files, disk) && Applied(disk, later, writes, deletes)
    requires forall w | w in writes :: S.Admitted(view.scan, view.placeOf(w.path), later[w.path])
    requires S.DistinctEntries(entries) && Lists(folder, view, later, table, entries)
    requires S.Judges(view.scan, mirror.held) && S.StampsHold(view.scan, mirror.held, table, entries)
    modifies catalog, mirror
    ensures catalog.files == Changed(folder, old(catalog.files), writes, deletes)
    ensures Agrees(folder, view, catalog.files, mirror.held, table)
  {
    hide Shows, Applied, S.Admitted, Lists, Agrees, DistinctWrites, S.StampsHold, S.Judges, S.Wanted, Changed, FileAt;
    IngestedIsScannedExactly(folder, view, catalog.files, disk, later, writes, deletes);
    var findings := IngestRows(folder, catalog, general, writes, deletes);
    var reread, forgotten, found := S.ScanTable(mirror, view.scan, table, Some(S.Dir), entries);
    ScannedIsShown(folder, view, catalog.files, later, table, entries, mirror.held);
  }

  lemma ScannedIsShown(
    folder: Folder, view: View, files: seq<File>, disk: Disk, table: string, entries: seq<S.Entry>,
      held: map<S.Place, S.Held>)
    requires Shows(folder, view, files, disk) && Lists(folder, view, disk, table, entries)
    requires forall p: S.Place | p.table == table ::
      S.Content(S.HeldAt(held, p)) == S.Wanted(view.scan, p, S.ItemAt(entries, p.name))
    ensures Agrees(folder, view, files, held, table)
  {
    hide S.Wanted, FileAt, S.ItemAt;
    forall path | folder.tableOf(path) == Some(table)
      ensures var stamp := S.HeldAt(held, view.placeOf(path));
        FileAt(files, path) == if stamp.Some? then Some(folder.read(path, stamp.value.bytes)) else None
    {
      assert FileAt(files, path) == ReadAs(folder, path, Scanned(view, disk, path));
    }
  }
}
