/** Bringing the mirror of a folder up to date: by examining a table's directory, or only the paths reported changed. */
module Scanning {
  import opened Json
  import opened Sequences

  datatype Kind = File | Dir | Other

  /** What a filesystem says of a file without reading it. */
  datatype Stat = Stat(size: nat, modified: int, inode: nat)

  /** A directory entry: `bytes` is nothing when it is gone by the time it is read. */
  datatype Item = Item(kind: Kind, links: nat, stat: Stat, bytes: Option<string>)

  datatype Place = Place(table: string, name: string)

  /** What a file's bytes are judged to be: a row, if they are one, and their faults. */
  datatype Judged = Judged(row: Option<string>, faults: seq<string>)

  /** A file as the mirror holds it, with the stamp it was last seen by. */
  datatype Held = Held(bytes: string, stat: Stat, seen: int, judged: Judged)

  /** The settings of one examination. */
  datatype Scan = Scan(
    ignored: Place -> bool,
    fold: string -> string,
    maxSize: nat,
    seen: int,
    granularity: int,
    judge: (Place, string) -> Judged)

  datatype Finding = Collides(place: Place) | Refused(place: Place, code: string) | NotADirectory(table: string)

  const JSON := ".json"

  predicate EndsInJson(name: string) {
    |name| >= |JSON| && name[|name| - |JSON|..] == JSON
  }

  /** Whether a name's extension is `json`: one that is nothing else has none. */
  predicate HasJsonExtension(name: string) {
    EndsInJson(name) && |name| > |JSON|
  }

  /** Why a file that is not ignored is not admitted as a row file, if it is not. */
  function Refusal(scan: Scan, place: Place, item: Item): Option<string> {
    if item.kind != File then Some(if item.kind == Dir then "UNEXPECTED_FILE" else "NON_REGULAR_FILE")
    else if item.links > 1 then Some("NON_REGULAR_FILE")
    else if !HasJsonExtension(place.name) then Some("UNEXPECTED_FILE")
    else if item.stat.size > scan.maxSize then Some("FILE_TOO_LARGE")
    else None
  }

  predicate Admitted(scan: Scan, place: Place, item: Item) {
    !scan.ignored(place) && Refusal(scan, place, item).None?
  }

  /** Whether a stamp still describes a file, without reading it. */
  predicate Trusted(held: Held, stat: Stat, granularity: int) {
    held.stat == stat && stat.modified + granularity < held.seen
  }

  function Read(scan: Scan, place: Place, item: Item, bytes: string): Held {
    Held(bytes, item.stat, scan.seen, scan.judge(place, bytes))
  }

  // ----- what the mirror should hold -----------------------------------------------------------

  /** A file's content as the mirror keeps it, its stamp aside. */
  function Content(held: Option<Held>): Option<(string, Judged)> {
    if held.Some? then Some((held.value.bytes, held.value.judged)) else None
  }

  /** What reading everything would make of a place. */
  function Wanted(scan: Scan, place: Place, item: Option<Item>): Option<(string, Judged)> {
    if item.Some? && Admitted(scan, place, item.value) && item.value.bytes.Some?
    then Some((item.value.bytes.value, scan.judge(place, item.value.bytes.value))) else None
  }

  function HeldAt(held: map<Place, Held>, place: Place): Option<Held> {
    if place in held then Some(held[place]) else None
  }

  datatype Entry = Entry(name: string, item: Item)

  function ItemAt(entries: seq<Entry>, name: string): Option<Item> {
    if entries == [] then None
    else if entries[|entries| - 1].name == name then Some(entries[|entries| - 1].item)
    else ItemAt(entries[..|entries| - 1], name)
  }

  ghost predicate DistinctEntries(entries: seq<Entry>) {
    forall i, j | 0 <= i < j < |entries| :: entries[i].name != entries[j].name
  }

  lemma {:induction false} ItemOf(entries: seq<Entry>, i: nat)
    requires DistinctEntries(entries) && i < |entries|
    ensures ItemAt(entries, entries[i].name) == Some(entries[i].item)
    ensures ItemAt(entries[..i], entries[i].name) == None
  {
    NotBefore(entries, i, i);
    if i < |entries| - 1 {
      ItemOf(entries[..|entries| - 1], i);
      assert entries[..|entries| - 1][..i] == entries[..i];
    }
  }

  lemma {:induction false} NotBefore(entries: seq<Entry>, i: nat, n: nat)
    requires DistinctEntries(entries) && n <= i < |entries|
    ensures ItemAt(entries[..n], entries[i].name) == None
  {
    if n > 0 {
      assert entries[..n][..n - 1] == entries[..n - 1];
      NotBefore(entries, i, n - 1);
    }
  }

  lemma ItemOneMore(entries: seq<Entry>, i: nat, name: string)
    requires i < |entries|
    ensures ItemAt(entries[..i + 1], name) == if entries[i].name == name then Some(entries[i].item)
      else ItemAt(entries[..i], name)
  {
    assert entries[..i + 1][..i] == entries[..i];
  }

  /** What the mirror holds was judged from the bytes it holds. */
  ghost predicate Judges(scan: Scan, held: map<Place, Held>) {
    forall p | p in held :: held[p].judged == scan.judge(p, held[p].bytes)
  }

  /** A stamp that is trusted means the bytes are the ones last read. */
  ghost predicate StampsHold(scan: Scan, held: map<Place, Held>, table: string, entries: seq<Entry>) {
    forall e | e in entries && Place(table, e.name) in held
      && Trusted(held[Place(table, e.name)], e.item.stat, scan.granularity) ::
      e.item.bytes == Some(held[Place(table, e.name)].bytes)
  }

  class Mirror {
    var held: map<Place, Held>

    method Put(place: Place, file: Held)
      modifies this
      ensures held == old(held)[place := file]
    {
      held := held[place := file];
    }

    /** The bytes are the same: only the stamp is renewed. */
    method Touch(place: Place, stat: Stat, seen: int)
      requires place in held
      modifies this
      ensures held == old(held)[place := old(held)[place].(stat := stat, seen := seen)]
    {
      held := held[place := held[place].(stat := stat, seen := seen)];
    }

    method Remove(place: Place)
      modifies this
      ensures held == old(held) - {place}
    {
      held := held - {place};
    }
  }

  // ----- the findings of an examination -----------------------------------------------------------

  /** Whether an entry that is not ignored, among those given, folds to the same name. */
  predicate FoldedIn(scan: Scan, table: string, entries: seq<Entry>, name: string) {
    exists e | e in entries :: !scan.ignored(Place(table, e.name)) && scan.fold(e.name) == scan.fold(name)
  }

  /** What is found of one entry, after those before it. */
  function FoundAt(scan: Scan, table: string, before: seq<Entry>, e: Entry): seq<Finding> {
    var place := Place(table, e.name);
    if scan.ignored(place) then []
    else
      (if FoldedIn(scan, table, before, e.name) then [Collides(place)] else [])
      + (var refusal := Refusal(scan, place, e.item); if refusal.Some? then [Refused(place, refusal.value)] else [])
  }

  function FoundAll(scan: Scan, table: string, entries: seq<Entry>): seq<Finding> {
    if entries == [] then []
    else
      var front := entries[..|entries| - 1];
      FoundAll(scan, table, front) + FoundAt(scan, table, front, entries[|entries| - 1])
  }

  // ----- examining a table -----------------------------------------------------------------------------

  /** Take one admitted entry in: trusted, the same, gone, or read afresh. */
  method TakeEntry(mirror: Mirror, scan: Scan, place: Place, item: Item) returns (reread: bool, forgotten: bool)
    requires Admitted(scan, place, item) && Judges(scan, mirror.held)
    requires place in mirror.held && Trusted(mirror.held[place], item.stat, scan.granularity) ==>
      item.bytes == Some(mirror.held[place].bytes)
    modifies mirror
    ensures Judges(scan, mirror.held)
    ensures Content(HeldAt(mirror.held, place)) == Wanted(scan, place, Some(item))
    ensures forall p | p != place :: HeldAt(mirror.held, p) == HeldAt(old(mirror.held), p)
    ensures Content(HeldAt(mirror.held, place)) != Content(HeldAt(old(mirror.held), place)) ==> reread || forgotten
    ensures reread ==> place in mirror.held && HeldAt(old(mirror.held), place) != HeldAt(mirror.held, place)
    ensures forgotten <==> place in old(mirror.held) && place !in mirror.held
  {
    reread, forgotten := false, false;
    var cached := HeldAt(mirror.held, place);
    if cached.Some? && Trusted(cached.value, item.stat, scan.granularity) { return; }
    if item.bytes.None? {
      if cached.Some? {
        mirror.Remove(place);
        forgotten := true;
      }
      return;
    }
    if cached.Some? && cached.value.bytes == item.bytes.value {
      mirror.Touch(place, item.stat, scan.seen);
      return;
    }
    reread := true;
    mirror.Put(place, Read(scan, place, item, item.bytes.value));
  }

  /** The mirror so far: what is done is as reading it would make it, what is not admitted or not done is as it was. */
  ghost predicate ScannedTo(
    scan: Scan, table: string, entries: seq<Entry>, n: nat, was: map<Place, Held>, held: map<Place, Held>,
      stamps: set<Place>)
    requires n <= |entries|
  {
    forall p :: PlaceScanned(scan, table, entries, n, was, held, stamps, p)
  }

  ghost predicate PlaceScanned(
    scan: Scan, table: string, entries: seq<Entry>, n: nat, was: map<Place, Held>, held: map<Place, Held>,
      stamps: set<Place>, p: Place)
    requires n <= |entries|
  {
    var item := if p.table == table then ItemAt(entries[..n], p.name) else None;
    if item.Some? && Admitted(scan, p, item.value)
    then p !in stamps && Content(HeldAt(held, p)) == Wanted(scan, p, item)
    else HeldAt(held, p) == HeldAt(was, p) && (p in stamps <==> p in was && p.table == table)
  }

  /** What of a mirror differs from what it was is on record. */
  ghost predicate ChangesNoted(
    was: map<Place, Held>, held: map<Place, Held>, reread: seq<Place>, forgotten: seq<Place>)
  {
    forall p | Content(HeldAt(held, p)) != Content(HeldAt(was, p)) :: p in reread || p in forgotten
  }

  /**
   Bring the mirror's entries for one table up to date with its directory: it
   then holds exactly the files admitted, each as reading it makes it,
   whatever it held before.
   */
  method ScanTable(mirror: Mirror, scan: Scan, table: string, directory: Option<Kind>, entries: seq<Entry>)
    returns (reread: seq<Place>, forgotten: seq<Place>, findings: seq<Finding>)
    requires DistinctEntries(entries) && (directory != Some(Dir) ==> entries == [])
    requires Judges(scan, mirror.held) && StampsHold(scan, mirror.held, table, entries)
    modifies mirror
    ensures Judges(scan, mirror.held)
    ensures forall p: Place | p.table == table ::
      Content(HeldAt(mirror.held, p)) == Wanted(scan, p, ItemAt(entries, p.name))
    ensures forall p: Place | p.table != table :: HeldAt(mirror.held, p) == HeldAt(old(mirror.held), p)
    ensures ChangesNoted(old(mirror.held), mirror.held, reread, forgotten)
    ensures findings == if directory.Some? && directory != Some(Dir) then [NotADirectory(table)]
      else FoundAll(scan, table, entries)
  {
    reread, forgotten, findings := [], [], [];
    ghost var was := mirror.held;
    hide Admitted, Refusal, Trusted, FoundAt, FoundAll, PlaceScanned, ScannedTo, Wanted, StampsHold, ChangesNoted,
      Judges;
    NoneNoted(was);
    NothingScanned(scan, table, entries, was);
    NothingWanted(scan);
    if directory != Some(Dir) {
      forgotten := ForgetAll(mirror, scan, set p | p in mirror.held && p.table == table);
      NotedGone(was, was, mirror.held, set p | p in was && p.table == table, [], [], forgotten);
      if directory.Some? { findings := [NotADirectory(table)]; }
      return;
    }
    var stamps := set p | p in mirror.held && p.table == table;
    for i := 0 to |entries|
      invariant Judges(scan, mirror.held)
      invariant ScannedTo(scan, table, entries, i, was, mirror.held, stamps)
      invariant ChangesNoted(was, mirror.held, reread, forgotten)
      invariant findings == FoundAll(scan, table, entries[..i])
    {
      var place, item := Place(table, entries[i].name), entries[i].item;
      FoundOneMore(scan, table, entries, i);
      findings := findings + FoundAt(scan, table, entries[..i], entries[i]);
      ghost var before := mirror.held;
      ghost var stampsBefore := stamps;
      ItemOf(entries, i);
      ghost var noted, lost := reread, forgotten;
      NotYetScanned(scan, table, entries, i, was, mirror.held, stamps);
      if Admitted(scan, place, item) {
        StampHolds(scan, was, mirror.held, table, entries, i);
        var read, gone := TakeEntry(mirror, scan, place, item);
        stamps := stamps - {place};
        if read { reread := reread + [place]; }
        if gone { forgotten := forgotten + [place]; }
      }
      NotedOneMore(was, before, mirror.held, place, noted, lost, reread, forgotten);
      ScannedOneMore(scan, table, entries, i, was, before, mirror.held, stampsBefore, stamps);
    }
    assert entries[..|entries|] == entries;
    ghost var before := mirror.held;
    var gone := ForgetAll(mirror, scan, stamps);
    ScannedAll(scan, table, entries, was, before, mirror.held, stamps);
    NotedGone(was, before, mirror.held, stamps, reread, forgotten, gone);
    forgotten := forgotten + gone;
  }

  lemma NoneNoted(was: map<Place, Held>)
    ensures ChangesNoted(was, was, [], [])
  {
  }

  lemma StampHolds(
    scan: Scan, was: map<Place, Held>, held: map<Place, Held>, table: string, entries: seq<Entry>, i: nat)
    requires i < |entries| && StampsHold(scan, was, table, entries)
    requires HeldAt(held, Place(table, entries[i].name)) == HeldAt(was, Place(table, entries[i].name))
    ensures var place, item := Place(table, entries[i].name), entries[i].item;
      place in held && Trusted(held[place], item.stat, scan.granularity) ==> item.bytes == Some(held[place].bytes)
  {
    hide Trusted;
    assert entries[i] in entries;
  }

  lemma NotedOneMore(
    was: map<Place, Held>, before: map<Place, Held>, held: map<Place, Held>, place: Place,
    noted: seq<Place>, lost: seq<Place>, reread: seq<Place>, forgotten: seq<Place>)
    requires ChangesNoted(was, before, noted, lost) && noted <= reread && lost <= forgotten
    requires forall p | p != place :: HeldAt(held, p) == HeldAt(before, p)
    requires Content(HeldAt(held, place)) != Content(HeldAt(before, place)) ==> place in reread || place in forgotten
    ensures ChangesNoted(was, held, reread, forgotten)
  {
    assert forall p | p in noted :: p in reread;
    assert forall p | p in lost :: p in forgotten;
  }

  lemma NotedGone(
    was: map<Place, Held>, before: map<Place, Held>, held: map<Place, Held>, places: set<Place>,
    reread: seq<Place>, forgotten: seq<Place>, gone: seq<Place>)
    requires ChangesNoted(was, before, reread, forgotten)
    requires forall p :: HeldAt(held, p) == if p in places then None else HeldAt(before, p)
    requires forall p | p in places :: p in gone
    ensures ChangesNoted(was, held, reread, forgotten + gone)
  {
  }

  lemma FoundOneMore(scan: Scan, table: string, entries: seq<Entry>, i: nat)
    requires i < |entries|
    ensures FoundAll(scan, table, entries[..i + 1])
         == FoundAll(scan, table, entries[..i]) + FoundAt(scan, table, entries[..i], entries[i])
  {
    assert entries[..i + 1][..i] == entries[..i];
  }

  lemma NothingScanned(scan: Scan, table: string, entries: seq<Entry>, was: map<Place, Held>)
    ensures ScannedTo(scan, table, entries, 0, was, was, set p | p in was && p.table == table)
    ensures FoundAll(scan, table, []) == []
  {
  }

  lemma NothingWanted(scan: Scan)
    ensures forall p :: Wanted(scan, p, None) == None
  {
  }

  /** An entry still to come is as it was. */
  lemma NotYetScanned(
    scan: Scan, table: string, entries: seq<Entry>, i: nat, was: map<Place, Held>, held: map<Place, Held>,
      stamps: set<Place>)
    requires i < |entries| && DistinctEntries(entries) && ScannedTo(scan, table, entries, i, was, held, stamps)
    ensures HeldAt(held, Place(table, entries[i].name)) == HeldAt(was, Place(table, entries[i].name))
  {
    ItemOf(entries, i);
    assert PlaceScanned(scan, table, entries, i, was, held, stamps, Place(table, entries[i].name));
  }

  /**
   When every entry is done and what is left of the stamps is forgotten, the mirror is as reading
   everything makes it.
   */
  lemma ScannedAll(
    scan: Scan, table: string, entries: seq<Entry>, was: map<Place, Held>, before: map<Place, Held>, held: map<Place,
      Held>, stamps: set<Place>)
    requires ScannedTo(scan, table, entries, |entries|, was, before, stamps)
    requires forall p :: HeldAt(held, p) == if p in stamps then None else HeldAt(before, p)
    ensures forall p: Place | p.table == table :: Content(HeldAt(held, p)) == Wanted(scan, p, ItemAt(entries, p.name))
    ensures forall p: Place | p.table != table :: HeldAt(held, p) == HeldAt(was, p)
  {
    hide Admitted, Wanted;
    assert entries[..|entries|] == entries;
    forall p: Place ensures p.table == table ==> Content(HeldAt(held, p)) == Wanted(scan, p, ItemAt(entries, p.name))
      ensures p.table != table ==> HeldAt(held, p) == HeldAt(was, p)
    {
      assert PlaceScanned(scan, table, entries, |entries|, was, before, stamps, p);
      NotAdmittedNotWanted(scan, p, ItemAt(entries, p.name));
    }
  }

  lemma NotAdmittedNotWanted(scan: Scan, place: Place, item: Option<Item>)
    ensures item.None? || !Admitted(scan, place, item.value) ==> Wanted(scan, place, item) == None
  {
  }

  lemma {:induction false} ScannedOneMore(
    scan: Scan, table: string, entries: seq<Entry>, i: nat, was: map<Place, Held>,
    before: map<Place, Held>, held: map<Place, Held>, stampsBefore: set<Place>, stamps: set<Place>)
    requires i < |entries| && DistinctEntries(entries)
    requires ScannedTo(scan, table, entries, i, was, before, stampsBefore)
    requires var place := Place(table, entries[i].name);
      if Admitted(scan, place, entries[i].item)
      then stamps == stampsBefore - {place}
        && Content(HeldAt(held, place)) == Wanted(scan, place, Some(entries[i].item))
        && forall p | p != place :: HeldAt(held, p) == HeldAt(before, p)
      else stamps == stampsBefore && held == before
    ensures ScannedTo(scan, table, entries, i + 1, was, held, stamps)
  {
    hide Admitted, Wanted;
    ItemOf(entries, i);
    var n := i + 1;
    forall p ensures PlaceScanned(scan, table, entries, n, was, held, stamps, p) {
      ItemOneMore(entries, i, p.name);
      assert PlaceScanned(scan, table, entries, i, was, before, stampsBefore, p);
    }
  }

  /** Forget the files at some places. */
  method ForgetAll(mirror: Mirror, scan: Scan, places: set<Place>) returns (forgotten: seq<Place>)
    requires Judges(scan, mirror.held)
    modifies mirror
    ensures Judges(scan, mirror.held)
    ensures forall p :: HeldAt(mirror.held, p) == if p in places then None else HeldAt(old(mirror.held), p)
    ensures forall p | p in places :: p in forgotten
  {
    forgotten := [];
    var left := places;
    ghost var was := mirror.held;
    while left != {}
      invariant left <= places && Judges(scan, mirror.held)
      invariant forall p :: HeldAt(mirror.held, p) == if p in places && p !in left then None else HeldAt(was, p)
      invariant forall p | p in places && p !in left :: p in forgotten
    {
      var place :| place in left;
      mirror.Remove(place);
      forgotten := forgotten + [place];
      left := left - {place};
    }
  }

  // ----- taking only what is reported -------------------------------------------------------------------

  /** The folder: what stands at each place, and what its tables' directories hold. */
  datatype Folder = Folder(tables: set<string>, items: map<Place, Item>)

  function Standing(folder: Folder, place: Place): Option<Item> {
    if place in folder.items then Some(folder.items[place]) else None
  }

  /** A path that is a row file's, of a table whose schema loads. */
  predicate RowFile(folder: Folder, place: Place) {
    place.table in folder.tables && EndsInJson(place.name)
  }

  /** The mirror's other files of a table whose names fold to this one. */
  predicate SharesName(scan: Scan, held: map<Place, Held>, place: Place) {
    exists p | p in held :: p.table == place.table && p != place && scan.fold(p.name) == scan.fold(place.name)
  }

  /**
   Nothing about a place is a fault of the folder's structure: it is ignored, or nothing is there,
   or it is admitted.
   */
  predicate Sound(scan: Scan, folder: Folder, place: Place) {
    scan.ignored(place) || place !in folder.items || Refusal(scan, place, folder.items[place]).None?
  }

  predicate Present(scan: Scan, folder: Folder, place: Place) {
    place.table in folder.tables && place in folder.items && folder.items[place].bytes.Some? && !scan.ignored(place)
  }

  ghost predicate FoldApart(scan: Scan, folder: Folder, p: Place, q: Place) {
    Present(scan, folder, p) && Present(scan, folder, q) && p != q && p.table == q.table ==>
      scan.fold(p.name) != scan.fold(q.name)
  }

  /** Whether a place is among the first of some. */
  ghost predicate AmongFirst(paths: seq<Place>, n: nat, place: Place)
    requires n <= |paths|
  {
    exists i | 0 <= i < n :: paths[i] == place
  }

  /** A name that is only an extension: a row file by its ending, and not by its extension. */
  predicate OnlyExtension(place: Place) {
    place.name == JSON
  }

  /** A place is as examining the folder whole would leave it, with nothing amiss about it. */
  ghost predicate AsExamined(scan: Scan, folder: Folder, held: map<Place, Held>, place: Place) {
    Content(HeldAt(held, place)) == Wanted(scan, place, Standing(folder, place)) && Sound(scan, folder, place)
  }

  /** Nothing is amiss about a place, and the mirror has it as it is: examined, or taken as it was reported. */
  ghost predicate InStep(scan: Scan, folder: Folder, held: map<Place, Held>, place: Place) {
    AsExamined(scan, folder, held, place) || PathTaken(scan, folder, held, place)
  }

  /** Every place of the folder is in step, and no two of its files have one name to a filesystem that folds names. */
  ghost predicate Current(scan: Scan, folder: Folder, held: map<Place, Held>) {
    && (forall p: Place | p.table in folder.tables :: InStep(scan, folder, held, p))
    && (forall p: Place, q: Place :: FoldApart(scan, folder, p, q))
  }

  /** The last observation found nothing about files, and every place not reported is as it left it. */
  ghost predicate QuietApart(scan: Scan, folder: Folder, held: map<Place, Held>, paths: seq<Place>) {
    && (forall p: Place | p.table in folder.tables && p !in paths :: InStep(scan, folder, held, p))
    && (forall p: Place, q: Place | p !in paths && q !in paths :: FoldApart(scan, folder, p, q))
  }

  /** A reported path is one about which nothing but its row can have changed. */
  predicate Takeable(scan: Scan, folder: Folder, held: map<Place, Held>, place: Place) {
    && RowFile(folder, place) && !scan.ignored(place)
    && (place in folder.items ==>
          && folder.items[place].kind == File && folder.items[place].links <= 1
          && folder.items[place].stat.size <= scan.maxSize && !SharesName(scan, held, place))
  }

  /** A stamp that is trusted of a file as it stands means its bytes are those last read. */
  ghost predicate Honest(scan: Scan, folder: Folder, held: map<Place, Held>) {
    forall p | p in held :: HonestAt(scan, folder, held, p)
  }

  ghost predicate HonestAt(scan: Scan, folder: Folder, held: map<Place, Held>, place: Place) {
    place in held && place in folder.items && Trusted(held[place], folder.items[place].stat, scan.granularity) ==>
      folder.items[place].bytes == Some(held[place].bytes)
  }

  /** Take one reported path, if nothing about it but its row can have changed. */
  method TakePath(mirror: Mirror, scan: Scan, folder: Folder, place: Place)
    returns (ok: bool, reread: seq<Place>, forgotten: seq<Place>)
    requires Judges(scan, mirror.held)
    modifies mirror
    ensures Judges(scan, mirror.held)
    ensures forall p | p != place :: HeldAt(mirror.held, p) == HeldAt(old(mirror.held), p)
    ensures ChangesNoted(old(mirror.held), mirror.held, reread, forgotten)
    ensures ok <==> Takeable(scan, folder, old(mirror.held), place)
    ensures ok ==> PathTaken(scan, folder, mirror.held, place)
    ensures HonestAt(scan, folder, old(mirror.held), place) ==> HonestAt(scan, folder, mirror.held, place)
  {
    ok, reread, forgotten := false, [], [];
    if !RowFile(folder, place) || scan.ignored(place) { return; }
    if place !in folder.items {
      if place in mirror.held {
        mirror.Remove(place);
        forgotten := [place];
      }
      return true, reread, forgotten;
    }
    var item := folder.items[place];
    if item.kind != File || item.links > 1 || item.stat.size > scan.maxSize || SharesName(scan, mirror.held, place) {
      return;
    }
    if item.bytes.None? {
      if place in mirror.held {
        mirror.Remove(place);
        forgotten := [place];
      }
      return true, reread, forgotten;
    }
    if place in mirror.held && mirror.held[place].bytes == item.bytes.value {
      mirror.Touch(place, item.stat, scan.seen);
    } else {
      reread := [place];
      mirror.Put(place, Read(scan, place, item, item.bytes.value));
    }
    ok := true;
  }

  /**
   Take the paths a monitor reported changed. When it does -- and the report
   covers every place that is not already as the folder has it -- the mirror is
   in step with the folder everywhere: as examining it whole would leave it,
   but for a file named by an extension alone.
   */
  method TakeWatched(mirror: Mirror, scan: Scan, folder: Folder, quiet: bool, paths: seq<Place>)
    returns (taken: bool, reread: seq<Place>, forgotten: seq<Place>)
    requires Judges(scan, mirror.held)
    requires quiet ==> QuietApart(scan, folder, mirror.held, paths)
    modifies mirror
    ensures Judges(scan, mirror.held)
    ensures Honest(scan, folder, old(mirror.held)) ==> Honest(scan, folder, mirror.held)
    ensures ChangesNoted(old(mirror.held), mirror.held, reread, forgotten)
    ensures taken ==> quiet && forall p | p in paths :: PathTaken(scan, folder, mirror.held, p)
    ensures taken ==> Current(scan, folder, mirror.held)
  {
    taken, reread, forgotten := false, [], [];
    hide PathTaken, SharesName, FoldApart, AsExamined, Present, Takeable, Honest, HonestAt, RowFile, InStep;
    ghost var was := mirror.held;
    if !quiet { return; }
    for i := 0 to |paths|
      invariant Judges(scan, mirror.held) && ChangesNoted(was, mirror.held, reread, forgotten)
      invariant Honest(scan, folder, was) ==> Honest(scan, folder, mirror.held)
      invariant forall p | !AmongFirst(paths, i, p) :: HeldAt(mirror.held, p) == HeldAt(was, p)
      invariant forall p | AmongFirst(paths, i, p) :: PathTaken(scan, folder, mirror.held, p)
      invariant forall p, q | AmongFirst(paths, i, p) && (AmongFirst(paths, i, q) || q !in paths) ::
        FoldApart(scan, folder, p, q)
    {
      ghost var before := mirror.held;
      var ok, read, gone := TakePath(mirror, scan, folder, paths[i]);
      NotedBoth(was, before, mirror.held, reread, forgotten, read, gone);
      StaysHonest(scan, folder, before, mirror.held, paths[i]);
      reread, forgotten := reread + read, forgotten + gone;
      if !ok { return; }
      OneMorePath(paths, i);
      forall p | AmongFirst(paths, i, p) && p != paths[i] ensures PathTaken(scan, folder, mirror.held, p) {
        SameTaken(scan, folder, before, mirror.held, p);
      }
      TakeableIsApart(scan, folder, before, paths[i]);
      ApartFromItself(scan, folder, paths[i]);
      forall q | AmongFirst(paths, i, q) || q !in paths
        ensures FoldApart(scan, folder, paths[i], q) && FoldApart(scan, folder, q, paths[i])
      {
        if q !in paths && q.table in folder.tables { SameStep(scan, folder, was, before, q); }
        if AmongFirst(paths, i, q) { TakenIsInStep(scan, folder, before, q); }
        ApartFromHeld(scan, folder, before, paths[i], q);
      }
    }
    forall p ensures AmongFirst(paths, |paths|, p) <==> p in paths {
      if p in paths { var i :| 0 <= i < |paths| && paths[i] == p; }
    }
    forall p: Place | p.table in folder.tables ensures InStep(scan, folder, mirror.held, p) {
      if p in paths { TakenIsInStep(scan, folder, mirror.held, p); }
        else { SameStep(scan, folder, was, mirror.held, p); }
    }
    forall p: Place, q: Place ensures FoldApart(scan, folder, p, q) {
      ApartIsMutual(scan, folder, p, q);
    }
    taken := true;
  }

  lemma StaysHonest(scan: Scan, folder: Folder, before: map<Place, Held>, held: map<Place, Held>, place: Place)
    requires forall p | p != place :: HeldAt(held, p) == HeldAt(before, p)
    requires HonestAt(scan, folder, before, place) ==> HonestAt(scan, folder, held, place)
    ensures Honest(scan, folder, before) ==> Honest(scan, folder, held)
  {
    hide Trusted;
    if Honest(scan, folder, before) {
      assert place in before ==> HonestAt(scan, folder, before, place);
      forall p | p in held ensures HonestAt(scan, folder, held, p) {
        if p != place {
          assert HeldAt(held, p) == HeldAt(before, p);
          assert HonestAt(scan, folder, before, p);
        }
      }
    }
  }

  lemma NotedBoth(
    was: map<Place, Held>, before: map<Place, Held>, held: map<Place, Held>,
    reread: seq<Place>, forgotten: seq<Place>, read: seq<Place>, gone: seq<Place>)
    requires ChangesNoted(was, before, reread, forgotten) && ChangesNoted(before, held, read, gone)
    ensures ChangesNoted(was, held, reread + read, forgotten + gone)
  {
    hide Content;
  }

  lemma SameTaken(scan: Scan, folder: Folder, before: map<Place, Held>, held: map<Place, Held>, place: Place)
    requires PathTaken(scan, folder, before, place) && HeldAt(held, place) == HeldAt(before, place)
    ensures PathTaken(scan, folder, held, place)
  {
  }

  lemma SameStep(scan: Scan, folder: Folder, before: map<Place, Held>, held: map<Place, Held>, place: Place)
    requires InStep(scan, folder, before, place) && HeldAt(held, place) == HeldAt(before, place)
    ensures InStep(scan, folder, held, place)
  {
  }

  lemma TakenIsInStep(scan: Scan, folder: Folder, held: map<Place, Held>, place: Place)
    requires PathTaken(scan, folder, held, place)
    ensures InStep(scan, folder, held, place)
  {
  }

  lemma TakeableIsApart(scan: Scan, folder: Folder, held: map<Place, Held>, place: Place)
    requires Takeable(scan, folder, held, place)
    ensures Present(scan, folder, place) ==> !SharesName(scan, held, place)
  {
    hide SharesName;
  }

  lemma ApartFromItself(scan: Scan, folder: Folder, p: Place)
    ensures FoldApart(scan, folder, p, p)
  {
  }

  lemma ApartIsMutual(scan: Scan, folder: Folder, p: Place, q: Place)
    ensures FoldApart(scan, folder, p, q) <==> FoldApart(scan, folder, q, p)
  {
  }

  /** A file taken shares its name with none the mirror holds, and the mirror holds every other file there. */
  lemma ApartFromHeld(scan: Scan, folder: Folder, held: map<Place, Held>, place: Place, other: Place)
    requires Present(scan, folder, place) ==> !SharesName(scan, held, place)
    requires other.table in folder.tables ==> InStep(scan, folder, held, other)
    ensures FoldApart(scan, folder, place, other) && FoldApart(scan, folder, other, place)
  {
    if Present(scan, folder, place) && Present(scan, folder, other) && place != other && place.table == other.table {
      assert other in held;
    }
  }

  lemma OneMorePath(paths: seq<Place>, i: nat)
    requires i < |paths|
    ensures forall p :: AmongFirst(paths, i + 1, p) <==> AmongFirst(paths, i, p) || p == paths[i]
  {
    var n := i + 1;
    forall p | AmongFirst(paths, i, p) || p == paths[i] ensures AmongFirst(paths, n, p) {
      if AmongFirst(paths, i, p) {
        var j :| 0 <= j < i && paths[j] == p;
        assert paths[j] == p && 0 <= j < n;
      } else {
        assert paths[i] == p && 0 <= i < n;
      }
    }
  }

  /** What reading a place makes of it, whatever its extension. */
  function ReadAnyway(scan: Scan, place: Place, item: Option<Item>): Option<(string, Judged)> {
    if item.Some? && item.value.bytes.Some?
    then Some((item.value.bytes.value, scan.judge(place, item.value.bytes.value))) else None
  }

  /** A reported path is taken: it is a row file's, nothing about it is amiss, and it is as reading it makes it. */
  ghost predicate PathTaken(scan: Scan, folder: Folder, held: map<Place, Held>, place: Place) {
    && RowFile(folder, place) && !scan.ignored(place)
    && Content(HeldAt(held, place)) == ReadAnyway(scan, place, Standing(folder, place))
    && (place in folder.items ==>
         folder.items[place].kind == File && folder.items[place].links <= 1
           && folder.items[place].stat.size <= scan.maxSize)
  }

  lemma TakenIsWanted(scan: Scan, folder: Folder, held: map<Place, Held>, place: Place)
    requires PathTaken(scan, folder, held, place) && !OnlyExtension(place)
    ensures AsExamined(scan, folder, held, place)
  {
    assert place.name[0..] == place.name;
  }

  /**
   A place named by its extension alone, once taken, is as examining would
   leave it exactly when no file is there to read.
   */
  lemma OnlyExtensionDiffers(scan: Scan, folder: Folder, held: map<Place, Held>, place: Place)
    requires PathTaken(scan, folder, held, place) && OnlyExtension(place)
    ensures Content(HeldAt(held, place)) == Wanted(scan, place, Standing(folder, place)) <==>
      !Present(scan, folder, place)
  {
    assert place.name[0..] == JSON;
  }

  /** And such a file is taken, and held, where examining would refuse it. */
  lemma OnlyExtensionIsTaken(scan: Scan, bytes: string)
    requires !scan.ignored(Place("t", JSON))
    ensures var place, item := Place("t", JSON), Item(File, 1, Stat(0, 0, 0), Some(bytes));
      var folder := Folder({"t"}, map[place := item]);
      && Takeable(scan, folder, map[], place) && Present(scan, folder, place)
      && Refusal(scan, place, item) == Some("UNEXPECTED_FILE") && Wanted(scan, place, Some(item)) == None
  {
    assert JSON[0..] == JSON;
  }

  // ----- one observation after another --------------------------------------------------------------

  /** What a table's directory is, and what it lists. */
  datatype Listing = Listing(directory: Option<Kind>, entries: seq<Entry>)

  ghost predicate Lists(folder: Folder, table: string, listing: Listing) {
    && DistinctEntries(listing.entries) && (listing.directory != Some(Dir) ==> listing.entries == [])
    && forall name :: ItemAt(listing.entries, name) == Standing(folder, Place(table, name))
  }

  /** The same files are ignored, refused and judged alike. */
  ghost predicate SameRules(scan: Scan, later: Scan) {
    later.ignored == scan.ignored && later.fold == scan.fold && later.maxSize == scan.maxSize
      && later.judge == scan.judge
  }

  /** What changed of a folder is among the paths reported. */
  ghost predicate Covers(folder: Folder, later: Folder, paths: seq<Place>) {
    later.tables == folder.tables &&
    forall p: Place | p.table in folder.tables && p !in paths :: Standing(later, p) == Standing(folder, p)
  }

  lemma ReportCovers(scan: Scan, later: Scan, folder: Folder, now: Folder, held: map<Place, Held>, paths: seq<Place>)
    requires SameRules(scan, later) && Covers(folder, now, paths) && Current(scan, folder, held)
    ensures QuietApart(later, now, held, paths)
  {
    hide InStep, FoldApart;
    forall p: Place | p.table in now.tables && p !in paths ensures InStep(later, now, held, p) {
      StepCarries(scan, later, folder, now, held, p);
    }
    forall p: Place, q: Place | p !in paths && q !in paths ensures FoldApart(later, now, p, q) {
      ApartCarries(scan, later, folder, now, paths, p, q);
    }
  }

  lemma StepCarries(scan: Scan, later: Scan, folder: Folder, now: Folder, held: map<Place, Held>, place: Place)
    requires SameRules(scan, later) && now.tables == folder.tables && Standing(now, place) == Standing(folder, place)
    requires InStep(scan, folder, held, place)
    ensures InStep(later, now, held, place)
  {
  }

  lemma ApartCarries(scan: Scan, later: Scan, folder: Folder, now: Folder, paths: seq<Place>, p: Place, q: Place)
    requires SameRules(scan, later) && Covers(folder, now, paths) && p !in paths && q !in paths
    requires FoldApart(scan, folder, p, q)
    ensures FoldApart(later, now, p, q)
  {
    if p.table in folder.tables && q.table in folder.tables {
      assert Standing(now, p) == Standing(folder, p) && Standing(now, q) == Standing(folder, q);
    }
  }

  /** A table examined whole with nothing found is in step, and no two of its files share a name. */
  lemma QuietIsInStep(scan: Scan, folder: Folder, table: string, listing: Listing, held: map<Place, Held>)
    requires table in folder.tables && Lists(folder, table, listing) && FoundAll(scan, table, listing.entries) == []
    requires forall p: Place | p.table == table ::
      Content(HeldAt(held, p)) == Wanted(scan, p, ItemAt(listing.entries, p.name))
    ensures forall p: Place | p.table == table :: InStep(scan, folder, held, p)
    ensures forall p: Place, q: Place | p.table == table :: FoldApart(scan, folder, p, q)
  {
    hide Content, Wanted, Refusal, FoldedIn;
    forall p: Place | p.table == table ensures InStep(scan, folder, held, p) {
      assert ItemAt(listing.entries, p.name) == Standing(folder, Place(table, p.name)) && p == Place(table, p.name);
      if p in folder.items {
        var i := EntryOf(listing.entries, p.name);
        NothingFoundAt(scan, table, listing.entries, i);
      }
    }
    forall p: Place, q: Place | p.table == table ensures FoldApart(scan, folder, p, q) {
      if Present(scan, folder, p) && Present(scan, folder, q) && p != q && p.table == q.table {
        assert p == Place(table, p.name) && q == Place(table, q.name);
        assert ItemAt(listing.entries, p.name) == Standing(folder, p)
          && ItemAt(listing.entries, q.name) == Standing(folder, q);
        var i := EntryOf(listing.entries, p.name);
        var j := EntryOf(listing.entries, q.name);
        if i < j { NamesApart(scan, table, listing.entries, i, j); }
          else { NamesApart(scan, table, listing.entries, j, i); }
      }
    }
  }

  lemma {:induction false} EntryOf(entries: seq<Entry>, name: string) returns (i: nat)
    requires ItemAt(entries, name).Some?
    ensures i < |entries| && entries[i].name == name && ItemAt(entries, name) == Some(entries[i].item)
  {
    if entries[|entries| - 1].name == name {
      i := |entries| - 1;
    } else {
      i := EntryOf(entries[..|entries| - 1], name);
    }
  }

  lemma {:induction false} NothingFoundAt(scan: Scan, table: string, entries: seq<Entry>, i: nat)
    requires i < |entries| && FoundAll(scan, table, entries) == []
    ensures FoundAt(scan, table, entries[..i], entries[i]) == []
    ensures scan.ignored(Place(table, entries[i].name))
      || Refusal(scan, Place(table, entries[i].name), entries[i].item).None?
  {
    hide FoldedIn, Refusal;
    var front := entries[..|entries| - 1];
    if i < |front| {
      NothingFoundAt(scan, table, front, i);
      assert front[..i] == entries[..i];
    }
  }

  lemma NamesApart(scan: Scan, table: string, entries: seq<Entry>, i: nat, j: nat)
    requires i < j < |entries| && FoundAll(scan, table, entries) == []
    requires !scan.ignored(Place(table, entries[i].name)) && !scan.ignored(Place(table, entries[j].name))
    ensures scan.fold(entries[i].name) != scan.fold(entries[j].name)
  {
    NothingFoundAt(scan, table, entries, j);
    assert entries[i] in entries[..j];
  }

  lemma HonestStamps(scan: Scan, folder: Folder, held: map<Place, Held>, table: string, listing: Listing)
    requires Honest(scan, folder, held) && Lists(folder, table, listing)
    ensures StampsHold(scan, held, table, listing.entries)
  {
    hide Trusted;
    forall e | e in listing.entries && Place(table, e.name) in held
      ensures Trusted(held[Place(table, e.name)], e.item.stat, scan.granularity) ==>
        e.item.bytes == Some(held[Place(table, e.name)].bytes)
    {
      var i :| 0 <= i < |listing.entries| && listing.entries[i] == e;
      ItemOf(listing.entries, i);
      assert ItemAt(listing.entries, e.name) == Standing(folder, Place(table, e.name));
      assert HonestAt(scan, folder, held, Place(table, e.name));
    }
  }

  /** What holds of the mirror once some of the tables have been examined, when `found` is what that found. */
  ghost predicate Examined(
    scan: Scan, folder: Folder, was: map<Place, Held>, held: map<Place, Held>, left: set<string>, found: seq<Finding>)
  {
    && (forall p: Place | p.table in folder.tables && p.table !in left ::
          Content(HeldAt(held, p)) == Wanted(scan, p, Standing(folder, p)))
    && (forall p: Place | p.table !in folder.tables || p.table in left :: HeldAt(held, p) == HeldAt(was, p))
    && (found == [] ==>
          && (forall p: Place | p.table in folder.tables && p.table !in left :: InStep(scan, folder, held, p))
          && (forall p: Place, q: Place | p.table in folder.tables && p.table !in left ::
            FoldApart(scan, folder, p, q)))
  }

  lemma ExaminedOneMore(
    scan: Scan, folder: Folder, was: map<Place, Held>, before: map<Place, Held>, held: map<Place, Held>,
    left: set<string>, table: string, listing: Listing, found: seq<Finding>, more: seq<Finding>)
    requires Examined(scan, folder, was, before, left, found) && table in left && left <= folder.tables
    requires Lists(folder, table, listing)
    requires forall p: Place | p.table == table ::
      Content(HeldAt(held, p)) == Wanted(scan, p, ItemAt(listing.entries, p.name))
    requires forall p: Place | p.table != table :: HeldAt(held, p) == HeldAt(before, p)
    requires more == [] ==> FoundAll(scan, table, listing.entries) == []
    ensures Examined(scan, folder, was, held, left - {table}, found + more)
  {
    hide InStep, FoldApart, Wanted, Content;
    if found + more == [] {
      QuietIsInStep(scan, folder, table, listing, held);
      forall p: Place | p.table in folder.tables && p.table !in left ensures InStep(scan, folder, held, p) {
        SameStep(scan, folder, before, held, p);
      }
    }
    forall p: Place | p.table == table ensures ItemAt(listing.entries, p.name) == Standing(folder, p) {
      assert p == Place(table, p.name);
    }
  }

  /**
   Bring the mirror in line with the folder: by what is reported changed, where
   that will do, or by examining every table. Whichever way, it then holds what
   examining an empty mirror's folder would put there -- but for a file named by
   an extension alone, taken as reported -- and an observation that finds nothing
   leaves the next report enough to go by.
   */
  method Refresh(
    mirror: Mirror, scan: Scan, folder: Folder, listings: map<string, Listing>, quiet: bool, report: Option<seq<Place>>,
    ghost earlier: Scan, ghost once: Folder)
    returns (taken: bool, findings: seq<Finding>, reread: seq<Place>, forgotten: seq<Place>)
    requires Judges(scan, mirror.held) && Honest(scan, folder, mirror.held)
    requires forall t | t in folder.tables :: t in listings && Lists(folder, t, listings[t])
    requires quiet && report.Some? ==>
      SameRules(earlier, scan) && Current(earlier, once, mirror.held) && Covers(once, folder, report.value)
    modifies mirror
    ensures Judges(scan, mirror.held)
    ensures ChangesNoted(old(mirror.held), mirror.held, reread, forgotten)
    ensures forall p: Place | p.table in folder.tables && !(taken && OnlyExtension(p)) ::
      Content(HeldAt(mirror.held, p)) == Wanted(scan, p, Standing(folder, p))
    ensures taken || findings == [] ==> Current(scan, folder, mirror.held)
  {
    hide Judges, Honest, Lists, Current, ChangesNoted, InStep, FoldApart, PathTaken, Wanted, Content, AsExamined,
      FoundAll,
      QuietApart, StampsHold, SameRules, Covers, Examined, DistinctEntries;
    taken, findings, reread, forgotten := false, [], [], [];
    NoneNoted(mirror.held);
    if report.Some? && quiet {
      ReportCovers(earlier, scan, once, folder, mirror.held, report.value);
      taken, reread, forgotten := TakeWatched(mirror, scan, folder, quiet, report.value);
      if taken {
        CurrentIsWanted(scan, folder, mirror.held);
        return;
      }
    }
    ghost var was, noted, lost := mirror.held, reread, forgotten;
    NoneExamined(scan, folder, was);
    var left := folder.tables;
    while left != {}
      invariant left <= folder.tables && Judges(scan, mirror.held) && Honest(scan, folder, mirror.held)
      invariant ChangesNoted(old(mirror.held), mirror.held, reread, forgotten)
      invariant Examined(scan, folder, was, mirror.held, left, findings)
    {
      var table :| table in left;
      var listing := listings[table];
      ghost var before := mirror.held;
      HonestStamps(scan, folder, mirror.held, table, listing);
      ListingIs(folder, table, listing);
      var read, gone, found := ScanTable(mirror, scan, table, listing.directory, listing.entries);
      NotedBoth(old(mirror.held), before, mirror.held, reread, forgotten, read, gone);
      FoundNothing(scan, table, listing, found);
      ExaminedOneMore(scan, folder, was, before, mirror.held, left, table, listing, findings, found);
      ScanIsHonest(scan, folder, before, mirror.held, table, listing);
      reread, forgotten, findings := reread + read, forgotten + gone, findings + found;
      left := left - {table};
    }
    AllExamined(scan, folder, was, mirror.held, findings);
  }

  lemma NoneExamined(scan: Scan, folder: Folder, held: map<Place, Held>)
    ensures Examined(scan, folder, held, held, folder.tables, [])
  {
  }

  lemma ListingIs(folder: Folder, table: string, listing: Listing)
    requires Lists(folder, table, listing)
    ensures DistinctEntries(listing.entries) && (listing.directory != Some(Dir) ==> listing.entries == [])
  {
  }

  lemma FoundNothing(scan: Scan, table: string, listing: Listing, found: seq<Finding>)
    requires listing.directory != Some(Dir) ==> listing.entries == []
    requires found ==
      if listing.directory.Some? && listing.directory != Some(Dir) then [NotADirectory(table)]
      else FoundAll(scan, table, listing.entries)
    ensures found == [] ==> FoundAll(scan, table, listing.entries) == []
  {
  }

  /** What has just been examined is as it stands, whatever its stamp. */
  lemma ScanIsHonest(
    scan: Scan, folder: Folder, before: map<Place, Held>, held: map<Place, Held>, table: string, listing: Listing)
    requires Honest(scan, folder, before) && Lists(folder, table, listing)
    requires forall p: Place | p.table == table ::
      Content(HeldAt(held, p)) == Wanted(scan, p, ItemAt(listing.entries, p.name))
    requires forall p: Place | p.table != table :: HeldAt(held, p) == HeldAt(before, p)
    ensures Honest(scan, folder, held)
  {
    hide Trusted, Admitted;
    forall p | p in held ensures HonestAt(scan, folder, held, p) {
      if p.table == table {
        assert p == Place(table, p.name) && ItemAt(listing.entries, p.name) == Standing(folder, p);
      } else {
        assert HeldAt(held, p) == HeldAt(before, p);
        assert HonestAt(scan, folder, before, p);
      }
    }
  }

  lemma CurrentIsWanted(scan: Scan, folder: Folder, held: map<Place, Held>)
    requires Current(scan, folder, held)
    ensures forall p: Place | p.table in folder.tables && !OnlyExtension(p) ::
      Content(HeldAt(held, p)) == Wanted(scan, p, Standing(folder, p))
  {
    hide PathTaken, Content, Wanted, Sound;
    forall p: Place | p.table in folder.tables && !OnlyExtension(p)
      ensures Content(HeldAt(held, p)) == Wanted(scan, p, Standing(folder, p))
    {
      assert InStep(scan, folder, held, p);
      if PathTaken(scan, folder, held, p) { TakenIsWanted(scan, folder, held, p); }
    }
  }

  lemma AllExamined(scan: Scan, folder: Folder, was: map<Place, Held>, held: map<Place, Held>, found: seq<Finding>)
    requires Examined(scan, folder, was, held, {}, found)
    ensures forall p: Place | p.table in folder.tables ::
      Content(HeldAt(held, p)) == Wanted(scan, p, Standing(folder, p))
    ensures found == [] ==> Current(scan, folder, held)
  {
    hide InStep, Content, Wanted;
    if found == [] {
      forall p: Place, q: Place ensures FoldApart(scan, folder, p, q) {
        if p.table !in folder.tables { assert !Present(scan, folder, p); }
      }
    }
  }
}
