/** The merge as it would be had every conflict gone their way. */
module TheirsResolved {
  import opened Json
  import opened Document
  import opened Merging
  import opened MergeDocuments

  function Insert(members: seq<Entry>, name: string, t: Tree): seq<Entry> {
    if Has(members, name) then members[IndexOf(members, name) := Entry(name, t)] else members + [Entry(name, t)]
  }

  function Remove(members: seq<Entry>, name: string): seq<Entry> {
    if Has(members, name)
    then members[..IndexOf(members, name)] + members[IndexOf(members, name) + 1..]
    else members
  }

  /** Put a tree at a path -- or take the member away. */
  function SetTree(root: Tree, p: Path, t: Option<Tree>): Tree
    decreases p
  {
    if p == [] then (if t.Some? then t.value else root)
    else if !root.Dict? then root
    else if |p| == 1 then
      Dict(if t.Some? then Insert(root.members, p[0], t.value) else Remove(root.members, p[0]))
    else if Has(root.members, p[0]) then
      Dict(Insert(root.members, p[0], SetTree(Find(root.members, p[0]), p[1..], t)))
    else root
  }

  function ResolveTheirs(root: Tree, conflicts: seq<Conflict>): Tree {
    if conflicts == [] then root
    else
      var last := conflicts[|conflicts| - 1];
      SetTree(ResolveTheirs(root, conflicts[..|conflicts| - 1]), last.pointer, last.theirs)
  }

  // ----- members ---------------------------------------------------------------------------

  lemma {:induction false} FoundAt(members: seq<Entry>, i: nat)
    requires DistinctNames(members) && i < |members|
    ensures Lookup(members, members[i].name) == Some(members[i].value)
  {
    IndexOfMember(members, i);
  }

  lemma {:induction false} FoundSomewhere(members: seq<Entry>, name: string)
    ensures Lookup(members, name).Some? ==> exists i | 0 <= i < |members| ::
      members[i] == Entry(name, Lookup(members, name).value)
    ensures Lookup(members, name).None? ==> forall i | 0 <= i < |members| :: members[i].name != name
  {
  }

  lemma {:induction false} ReplacedMembers(members: seq<Entry>, k: nat, t: Tree)
    requires DistinctNames(members) && k < |members|
    ensures var now := members[k := Entry(members[k].name, t)];
      && DistinctNames(now)
      && forall n :: Lookup(now, n) == if n == members[k].name then Some(t) else Lookup(members, n)
  {
    hide Lookup;
    var now := members[k := Entry(members[k].name, t)];
    assert forall i | 0 <= i < |members| :: now[i].name == members[i].name;
    FoundAt(now, k);
    forall n | n != members[k].name ensures Lookup(now, n) == Lookup(members, n) {
      FoundSomewhere(members, n);
      FoundSomewhere(now, n);
      if Lookup(members, n).Some? {
        var i :| 0 <= i < |members| && members[i] == Entry(n, Lookup(members, n).value);
        assert now[i] == members[i];
        FoundAt(now, i);
      }
    }
  }

  lemma {:induction false} AppendedMembers(members: seq<Entry>, name: string, t: Tree)
    requires DistinctNames(members) && !Has(members, name)
    ensures DistinctNames(members + [Entry(name, t)])
    ensures forall n :: Lookup(members + [Entry(name, t)], n) == if n == name then Some(t) else Lookup(members, n)
  {
    hide Lookup;
    var now := members + [Entry(name, t)];
    FoundAt(now, |members|);
    forall n | n != name ensures Lookup(now, n) == Lookup(members, n) {
      FoundSomewhere(members, n);
      FoundSomewhere(now, n);
      if Lookup(members, n).Some? {
        var i :| 0 <= i < |members| && members[i] == Entry(n, Lookup(members, n).value);
        assert now[i] == members[i];
        FoundAt(now, i);
      } else {
        assert forall i | 0 <= i < |now| :: now[i].name != n;
      }
    }
  }

  lemma {:induction false} InsertedMembers(members: seq<Entry>, name: string, t: Tree)
    requires DistinctNames(members)
    ensures DistinctNames(Insert(members, name, t))
    ensures forall n :: Lookup(Insert(members, name, t), n) == if n == name then Some(t) else Lookup(members, n)
  {
    hide Lookup, DistinctNames;
    if Has(members, name) {
      ReplacedMembers(members, IndexOf(members, name), t);
    } else {
      AppendedMembers(members, name, t);
    }
  }

  lemma {:induction false} RemovedMembers(members: seq<Entry>, name: string)
    requires DistinctNames(members)
    ensures DistinctNames(Remove(members, name))
    ensures forall n :: Lookup(Remove(members, name), n) == if n == name then None else Lookup(members, n)
  {
    hide Lookup;
    var now := Remove(members, name);
    var k := IndexOf(members, name);
    assert forall i | 0 <= i < |now| :: now[i] == members[if i < k then i else i + 1];
    forall n ensures Lookup(now, n) == if n == name then None else Lookup(members, n) {
      FoundSomewhere(members, n);
      FoundSomewhere(now, n);
      if n == name {
        assert forall i | 0 <= i < |now| :: now[i].name != name;
      } else if Lookup(members, n).Some? {
        var j :| 0 <= j < |members| && members[j] == Entry(n, Lookup(members, n).value);
        var i := if j < k then j else j - 1;
        assert now[i] == members[j];
        FoundAt(now, i);
      }
    }
  }

  /** Setting a tree is setting its content. */
  lemma {:induction false} SetTreeSetsContent(root: Tree, p: Path, t: Option<Tree>)
    requires WellFormed(root) && WellFormedOption(t)
    ensures WellFormed(SetTree(root, p, t))
    ensures Content(SetTree(root, p, t)) == SetAt(Content(root), p, ContentOf(t))
    decreases p
  {
    DictsAreObjects(Some(root));
    if p != [] && root.Dict? {
      var members := root.members;
      ContentMember(members, p[0]);
      if |p| == 1 {
        if t.Some? { Inserted(root, p[0], t.value); } else { Removed(root, p[0]); }
      } else if Has(members, p[0]) {
        SetTreeSetsContent(Find(members, p[0]), p[1..], t);
        Inserted(root, p[0], SetTree(Find(members, p[0]), p[1..], t));
      }
    }
  }

  lemma {:induction false} Inserted(root: Tree, name: string, t: Tree)
    requires WellFormed(root) && WellFormed(t) && root.Dict?
    ensures WellFormed(Dict(Insert(root.members, name, t)))
    ensures Content(root).Object?
    ensures Content(Dict(Insert(root.members, name, t))) == Object(Content(root).members[name := Content(t)])
  {
    var now := Insert(root.members, name, t);
    InsertedMembers(root.members, name, t);
    DictsAreObjects(Some(root));
    DictsAreObjects(Some(Dict(now)));
    hide Content;
    forall n
      ensures Get(Some(Content(Dict(now))), n) == Get(Some(Object(Content(root).members[name := Content(t)])), n)
    {
      ContentMember(now, n);
      ContentMember(root.members, n);
    }
    SameMembers(Content(Dict(now)), Object(Content(root).members[name := Content(t)]));
  }

  lemma {:induction false} Removed(root: Tree, name: string)
    requires WellFormed(root) && root.Dict?
    ensures WellFormed(Dict(Remove(root.members, name)))
    ensures Content(root).Object?
    ensures Content(Dict(Remove(root.members, name))) == Object(Content(root).members - {name})
  {
    var now := Remove(root.members, name);
    RemovedMembers(root.members, name);
    DictsAreObjects(Some(root));
    DictsAreObjects(Some(Dict(now)));
    RemovedWellFormed(root, name);
    hide Content, Remove, Lookup, WellFormed;
    var less := Object(Content(root).members - {name});
    forall n ensures Get(Some(Content(Dict(now))), n) == Get(Some(less), n) {
      ContentMember(now, n);
      ContentMember(root.members, n);
      assert Get(Some(less), n) == if n == name then None else Get(Some(Content(root)), n);
    }
    SameMembers(Content(Dict(now)), less);
  }

  lemma {:induction false} RemovedWellFormed(root: Tree, name: string)
    requires WellFormed(root) && root.Dict? && DistinctNames(Remove(root.members, name))
    ensures WellFormed(Dict(Remove(root.members, name)))
  {
    var now, k := Remove(root.members, name), IndexOf(root.members, name);
    assert forall i | 0 <= i < |now| :: now[i] == root.members[if i < k then i else i + 1];
  }

  // ----- conflict by conflict ----------------------------------------------------------------

  ghost function Pointers(conflicts: seq<Conflict>): iset<Path> {
    iset c | c in conflicts :: c.pointer
  }

  lemma {:induction false} ResolvingInTurn(
    root: Tree, conflicts: seq<Conflict>, base: Option<Value>, ours: Option<Value>, theirs: Option<Value>)
    requires WellFormed(root) && ours.Some? && theirs.Some?
    requires Some(Content(root)) == Merged(base, ours, theirs, iset{})
    requires forall c | c in conflicts :: Describes(c, c.pointer, base, ours, theirs)
    ensures WellFormed(ResolveTheirs(root, conflicts))
    ensures Some(Content(ResolveTheirs(root, conflicts))) == Merged(base, ours, theirs, Pointers(conflicts))
    decreases |conflicts|
  {
    hide Content, Merged, SetAt, SetTree, Conflicting, WellFormed;
    if conflicts == [] {
      assert Pointers(conflicts) == iset{};
    } else {
      var front, last := conflicts[..|conflicts| - 1], conflicts[|conflicts| - 1];
      assert forall c :: c in conflicts <==> c in front || c == last;
      ResolvingInTurn(root, front, base, ours, theirs);
      SetTreeSetsContent(ResolveTheirs(root, front), last.pointer, last.theirs);
      assert Describes(last, last.pointer, base, ours, theirs);
      SetResolvesOne(last.pointer, base, ours, theirs, Pointers(front));
      assert Pointers(conflicts) == Pointers(front) + iset{last.pointer};
    }
  }

  /** Setting theirs at every conflict gives the merge with the sides exchanged. */
  lemma {:induction false} TheirsResolvedIsMergeExchanged(base: Option<Tree>, ours: Tree, theirs: Tree)
    requires WellFormedOption(base) && WellFormed(ours) && WellFormed(theirs)
    ensures var (merged, conflicts) := MergeValue([], base, Some(ours), Some(theirs));
      && merged.Some?
      && WellFormed(ResolveTheirs(merged.value, conflicts))
      && Some(Content(ResolveTheirs(merged.value, conflicts)))
           == ContentOf(MergeValue([], base, Some(theirs), Some(ours)).0)
  {
    hide Content, WellFormed, MergeValue, Merged;
    MergeValueMeans([], base, Some(ours), Some(theirs));
    MergeValueMeans([], base, Some(theirs), Some(ours));
    var (merged, conflicts) := MergeValue([], base, Some(ours), Some(theirs));
    var b, o, h := ContentOf(base), Some(Content(ours)), Some(Content(theirs));
    SidesMergeToSome(b, o, h);
    forall c | c in conflicts ensures Describes(c, c.pointer, b, o, h) {
      assert c.pointer[0..] == c.pointer;
    }
    ResolvingInTurn(merged.value, conflicts, b, o, h);
    forall p | Conflicting(p, b, o, h) ensures p in Pointers(conflicts) <==> p in Everywhere() {
      var c :| c in conflicts && c.pointer == [] + p;
    }
    OnlyConflictsMatter(b, o, h, Pointers(conflicts), Everywhere());
    TheirWayIsOursExchanged(b, o, h);
  }

  lemma {:induction false} SidesMergeToSome(base: Option<Value>, ours: Option<Value>, theirs: Option<Value>)
    requires ours.Some? && theirs.Some?
    ensures Merged(base, ours, theirs, iset{}).Some?
  {
  }
}
