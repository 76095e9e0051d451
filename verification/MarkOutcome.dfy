/** Every resolution of the marked document is JSON, holds the chosen sides, and is otherwise the document. */
module MarkOutcome {
  import opened Json
  import opened Document
  import opened Merging
  import opened MergeDocuments
  import opened CanonicalForm
  import opened TheirsResolved
  import opened MarkLayout
  import opened MarkSplice
  import opened MarkedDocument
  import opened MarkMeaning

  // ----- values that differ only where sides conflict -----------------------------------------------

  ghost predicate Covered(q: Path, paths: iset<Path>) {
    exists r :: r in paths && r <= q
  }

  /** Outside the paths, the values agree. */
  ghost predicate Alike(a: Option<Value>, b: Option<Value>, paths: iset<Path>) {
    forall q :: Covered(q, paths) || At(a, q) == At(b, q) || BothObjects(At(a, q), At(b, q))
  }

  function Seen(logically: bool, v: Option<Value>): Option<Value> {
    if logically then NormalOption(v) else v
  }

  lemma {:induction false} AlikeMembers(a: Option<Value>, b: Option<Value>, paths: iset<Path>, name: string)
    requires Alike(a, b, paths) && [] !in paths
    ensures Alike(Get(a, name), Get(b, name), Tails(paths, name))
  {
    forall q ensures Covered(q, Tails(paths, name)) || At(Get(a, name), q) == At(Get(b, name), q)
      || BothObjects(At(Get(a, name), q), At(Get(b, name), q))
    {
      var long := [name] + q;
      assert long[1..] == q;
      assert Covered(long, paths) || At(a, long) == At(b, long) || BothObjects(At(a, long), At(b, long));
      if Covered(long, paths) {
        var r :| r in paths && r <= long;
        assert r == [name] + r[1..] && r[1..] <= q;
        assert r[1..] in Tails(paths, name);
      }
    }
  }

  /** Values that agree outside some paths, and at them, are the same value. */
  lemma {:induction false} AlikeAndEqual(a: Option<Value>, b: Option<Value>, paths: iset<Path>, logically: bool)
    requires Alike(a, b, paths)
    requires forall r | r in paths :: Seen(logically, At(a, r)) == Seen(logically, At(b, r))
    ensures Seen(logically, a) == Seen(logically, b)
    decreases Core(a)
  {
    assert At(a, []) == a && At(b, []) == b;
    if [] !in paths && a != b {
      assert !Covered([], paths);
      assert BothObjects(a, b);
      forall name ensures Get(Seen(logically, a), name) == Get(Seen(logically, b), name) {
        SeenMember(logically, a, name);
        SeenMember(logically, b, name);
        AlikeMembers(a, b, paths, name);
        forall r | r in Tails(paths, name)
          ensures Seen(logically, At(Get(a, name), r)) == Seen(logically, At(Get(b, name), r))
        {
          assert ([name] + r)[1..] == r;
          assert Seen(logically, At(a, [name] + r)) == Seen(logically, At(b, [name] + r));
        }
        MembersAlikeAndEqual(a, b, paths, name, logically);
      }
      SameMembers(Seen(logically, a).value, Seen(logically, b).value);
    }
  }

  lemma {:induction false} MembersAlikeAndEqual(
    a: Option<Value>, b: Option<Value>, paths: iset<Path>, name: string, logically: bool)
    requires BothObjects(a, b)
    requires Alike(Get(a, name), Get(b, name), Tails(paths, name))
    requires forall r | r in Tails(paths, name) ::
      Seen(logically, At(Get(a, name), r)) == Seen(logically, At(Get(b, name), r))
    ensures Seen(logically, Get(a, name)) == Seen(logically, Get(b, name))
    decreases Core(a), 0
  {
    var m, n := Get(a, name), Get(b, name);
    if m.Some? {
      AlikeAndEqual(m, n, Tails(paths, name), logically);
    } else {
      assert At(m, []) == m && At(n, []) == n;
      assert Covered([], Tails(paths, name)) || At(m, []) == At(n, []);
    }
  }

  lemma SeenMember(logically: bool, v: Option<Value>, name: string)
    ensures Get(Seen(logically, v), name) == Seen(logically, Get(v, name))
  {
    NormalMember(v, name);
  }

  lemma {:induction false} AlikeThrough(a: Option<Value>, b: Option<Value>, c: Option<Value>, paths: iset<Path>)
    requires Alike(a, b, paths) && Alike(b, c, paths)
    ensures Alike(a, c, paths)
  {
    hide At;
    forall q | !Covered(q, paths) ensures At(a, q) == At(c, q) || BothObjects(At(a, q), At(c, q)) {
      assert At(a, q) == At(b, q) || BothObjects(At(a, q), At(b, q));
      assert At(b, q) == At(c, q) || BothObjects(At(b, q), At(c, q));
    }
  }

  // ----- the picked document ----------------------------------------------------------------------------

  ghost function Paths(conflicts: seq<Conflict>): iset<Path> {
    iset c | c in conflicts :: c.pointer
  }

  ghost predicate SidesWellFormed(conflicts: seq<Conflict>) {
    forall c | c in conflicts :: WellFormedOption(c.ours) && WellFormedOption(c.base) && WellFormedOption(c.theirs)
  }

  lemma {:induction false} PickedIsWellFormed(v: Tree, p: Path, conflicts: seq<Conflict>, choice: Path -> Side)
    requires WellFormed(v) && Fits(v, p, conflicts) && Disjoint(conflicts) && SidesWellFormed(conflicts)
    ensures WellFormed(Picked(v, p, conflicts, choice))
    decreases v
  {
    if v.Dict? {
      PickedLookup(v, p, conflicts, choice);
      var members := Picked(v, p, conflicts, choice).members;
      forall i | 0 <= i < |members| ensures WellFormed(members[i].value) {
        var name := members[i].name;
        assert members[i] in members;
        var at := p + [name];
        if Listed(conflicts, at) {
          CanonicalSide(The(conflicts, at), choice(at));
        } else {
          FitsMember(v, p, conflicts, name);
          PickedIsWellFormed(Find(v.members, name), at, conflicts, choice);
        }
      }
    }
  }

  lemma CanonicalSide(c: Conflict, side: Side)
    requires WellFormedOption(c.ours) && WellFormedOption(c.base) && WellFormedOption(c.theirs)
    ensures var t := SideOf(c, side);
      t.Some? ==> WellFormed(Canonical(t.value)) && Some(Content(Canonical(t.value))) == NormalOption(ContentOf(t))
  {
    hide Content, Canonical, Normal, WellFormed;
    if SideOf(c, side).Some? { CanonicalKeepsValue(SideOf(c, side).value); }
  }

  /** A member of the picked object, as a value. */
  lemma {:induction false} PickedGet(v: Tree, p: Path, conflicts: seq<Conflict>, choice: Path -> Side, name: string)
    requires v.Dict? && WellFormed(v) && Fits(v, p, conflicts) && Disjoint(conflicts)
    ensures Content(Picked(v, p, conflicts, choice)).Object?
    ensures Get(Some(Content(Picked(v, p, conflicts, choice))), name)
      == ContentOf(PickNamed(v.members, p, conflicts, choice, name))
  {
    assert DistinctNames(v.members);
    hide Content, Picked, PickNamed;
    PickedLookup(v, p, conflicts, choice);
    DictsAreObjects(Some(Picked(v, p, conflicts, choice)));
    ContentMember(Picked(v, p, conflicts, choice).members, name);
  }

  /** Away from conflicts the picked document is the document. */
  lemma {:induction false} PickedElsewhere(v: Tree, p: Path, conflicts: seq<Conflict>, choice: Path -> Side, q: Path)
    requires WellFormed(v) && Fits(v, p, conflicts) && Disjoint(conflicts)
    requires forall n | 0 < n <= |q| :: !Listed(conflicts, p + q[..n])
    ensures var a, b := At(Some(Content(Picked(v, p, conflicts, choice))), q), At(Some(Content(v)), q);
      a == b || BothObjects(a, b)
    decreases |q|
  {
    hide Content, Fits, FitsAt, Disjoint, WellFormed, Normal, Canonical, The, Find;
    DictsAreObjects(Some(v));
    if v.Dict? {
      if q == [] {
        PickedGet(v, p, conflicts, choice, "");
      } else {
        var name := q[0];
        assert p + q[..1] == p + [name];
        PickedGet(v, p, conflicts, choice, name);
        ContentMember(v.members, name);
        if Has(v.members, name) {
          FitsMember(v, p, conflicts, name);
          FoundWellFormed(v, name);
          forall n | 0 < n <= |q[1..]| ensures !Listed(conflicts, p + [name] + q[1..][..n]) {
            assert p + [name] + q[1..][..n] == p + q[..n + 1];
          }
          PickedElsewhere(Find(v.members, name), p + [name], conflicts, choice, q[1..]);
        }
      }
    }
  }

  /** At a conflict it is the chosen side, as a logical value. */
  lemma {:induction false} PickedHere(v: Tree, p: Path, conflicts: seq<Conflict>, choice: Path -> Side, c: Conflict)
    requires WellFormed(v) && Fits(v, p, conflicts) && Disjoint(conflicts) && SidesWellFormed(conflicts)
    requires c in conflicts && FitsAt(v, p, conflicts, c)
    ensures At(Some(Content(Picked(v, p, conflicts, choice))), c.pointer[|p|..])
         == NormalOption(ContentOf(SideOf(c, choice(c.pointer))))
    decreases |c.pointer| - |p|
  {
    hide Content, Picked, Fits, FitsAt, Disjoint, WellFormed, Normal, Canonical, Listed, The, Find, Has;
    assert StrictlyUnder(p, c.pointer) by { AnchorHere(v, p, conflicts, c); UnderOf(v, p, conflicts, c); }
    var rest, name := c.pointer[|p|..], c.pointer[|p|];
    AnchorHere(v, p, conflicts, c);
    PickedGet(v, p, conflicts, choice, name);
    if |rest| == 1 {
      assert c.pointer == p + [name] && rest[1..] == [];
      OneListed(conflicts, c);
      CanonicalSide(c, choice(c.pointer));
    } else {
      CutInMember(v, 0, p, conflicts, c);
      FitsMember(v, p, conflicts, name);
      UnderOf(Find(v.members, name), p + [name], conflicts, c);
      ApartNames(conflicts, c, p + [name]);
      FoundWellFormed(v, name);
      PickedHere(Find(v.members, name), p + [name], conflicts, choice, c);
      assert c.pointer[|p| + 1..] == rest[1..];
    }
  }

  lemma UnderOf(v: Tree, p: Path, conflicts: seq<Conflict>, c: Conflict)
    requires FitsAt(v, p, conflicts, c)
    ensures StrictlyUnder(p, c.pointer)
  {
  }

  lemma FoundWellFormed(v: Tree, name: string)
    requires v.Dict? && WellFormed(v) && Has(v.members, name)
    ensures WellFormed(Find(v.members, name))
  {
  }

  /**
   Whatever is chosen, what is left spells one document: the chosen side at every conflict, and
   otherwise the one marked.
   */
  lemma {:induction false} EveryChoiceIsJson(v: Tree, conflicts: seq<Conflict>, choice: Path -> Side)
    requires WellFormed(v) && Fits(v, [], conflicts) && Disjoint(conflicts) && SidesWellFormed(conflicts)
    requires forall c | c in conflicts :: c.pointer != []
    ensures var r := Picked(v, [], conflicts, choice);
      && WellFormed(r) && Resolve(MarkedTree(v, [], conflicts), choice) == Tokens(r)
      && IsJson(Resolve(MarkedTree(v, [], conflicts), choice))
      && Alike(Some(Content(r)), Some(Content(v)), Paths(conflicts))
      && forall c | c in conflicts ::
        At(Some(Content(r)), c.pointer) == NormalOption(ContentOf(SideOf(c, choice(c.pointer))))
  {
    hide *;
    var r := Picked(v, [], conflicts, choice);
    ResolveMarked(v, [], conflicts, choice);
    PickedIsWellFormed(v, [], conflicts, choice);
    JsonIsSpelledTrees(Tokens(r));
    PickedIsAlike(v, conflicts, choice);
    forall c | c in conflicts
      ensures At(Some(Content(r)), c.pointer) == NormalOption(ContentOf(SideOf(c, choice(c.pointer))))
    {
      RootFits(v, conflicts, c);
      PickedHere(v, [], conflicts, choice, c);
      assert c.pointer[0..] == c.pointer;
    }
  }

  lemma RootFits(v: Tree, conflicts: seq<Conflict>, c: Conflict)
    requires Fits(v, [], conflicts) && c in conflicts && c.pointer != []
    ensures FitsAt(v, [], conflicts, c)
  {
    assert StrictlyUnder([], c.pointer);
  }

  lemma {:induction false} PickedIsAlike(v: Tree, conflicts: seq<Conflict>, choice: Path -> Side)
    requires WellFormed(v) && Fits(v, [], conflicts) && Disjoint(conflicts)
    ensures Alike(Some(Content(Picked(v, [], conflicts, choice))), Some(Content(v)), Paths(conflicts))
  {
    hide Picked, Content, WellFormed, Fits, Disjoint, At;
    var a, b := Some(Content(Picked(v, [], conflicts, choice))), Some(Content(v));
    forall q | !Covered(q, Paths(conflicts)) ensures At(a, q) == At(b, q) || BothObjects(At(a, q), At(b, q)) {
      forall n | 0 < n <= |q| ensures !Listed(conflicts, [] + q[..n]) {
        assert [] + q[..n] == q[..n] <= q;
        assert q[..n] in Paths(conflicts) ==> Covered(q, Paths(conflicts));
      }
      PickedElsewhere(v, [], conflicts, choice, q);
    }
  }
}
