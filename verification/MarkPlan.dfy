/**
 Which conflicts are marked: an object whose every member conflicts has no
 member to carry the commas, so it becomes one conflict, a level up.
 */
module MarkPlan {
  import opened Json
  import opened Lexical
  import opened Document
  import opened Merging
  import opened MergeDocuments
  import opened Sequences
  import opened MarkLayout
  import opened MarkSplice
  import opened MarkOutcome

  // ----- following a pointer ---------------------------------------------------------------------

  /** An array index as RFC 6901 section 4 writes it: no sign, no leading zero. */
  function ArrayIndex(token: string): Option<nat> {
    if !Digits(token) || (token[0] == '0' && |token| != 1) then None else Some(DecimalValue(token))
  }

  function Pointed(t: Option<Tree>, p: Path): Option<Tree>
    decreases p
  {
    if p == [] || t.None? then t
    else
      match t.value
      case Dict(members) => Pointed(Lookup(members, p[0]), p[1..])
      case List(items) =>
        var i := ArrayIndex(p[0]);
        if i.Some? && i.value < |items| then Pointed(Some(items[i.value]), p[1..]) else None
      case Leaf(_) => None
  }

  lemma {:induction false} PointedWellFormed(t: Option<Tree>, p: Path)
    requires WellFormedOption(t)
    ensures WellFormedOption(Pointed(t, p))
    decreases p
  {
    if p != [] && t.Some? {
      match t.value
      case Dict(members) =>
        LookupWellFormed(members, p[0]);
        PointedWellFormed(Lookup(members, p[0]), p[1..]);
      case List(items) =>
        var i := ArrayIndex(p[0]);
        if i.Some? && i.value < |items| { PointedWellFormed(Some(items[i.value]), p[1..]); }
      case Leaf(_) =>
    }
  }

  /** Through objects, a pointer leads where the path of the value does. */
  lemma {:induction false} PointedContent(t: Tree, p: Path)
    requires p != [] ==> DictAt(t, Parent(p))
    ensures ContentOf(Pointed(Some(t), p)) == At(Some(Content(t)), p)
    decreases p
  {
    if p != [] {
      ContentMember(t.members, p[0]);
      if |p| > 1 {
        assert Parent(p)[0] == p[0] && Parent(p)[1..] == Parent(p[1..]);
        PointedContent(Find(t.members, p[0]), p[1..]);
      } else {
        assert p[1..] == [];
      }
    }
  }

  // ----- paths of objects ----------------------------------------------------------------------------

  ghost predicate ObjectsAlong(v: Option<Value>, p: Path)
    decreases p
  {
    v.Some? && v.value.Object? && (p != [] ==> ObjectsAlong(Get(v, p[0]), p[1..]))
  }

  lemma {:induction false} DictsAlong(t: Tree, p: Path)
    ensures DictAt(t, p) <==> ObjectsAlong(Some(Content(t)), p)
    decreases p
  {
    DictsAreObjects(Some(t));
    if t.Dict? && p != [] {
      ContentMember(t.members, p[0]);
      if Has(t.members, p[0]) { DictsAlong(Find(t.members, p[0]), p[1..]); }
    }
  }

  lemma {:induction false} DictOnTheWay(t: Tree, p: Path, n: nat)
    requires DictAt(t, p) && n <= |p|
    ensures DictAt(t, p[..n])
    ensures n < |p| ==> Has(Place(t, 0, p[..n]).0.members, p[n])
    decreases p
  {
    if n > 0 {
      assert p[..n][0] == p[0] && p[..n][1..] == p[1..][..n - 1];
      DictOnTheWay(Find(t.members, p[0]), p[1..], n - 1);
      PlaceMember(t, 0, p[..n]);
    }
  }

  // ----- what holds of the conflicts still to be marked ------------------------------------------------

  /** A conflict between a member of the document and the same member of the merge resolved their way. */
  ghost predicate Stands(document: Tree, theirs: Tree, c: Conflict) {
    && (c.pointer != [] ==> DictAt(document, Parent(c.pointer)) && DictAt(theirs, Parent(c.pointer)))
    && ContentOf(c.ours) == At(Some(Content(document)), c.pointer)
    && ContentOf(c.theirs) == At(Some(Content(theirs)), c.pointer)
  }

  ghost predicate Pending(document: Tree, theirs: Tree, conflicts: seq<Conflict>) {
    && WellFormed(document) && WellFormed(theirs)
    && Disjoint(conflicts) && SidesWellFormed(conflicts)
    && (forall c | c in conflicts :: Stands(document, theirs, c))
    && Alike(Some(Content(document)), Some(Content(theirs)), Paths(conflicts))
  }

  function OfOtherParents(parent: Path): Conflict -> bool {
    (c: Conflict) => Parent(c.pointer) != parent
  }

  /** The conflict of a whole object. */
  function Whole(document: Tree, theirs: Tree, base: Option<Tree>, p: Path): Conflict {
    Conflict(p, Pointed(base, p), Pointed(Some(document), p), Pointed(Some(theirs), p))
  }

  function Promoted(
    document: Tree, theirs: Tree, base: Option<Tree>, conflicts: seq<Conflict>, parent: Path): seq<Conflict>
  {
    Filter(OfOtherParents(parent), conflicts) + [Whole(document, theirs, base, parent)]
  }

  /** An object of the document below the root, with conflicts, whose every member conflicts. */
  ghost predicate Unanchored(document: Tree, conflicts: seq<Conflict>, parent: Path) {
    && parent != [] && DictAt(document, parent)
    && (exists c | c in conflicts :: Parent(c.pointer) == parent)
    && Anchor(conflicts, parent, Place(document, 0, parent).0.members) >= |Place(document, 0, parent).0.members|
  }

  function Depths(conflicts: seq<Conflict>): nat {
    if conflicts == [] then 0 else Depths(conflicts[..|conflicts| - 1]) + |conflicts[|conflicts| - 1].pointer|
  }

  lemma {:induction false} DepthsFall(conflicts: seq<Conflict>, parent: Path)
    ensures var rest := Filter(OfOtherParents(parent), conflicts);
      && Depths(rest) <= Depths(conflicts)
      && (parent != [] && (exists c | c in conflicts :: Parent(c.pointer) == parent) ==>
            Depths(rest) + |parent| < Depths(conflicts))
  {
    if conflicts != [] {
      var front, last := conflicts[..|conflicts| - 1], conflicts[|conflicts| - 1];
      DepthsFall(front, parent);
      var rest := Filter(OfOtherParents(parent), front);
      assert forall c | c in conflicts :: c in front || c == last;
      if Parent(last.pointer) != parent {
        assert (rest + [last])[..|rest|] == rest;
      } else {
        assert Filter(OfOtherParents(parent), conflicts) == rest + [] == rest;
      }
    }
  }

  lemma {:induction false} InDisjoint(conflicts: seq<Conflict>, c: Conflict, d: Conflict)
    requires Disjoint(conflicts) && c in conflicts && d in conflicts && c.pointer != d.pointer
    ensures !(c.pointer <= d.pointer)
  {
    var i :| 0 <= i < |conflicts| && conflicts[i] == c;
    var j :| 0 <= j < |conflicts| && conflicts[j] == d;
    assert i != j;
  }

  /** A conflict of another parent lies neither around nor inside the object promoted. */
  lemma {:induction false} PromotedIsApart(
    document: Tree, theirs: Tree, conflicts: seq<Conflict>, parent: Path, d: Conflict)
    requires Pending(document, theirs, conflicts) && Unanchored(document, conflicts, parent)
    requires d in conflicts && Parent(d.pointer) != parent
    ensures !(d.pointer <= parent) && !(parent <= d.pointer)
  {
    hide Pending, Unanchored, Disjoint, DictAt;
    PendingStands(document, theirs, conflicts, d);
    var c := OneInside(document, conflicts, parent);
    if d.pointer <= parent {
      InDisjoint(conflicts, d, c);
    } else if parent <= d.pointer {
      var e := InsideIsListed(document, conflicts, parent, d);
      InDisjoint(conflicts, e, d);
    }
  }

  lemma PendingStands(document: Tree, theirs: Tree, conflicts: seq<Conflict>, d: Conflict)
    requires Pending(document, theirs, conflicts) && d in conflicts
    ensures Disjoint(conflicts) && (d.pointer != [] ==> DictAt(document, Parent(d.pointer)))
  {
    hide Alike, WellFormed, Content, Disjoint;
    assert Stands(document, theirs, d);
  }

  lemma OneInside(document: Tree, conflicts: seq<Conflict>, parent: Path) returns (c: Conflict)
    requires Unanchored(document, conflicts, parent)
    ensures c in conflicts && Parent(c.pointer) == parent && parent < c.pointer
  {
    c :| c in conflicts && Parent(c.pointer) == parent;
  }

  /** Every member of the object conflicts, so one does on the way to anything further inside. */
  lemma InsideIsListed(document: Tree, conflicts: seq<Conflict>, parent: Path, d: Conflict) returns (e: Conflict)
    requires Unanchored(document, conflicts, parent) && d.pointer != [] && DictAt(document, Parent(d.pointer))
    requires parent < d.pointer && Parent(d.pointer) != parent
    ensures e in conflicts && e.pointer < d.pointer
  {
    hide Listed, Anchor;
    var n := |parent|;
    assert d.pointer[..n] == parent && |d.pointer| > n + 1;
    assert Parent(d.pointer)[..n] == parent;
    DictOnTheWay(document, Parent(d.pointer), n);
    var members, name := Place(document, 0, parent).0.members, d.pointer[n];
    AnchorIsFirst(conflicts, parent, members, IndexOf(members, name));
    e := The(conflicts, parent + [name]);
  }

  lemma {:induction false} PromotionKeepsApart(
    document: Tree, theirs: Tree, base: Option<Tree>, conflicts: seq<Conflict>, parent: Path)
    requires Pending(document, theirs, conflicts) && Unanchored(document, conflicts, parent)
    ensures Disjoint(Promoted(document, theirs, base, conflicts, parent))
  {
    hide Pending, Unanchored, Pointed;
    var rest, whole := Filter(OfOtherParents(parent), conflicts), Whole(document, theirs, base, parent);
    assert Disjoint(conflicts) by { PendingApart(document, theirs, conflicts); }
    MarkMeaningFilter(conflicts, parent);
    forall i | 0 <= i < |rest| ensures !(rest[i].pointer <= parent) && !(parent <= rest[i].pointer) {
      assert rest[i] in rest;
      assert OfOtherParents(parent)(rest[i]);
      PromotedIsApart(document, theirs, conflicts, parent, rest[i]);
    }
  }

  lemma PendingApart(document: Tree, theirs: Tree, conflicts: seq<Conflict>)
    requires Pending(document, theirs, conflicts)
    ensures Disjoint(conflicts)
  {
  }

  lemma MarkMeaningFilter(conflicts: seq<Conflict>, parent: Path)
    requires Disjoint(conflicts)
    ensures Disjoint(Filter(OfOtherParents(parent), conflicts))
  {
    MarkMeaning.FilterDisjoint(OfOtherParents(parent), conflicts);
  }

  /** Marking a whole object leaves no more of the sides' differences outside the marked conflicts. */
  lemma {:induction false} PromotionStillCovers(
    document: Tree, theirs: Tree, base: Option<Tree>, conflicts: seq<Conflict>, parent: Path)
    requires Alike(Some(Content(document)), Some(Content(theirs)), Paths(conflicts))
    ensures Alike(Some(Content(document)), Some(Content(theirs)),
      Paths(Promoted(document, theirs, base, conflicts, parent)))
  {
    hide Content, At, Promoted, Paths;
    var after := Promoted(document, theirs, base, conflicts, parent);
    forall q | Covered(q, Paths(conflicts)) ensures Covered(q, Paths(after)) {
      var r :| r in Paths(conflicts) && r <= q;
      StillCovered(document, theirs, base, conflicts, parent, r);
      var s :| s in Paths(after) && s <= r;
      assert s <= q;
    }
  }

  lemma {:induction false} StillCovered(
    document: Tree, theirs: Tree, base: Option<Tree>, conflicts: seq<Conflict>, parent: Path, r: Path)
    requires r in Paths(conflicts)
    ensures exists s :: s in Paths(Promoted(document, theirs, base, conflicts, parent)) && s <= r
  {
    hide Pointed;
    var after := Promoted(document, theirs, base, conflicts, parent);
    var c :| c in conflicts && c.pointer == r;
    if Parent(c.pointer) == parent {
      var whole := Whole(document, theirs, base, parent);
      assert whole in after && whole.pointer <= r;
      assert whole.pointer in Paths(after);
    } else {
      assert OfOtherParents(parent)(c);
      assert c in after && c.pointer in Paths(after);
    }
  }

  /** Promotion keeps everything that holds of the pending conflicts, and brings them up. */
  lemma {:induction false} PromotionKeeps(
    document: Tree, theirs: Tree, base: Option<Tree>, conflicts: seq<Conflict>, parent: Path)
    requires Pending(document, theirs, conflicts) && Unanchored(document, conflicts, parent) && WellFormedOption(base)
    ensures Pending(document, theirs, Promoted(document, theirs, base, conflicts, parent))
    ensures Depths(Promoted(document, theirs, base, conflicts, parent)) < Depths(conflicts)
  {
    hide WellFormed, Content, Alike, DictAt, At, Disjoint;
    PromotionKeepsApart(document, theirs, base, conflicts, parent);
    PromotionStillCovers(document, theirs, base, conflicts, parent);
    var after, whole := Promoted(document, theirs, base, conflicts, parent), Whole(document, theirs, base, parent);
    WholeStands(document, theirs, base, conflicts, parent);
    forall c | c in after ensures Stands(document, theirs, c)
      && WellFormedOption(c.ours) && WellFormedOption(c.base) && WellFormedOption(c.theirs)
    {
      if c == whole {
        PointedWellFormed(base, parent);
        PointedWellFormed(Some(document), parent);
        PointedWellFormed(Some(theirs), parent);
      } else {
        assert c in Filter(OfOtherParents(parent), conflicts);
      }
    }
    DepthsFall(conflicts, parent);
    assert after[..|after| - 1] == Filter(OfOtherParents(parent), conflicts);
  }

  lemma {:induction false} WholeStands(
    document: Tree, theirs: Tree, base: Option<Tree>, conflicts: seq<Conflict>, parent: Path)
    requires Pending(document, theirs, conflicts) && Unanchored(document, conflicts, parent)
    ensures Stands(document, theirs, Whole(document, theirs, base, parent))
  {
    hide WellFormed, Content, Alike, At, Disjoint;
    var c :| c in conflicts && Parent(c.pointer) == parent;
    assert Stands(document, theirs, c);
    DictOnTheWay(document, parent, |parent| - 1);
    DictOnTheWay(theirs, parent, |parent| - 1);
    PointedContent(document, parent);
    PointedContent(theirs, parent);
  }
}
