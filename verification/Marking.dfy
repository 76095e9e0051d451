/** Marking a conflicted merge: grouping, promoting, collecting the stretches to replace, and splicing them. */
module Marking {
  import opened Json
  import opened Document
  import opened Merging
  import opened MergeDocuments
  import opened CanonicalForm
  import opened Sequences
  import opened Order
  import opened MarkLayout
  import opened MarkSplice
  import opened MarkedDocument
  import opened MarkOutcome
  import opened MarkPlan

  /** The conflicts of one object's members. */
  datatype Group = Group(parent: Path, conflicts: seq<Conflict>)

  function OfParent(parent: Path): Conflict -> bool {
    (c: Conflict) => Parent(c.pointer) == parent
  }

  /** Which group has a parent, or past the end. */
  function GroupOf(groups: seq<Group>, parent: Path): (k: nat)
    ensures k <= |groups|
    ensures k < |groups| ==> groups[k].parent == parent
    ensures forall j | 0 <= j < k :: groups[j].parent != parent
  {
    if groups == [] || groups[0].parent == parent then 0 else 1 + GroupOf(groups[1..], parent)
  }

  function Joined(groups: seq<Group>, c: Conflict): seq<Group> {
    var k := GroupOf(groups, Parent(c.pointer));
    if k < |groups| then groups[k := Group(groups[k].parent, groups[k].conflicts + [c])]
    else groups + [Group(Parent(c.pointer), [c])]
  }

  function Groups(conflicts: seq<Conflict>): seq<Group> {
    if conflicts == [] then [] else Joined(Groups(conflicts[..|conflicts| - 1]), conflicts[|conflicts| - 1])
  }

  /** An object below the root with no member to carry the commas. */
  predicate IsUnanchored(document: Tree, conflicts: seq<Conflict>, parent: Path) {
    && parent != [] && DictAt(document, parent)
    && Anchor(conflicts, parent, Place(document, 0, parent).0.members) >= |Place(document, 0, parent).0.members|
  }

  function FirstUnanchored(document: Tree, groups: seq<Group>): (parent: Option<Path>)
    ensures parent.None? ==> forall g | g in groups :: !IsUnanchored(document, g.conflicts, g.parent)
    ensures parent.Some? ==> exists g | g in groups ::
      g.parent == parent.value && IsUnanchored(document, g.conflicts, g.parent)
  {
    if groups == [] then None
    else if IsUnanchored(document, groups[0].conflicts, groups[0].parent) then Some(groups[0].parent)
    else FirstUnanchored(document, groups[1..])
  }

  method GroupByParent(pending: seq<Conflict>) returns (groups: seq<Group>)
    ensures groups == Groups(pending)
  {
    groups := [];
    for i := 0 to |pending|
      invariant groups == Groups(pending[..i])
    {
      assert pending[..i + 1][..i] == pending[..i];
      var parent := Parent(pending[i].pointer);
      var k := GroupOf(groups, parent);
      if k < |groups| {
        groups := groups[k := Group(parent, groups[k].conflicts + [pending[i]])];
      } else {
        groups := groups + [Group(parent, [pending[i]])];
      }
    }
    assert pending[..|pending|] == pending;
  }

  // ----- what grouping does ---------------------------------------------------------------------

  ghost predicate Sorts(groups: seq<Group>, conflicts: seq<Conflict>) {
    && (forall i, j | 0 <= i < j < |groups| :: groups[i].parent != groups[j].parent)
    && (forall g | g in groups :: g.conflicts == Filter(OfParent(g.parent), conflicts) && g.conflicts != [])
    && (forall c | c in conflicts :: GroupOf(groups, Parent(c.pointer)) < |groups|)
  }

  lemma {:induction false} GroupsSort(conflicts: seq<Conflict>)
    ensures Sorts(Groups(conflicts), conflicts)
  {
    hide Sorts, Joined;
    if conflicts == [] {
      NothingSorts();
    } else {
      var front, last := conflicts[..|conflicts| - 1], conflicts[|conflicts| - 1];
      GroupsSort(front);
      JoinedSorts(Groups(front), front, last);
      assert conflicts == front + [last];
    }
  }

  lemma NothingSorts()
    ensures Sorts([], [])
  {
  }

  lemma FilterOneMore(parent: Path, front: seq<Conflict>, c: Conflict)
    ensures Filter(OfParent(parent), front + [c])
         == Filter(OfParent(parent), front) + if parent == Parent(c.pointer) then [c] else []
  {
    assert (front + [c])[..|front|] == front;
  }

  lemma {:induction false} NoneOfParent(groups: seq<Group>, front: seq<Conflict>, parent: Path)
    requires forall c | c in front :: GroupOf(groups, Parent(c.pointer)) < |groups|
    requires GroupOf(groups, parent) == |groups|
    ensures Filter(OfParent(parent), front) == []
  {
    FilterNone(OfParent(parent), front);
  }

  lemma {:induction false} JoinedSorts(groups: seq<Group>, front: seq<Conflict>, c: Conflict)
    requires Sorts(groups, front)
    ensures Sorts(Joined(groups, c), front + [c])
  {
    hide Filter, OfParent, GroupOf;
    var parent, after := Parent(c.pointer), Joined(groups, c);
    var k := GroupOf(groups, parent);
    if k == |groups| { NoneOfParent(groups, front, parent); }
    forall i | 0 <= i < |after|
      ensures after[i].conflicts == Filter(OfParent(after[i].parent), front + [c]) && after[i].conflicts != []
    {
      FilterOneMore(after[i].parent, front, c);
      if i < |groups| { JoinedGroup(groups, front, c, i); }
    }
    forall i, j | 0 <= i < j < |after| ensures after[i].parent != after[j].parent {
      assert i < |groups| ==> after[i].parent == groups[i].parent;
    }
    forall d | d in front + [c] ensures GroupOf(after, Parent(d.pointer)) < |after| {
      var j := GroupOf(groups, Parent(d.pointer));
      assert j < |groups| ==> after[j].parent == groups[j].parent;
      assert j == |groups| ==> d == c && after[|groups|].parent == parent;
    }
  }

  lemma JoinedGroup(groups: seq<Group>, front: seq<Conflict>, c: Conflict, i: nat)
    requires Sorts(groups, front) && i < |groups|
    ensures groups[i].conflicts == Filter(OfParent(groups[i].parent), front) && groups[i].conflicts != []
    ensures i != GroupOf(groups, Parent(c.pointer)) ==> groups[i].parent != Parent(c.pointer)
  {
    assert groups[i] in groups;
  }

  function AllConflicts(groups: seq<Group>): seq<Conflict> {
    if groups == [] then [] else AllConflicts(groups[..|groups| - 1]) + groups[|groups| - 1].conflicts
  }

  /** Grouping moves conflicts but not those of one object past each other. */
  lemma {:induction false} FlatKeepsOrder(groups: seq<Group>, conflicts: seq<Conflict>, n: nat, parent: Path)
    requires Sorts(groups, conflicts) && n <= |groups|
    ensures Filter(OfParent(parent), AllConflicts(groups[..n]))
         == if GroupOf(groups, parent) < n then Filter(OfParent(parent), conflicts) else []
  {
    hide Sorts, Filter, OfParent, GroupOf, AllConflicts;
    if n == 0 {
      NoneFlat(parent);
      assert groups[..0] == [];
    } else {
      var g := groups[n - 1];
      OneMoreGroup(groups, n);
      GroupAt(groups, conflicts, n - 1, parent);
      FlatKeepsOrder(groups, conflicts, n - 1, parent);
      FilterBoth(OfParent(parent), AllConflicts(groups[..n - 1]), g.conflicts);
      FilterOfOther(g.parent, parent, conflicts);
    }
  }

  lemma NoneFlat(parent: Path)
    ensures Filter(OfParent(parent), AllConflicts([])) == []
  {
  }

  lemma OneMoreGroup(groups: seq<Group>, n: nat)
    requires 0 < n <= |groups|
    ensures AllConflicts(groups[..n]) == AllConflicts(groups[..n - 1]) + groups[n - 1].conflicts
  {
    assert groups[..n][..n - 1] == groups[..n - 1];
  }

  lemma GroupAt(groups: seq<Group>, conflicts: seq<Conflict>, k: nat, parent: Path)
    requires Sorts(groups, conflicts) && k < |groups|
    ensures groups[k].conflicts == Filter(OfParent(groups[k].parent), conflicts)
    ensures GroupOf(groups, parent) == k <==> groups[k].parent == parent
  {
    hide Filter, OfParent;
    assert groups[k] in groups;
    var at := GroupOf(groups, parent);
    assert at < |groups| ==> groups[at].parent == parent;
  }

  lemma FilterOfOther(other: Path, parent: Path, conflicts: seq<Conflict>)
    ensures Filter(OfParent(parent), Filter(OfParent(other), conflicts))
         == if other == parent then Filter(OfParent(parent), conflicts) else []
  {
    FilterTwice(OfParent(other), OfParent(parent), conflicts);
    if other == parent {
      FilterAgrees(Both(OfParent(other), OfParent(parent)), OfParent(parent), conflicts);
    } else {
      FilterNone(Both(OfParent(other), OfParent(parent)), conflicts);
    }
  }

  /** Two lists with the same conflicts of each object, in the same order. */
  ghost predicate SameByParent(left: seq<Conflict>, right: seq<Conflict>) {
    forall parent :: Filter(OfParent(parent), left) == Filter(OfParent(parent), right)
  }

  lemma {:induction false} FlatIsSame(conflicts: seq<Conflict>)
    ensures SameByParent(AllConflicts(Groups(conflicts)), conflicts)
  {
    var groups := Groups(conflicts);
    GroupsSort(conflicts);
    forall parent ensures Filter(OfParent(parent), AllConflicts(groups)) == Filter(OfParent(parent), conflicts) {
      FlatKeepsOrder(groups, conflicts, |groups|, parent);
      assert groups[..|groups|] == groups;
      if GroupOf(groups, parent) == |groups| {
        FilterNone(OfParent(parent), conflicts);
      }
    }
  }

  lemma {:induction false} SameMembersByParent(left: seq<Conflict>, right: seq<Conflict>, c: Conflict)
    requires SameByParent(left, right)
    ensures c in left <==> c in right
  {
    var of := OfParent(Parent(c.pointer));
    assert Filter(of, left) == Filter(of, right);
    assert of(c);
    assert c in left ==> c in Filter(of, left);
    assert c in right ==> c in Filter(of, right);
  }

  lemma {:induction false} SameListed(left: seq<Conflict>, right: seq<Conflict>, at: Path)
    requires SameByParent(left, right)
    ensures Listed(left, at) <==> Listed(right, at)
  {
    if Listed(left, at) {
      SameMembersByParent(left, right, The(left, at));
      var c := The(left, at);
      var i :| 0 <= i < |right| && right[i] == c;
    }
    if Listed(right, at) {
      SameMembersByParent(left, right, The(right, at));
      var c := The(right, at);
      var i :| 0 <= i < |left| && left[i] == c;
    }
  }

  lemma {:induction false} SameAnchor(left: seq<Conflict>, right: seq<Conflict>, at: Path, members: seq<Entry>)
    requires forall name :: Listed(left, at + [name]) <==> Listed(right, at + [name])
    ensures Anchor(left, at, members) == Anchor(right, at, members)
  {
    if members != [] { SameAnchor(left, right, at, members[1..]); }
  }

  /** The group of an object lists what the whole list does. */
  lemma {:induction false} GroupLists(groups: seq<Group>, conflicts: seq<Conflict>, g: Group, name: string)
    requires Sorts(groups, conflicts) && g in groups
    ensures Listed(g.conflicts, g.parent + [name]) <==> Listed(conflicts, g.parent + [name])
  {
    var at := g.parent + [name];
    assert Parent(at) == g.parent;
    if Listed(conflicts, at) {
      var c := The(conflicts, at);
      assert OfParent(g.parent)(c);
      var i :| 0 <= i < |g.conflicts| && g.conflicts[i] == c;
    }
    if Listed(g.conflicts, at) {
      var c := The(g.conflicts, at);
      assert c in conflicts;
      var i :| 0 <= i < |conflicts| && conflicts[i] == c;
    }
  }

  lemma {:induction false} GroupAnchor(groups: seq<Group>, conflicts: seq<Conflict>, g: Group, members: seq<Entry>)
    requires Sorts(groups, conflicts) && g in groups
    ensures Anchor(g.conflicts, g.parent, members) == Anchor(conflicts, g.parent, members)
  {
    forall name ensures Listed(g.conflicts, g.parent + [name]) <==> Listed(conflicts, g.parent + [name]) {
      GroupLists(groups, conflicts, g, name);
    }
    SameAnchor(g.conflicts, conflicts, g.parent, members);
  }

  // ----- promotion ---------------------------------------------------------------------------------

  /** What `FirstUnanchored` finds is a whole object to promote, and when it finds none there is none. */
  lemma {:induction false} FoundUnanchored(document: Tree, conflicts: seq<Conflict>)
    ensures var parent := FirstUnanchored(document, Groups(conflicts));
      && (parent.Some? ==> Unanchored(document, conflicts, parent.value))
      && (parent.None? ==> forall c | c in conflicts :: !IsUnanchored(document, conflicts, Parent(c.pointer)))
  {
    var groups := Groups(conflicts);
    GroupsSort(conflicts);
    var parent := FirstUnanchored(document, groups);
    hide FirstUnanchored, Groups, Anchor, Place, DictAt;
    if parent.Some? {
      var g :| g in groups && g.parent == parent.value && IsUnanchored(document, g.conflicts, g.parent);
      GroupAnchor(groups, conflicts, g, Place(document, 0, g.parent).0.members);
      assert g.conflicts[0] in g.conflicts;
      assert OfParent(g.parent)(g.conflicts[0]);
      assert g.conflicts[0] in conflicts;
    } else {
      forall c | c in conflicts ensures !IsUnanchored(document, conflicts, Parent(c.pointer)) {
        var g := groups[GroupOf(groups, Parent(c.pointer))];
        assert g in groups;
        if DictAt(document, g.parent) { GroupAnchor(groups, conflicts, g, Place(document, 0, g.parent).0.members); }
      }
    }
  }

  /** The conflicts left to mark, once every object with one has an anchor. */
  ghost function Settled(document: Tree, theirs: Tree, base: Option<Tree>, conflicts: seq<Conflict>): seq<Conflict>
    decreases Depths(conflicts)
  {
    var parent := FirstUnanchored(document, Groups(conflicts));
    if parent.None? then conflicts
    else
      FoundUnanchored(document, conflicts);
      DepthsFallByPromotion(document, theirs, base, conflicts, parent.value);
      Settled(document, theirs, base, Promoted(document, theirs, base, conflicts, parent.value))
  }

  lemma DepthsFallByPromotion(document: Tree, theirs: Tree, base: Option<Tree>, conflicts: seq<Conflict>, parent: Path)
    requires Unanchored(document, conflicts, parent)
    ensures Depths(Promoted(document, theirs, base, conflicts, parent)) < Depths(conflicts)
  {
    hide Pointed;
    var after := Promoted(document, theirs, base, conflicts, parent);
    DepthsFall(conflicts, parent);
    assert after[..|after| - 1] == Filter(OfOtherParents(parent), conflicts);
  }

  lemma {:induction false} SettledIsPending(document: Tree, theirs: Tree, base: Option<Tree>, conflicts: seq<Conflict>)
    requires Pending(document, theirs, conflicts) && WellFormedOption(base)
    ensures var settled := Settled(document, theirs, base, conflicts);
      && Pending(document, theirs, settled)
      && forall c | c in settled :: !IsUnanchored(document, settled, Parent(c.pointer))
    decreases Depths(conflicts)
  {
    hide Pending, Promoted, IsUnanchored, Unanchored, Groups, FirstUnanchored, WellFormed;
    var parent := FirstUnanchored(document, Groups(conflicts));
    FoundUnanchored(document, conflicts);
    if parent.Some? {
      PromotionKeeps(document, theirs, base, conflicts, parent.value);
      SettledIsPending(document, theirs, base, Promoted(document, theirs, base, conflicts, parent.value));
    }
  }

  // ----- the marked document --------------------------------------------------------------------------

  function WholeText(side: Option<Tree>): seq<Token> {
    if side.None? then [] else Tokens(Canonical(side.value))
  }

  function WholeBlock(document: Tree, theirs: Tree, base: Option<Tree>, p: Path): Item {
    var c := Whole(document, theirs, base, p);
    Block(p, WholeText(c.ours), WholeText(c.base), WholeText(c.theirs))
  }

  /** Whether the whole document is one conflict: the sides conflict there, or at its every member. */
  predicate RootWhole(document: Tree, conflicts: seq<Conflict>) {
    || (exists c | c in conflicts :: c.pointer == [])
    || (document.Dict? && (exists c | c in conflicts :: Parent(c.pointer) == [])
        && Anchor(conflicts, [], document.members) >= |document.members|)
  }

  /** The document with its conflicts marked. */
  ghost function Marked(document: Tree, theirs: Tree, base: Option<Tree>, conflicts: seq<Conflict>): seq<Item> {
    var settled := Settled(document, theirs, base, conflicts);
    if RootWhole(document, settled) then [WholeBlock(document, theirs, base, [])]
    else MarkedTree(document, [], settled)
  }

  // ----- the stretches, group by group -------------------------------------------------------------------

  /** What is settled can be marked member by member, or the document whole. */
  lemma {:induction false} SettledFits(document: Tree, theirs: Tree, conflicts: seq<Conflict>)
    requires Pending(document, theirs, conflicts)
    requires forall c | c in conflicts :: !IsUnanchored(document, conflicts, Parent(c.pointer))
    requires !RootWhole(document, conflicts)
    ensures Fits(document, [], conflicts)
    ensures forall c | c in conflicts :: c.pointer != []
  {
    forall c | c in conflicts ensures c.pointer != [] && FitsAt(document, [], conflicts, c) {
      assert Stands(document, theirs, c);
      assert Inward([], c) == Parent(c.pointer);
      var i :| 0 <= i < |conflicts| && conflicts[i] == c;
      if Parent(c.pointer) == [] {
        assert Place(document, 0, []).0 == document;
      }
    }
  }

  /** A group's stretch is the stretch the whole list gives the conflict. */
  lemma {:induction false} GroupCut(
    document: Tree, groups: seq<Group>, conflicts: seq<Conflict>, all: seq<Conflict>, g: Group, c: Conflict)
    requires Sorts(groups, conflicts) && g in groups && c in g.conflicts
    requires SameByParent(all, conflicts) && c in all && FitsAt(document, [], all, c)
    ensures DictAt(document, g.parent) && Parent(c.pointer) == g.parent && c.pointer != []
    ensures Listed(g.conflicts, c.pointer)
    ensures var (node, start) := Place(document, 0, g.parent);
      && Anchor(g.conflicts, g.parent, node.members) < |node.members|
      && CutIn(document, 0, [], all, c) == Cut(g.conflicts, node.members, start + 1, c)
  {
    hide Sorts, SameByParent, Anchor, Listed, Place, Filter;
    GroupHolds(groups, conflicts, g, c);
    assert Inward([], c) == g.parent;
    PlaceAnywhere(document, 0, g.parent);
    var members := Place(document, 0, g.parent).0.members;
    GroupAnchor(groups, conflicts, g, members);
    forall name ensures Listed(all, g.parent + [name]) <==> Listed(conflicts, g.parent + [name]) {
      SameListed(all, conflicts, g.parent + [name]);
    }
    SameAnchor(all, conflicts, g.parent, members);
    InList(g.conflicts, c);
  }

  lemma GroupHolds(groups: seq<Group>, conflicts: seq<Conflict>, g: Group, c: Conflict)
    requires Sorts(groups, conflicts) && g in groups && c in g.conflicts
    ensures Parent(c.pointer) == g.parent && c in conflicts
  {
    assert OfParent(g.parent)(c);
  }

  lemma InList(conflicts: seq<Conflict>, c: Conflict)
    requires c in conflicts
    ensures Listed(conflicts, c.pointer)
  {
    var i :| 0 <= i < |conflicts| && conflicts[i] == c;
  }

  // ----- the order groups come in makes no difference --------------------------------------------------------

  lemma {:induction false} FilterCount<T>(keep: T -> bool, xs: seq<T>, x: T)
    requires keep(x)
    ensures multiset(Filter(keep, xs))[x] == multiset(xs)[x]
  {
    if xs != [] {
      FilterCount(keep, xs[..|xs| - 1], x);
      assert xs == xs[..|xs| - 1] + [xs[|xs| - 1]];
    }
  }

  lemma {:induction false} DisjointOnce(conflicts: seq<Conflict>, c: Conflict)
    requires Disjoint(conflicts)
    ensures multiset(conflicts)[c] <= 1
  {
    if conflicts != [] {
      var front, last := conflicts[..|conflicts| - 1], conflicts[|conflicts| - 1];
      assert conflicts == front + [last];
      assert Disjoint(front) by {
        forall i, j | 0 <= i < |front| && 0 <= j < |front| && i != j ensures !(front[i].pointer <= front[j].pointer) {
          assert !(conflicts[i].pointer <= conflicts[j].pointer);
        }
      }
      DisjointOnce(front, c);
      if c == last {
        forall i | 0 <= i < |front| ensures front[i] != c {
          assert !(conflicts[i].pointer <= conflicts[|front|].pointer);
        }
        assert multiset(front)[c] == 0;
      }
    }
  }

  lemma TwiceCounts<T>(xs: seq<T>, i: nat, j: nat)
    requires i < j < |xs| && xs[i] == xs[j]
    ensures multiset(xs)[xs[i]] >= 2
  {
    assert xs == xs[..i] + [xs[i]] + xs[i + 1..j] + [xs[j]] + xs[j + 1..];
  }

  lemma {:induction false} SameIsDisjoint(left: seq<Conflict>, right: seq<Conflict>)
    requires SameByParent(left, right) && Disjoint(right)
    ensures Disjoint(left)
  {
    forall i, j | 0 <= i < |left| && 0 <= j < |left| && i != j ensures !(left[i].pointer <= left[j].pointer) {
      var c, d := left[i], left[j];
      SameMembersByParent(left, right, c);
      SameMembersByParent(left, right, d);
      if c == d {
        TwiceCounts(left, if i < j then i else j, if i < j then j else i);
        var of := OfParent(Parent(c.pointer));
        FilterCount(of, left, c);
        FilterCount(of, right, c);
        DisjointOnce(right, c);
      } else {
        var m :| 0 <= m < |right| && right[m] == c;
        var n :| 0 <= n < |right| && right[n] == d;
      }
    }
  }

  lemma {:induction false} SameThe(left: seq<Conflict>, right: seq<Conflict>, at: Path)
    requires SameByParent(left, right) && Disjoint(right) && Listed(left, at) && Listed(right, at)
    ensures The(left, at) == The(right, at)
  {
    SameMembersByParent(left, right, The(left, at));
    MarkMeaning.OneListed(right, The(left, at));
  }

  lemma {:induction false} SameMissing(v: Tree, p: Path, left: seq<Conflict>, right: seq<Conflict>)
    requires v.Dict? && Fits(v, p, left) && Fits(v, p, right)
    requires SameByParent(left, right)
    ensures Missing(v.members, p, left) == Missing(v.members, p, right)
  {
    MissingOfParent(v, p, left);
    MissingOfParent(v, p, right);
    assert Filter(OfParent(p), left) == Filter(OfParent(p), right);
  }

  lemma {:induction false} MissingOfParent(v: Tree, p: Path, conflicts: seq<Conflict>)
    requires v.Dict? && Fits(v, p, conflicts)
    ensures Missing(v.members, p, conflicts) == Filter(From(v.members, p, |v.members|), Filter(OfParent(p), conflicts))
  {
    var missing := From(v.members, p, |v.members|);
    FilterTwice(OfParent(p), missing, conflicts);
    forall c | c in conflicts ensures Both(OfParent(p), missing)(c) == missing(c) {
      if missing(c) {
        assert FitsAt(v, p, conflicts, c);
        MissingIsOwn(v, p, conflicts, c);
      }
    }
    FilterAgrees(Both(OfParent(p), missing), missing, conflicts);
  }

  lemma {:induction false} SameFits(v: Tree, left: seq<Conflict>, right: seq<Conflict>)
    requires SameByParent(left, right) && Fits(v, [], right)
    ensures Fits(v, [], left)
  {
    hide FitsAt, SameByParent, Filter;
    forall c | c in left && StrictlyUnder([], c.pointer) ensures FitsAt(v, [], left, c) {
      SameMembersByParent(left, right, c);
      assert FitsAt(v, [], right, c);
      SameFitsAt(v, left, right, c);
    }
  }

  lemma {:induction false} SameFitsAt(v: Tree, left: seq<Conflict>, right: seq<Conflict>, c: Conflict)
    requires SameByParent(left, right) && FitsAt(v, [], right, c)
    ensures FitsAt(v, [], left, c)
  {
    hide SameByParent, Listed, Anchor;
    var parent := Parent(c.pointer);
    SameListed(left, right, c.pointer);
    forall name ensures Listed(left, parent + [name]) <==> Listed(right, parent + [name]) {
      SameListed(left, right, parent + [name]);
    }
    SameAnchor(left, right, parent, Place(v, 0, Inward([], c)).0.members);
  }

  ghost predicate Alternatives(v: Tree, p: Path, left: seq<Conflict>, right: seq<Conflict>) {
    SameByParent(left, right) && Disjoint(right) && Fits(v, p, left) && Fits(v, p, right)
  }

  lemma {:induction false} SameMarkedTree(v: Tree, p: Path, left: seq<Conflict>, right: seq<Conflict>)
    requires WellFormed(v) && Alternatives(v, p, left, right)
    ensures MarkedTree(v, p, left) == MarkedTree(v, p, right)
    decreases v, 1
  {
    hide SameByParent, Disjoint, Fits, Anchor, MarkedFrom, Missing, Listed;
    if v.Dict? {
      forall name
        ensures Listed(left, p + [name]) <==> Listed(right, p + [name])
      { SameListed(left, right, p + [name]); }
      SameAnchor(left, right, p, v.members);
      SameMissing(v, p, left, right);
      SameMarkedFrom(v, p, left, right, Anchor(left, p, v.members), 0);
    }
  }

  lemma {:induction false} SameMarkedFrom(
    v: Tree, p: Path, left: seq<Conflict>, right: seq<Conflict>, anchor: nat, k: nat)
    requires v.Dict? && WellFormed(v) && Alternatives(v, p, left, right) && k <= |v.members|
    ensures MarkedFrom(v.members, p, left, anchor, k) == MarkedFrom(v.members, p, right, anchor, k)
    decreases v, 0, |v.members| - k
  {
    hide SameByParent, Disjoint, Fits, Anchor, Missing, Listed, MarkedTree;
    if k < |v.members| {
      var at := p + [v.members[k].name];
      SameMarkedFrom(v, p, left, right, anchor, k + 1);
      SameListed(left, right, at);
      if Listed(left, at) {
        SameThe(left, right, at);
      } else {
        MemberAlternatives(v, p, left, right, k);
        SameMarkedTree(v.members[k].value, at, left, right);
      }
    }
  }

  lemma MemberAlternatives(v: Tree, p: Path, left: seq<Conflict>, right: seq<Conflict>, k: nat)
    requires v.Dict? && WellFormed(v) && Alternatives(v, p, left, right) && k < |v.members|
    ensures Alternatives(v.members[k].value, p + [v.members[k].name], left, right)
  {
    assert DistinctNames(v.members);
    IndexOfMember(v.members, k);
    hide SameByParent, Disjoint, Fits;
    FitsMember(v, p, left, v.members[k].name);
    FitsMember(v, p, right, v.members[k].name);
  }

  // ----- marking -------------------------------------------------------------------------------------------------

  /** Promote until every object with a conflict has an anchor. */
  method Settle(document: Tree, conflicts: seq<Conflict>, theirs: Tree, base: Option<Tree>)
    returns (pending: seq<Conflict>, groups: seq<Group>)
    ensures pending == Settled(document, theirs, base, conflicts)
    ensures groups == Groups(pending)
  {
    pending := conflicts;
    groups := GroupByParent(pending);
    var unanchored := FirstUnanchored(document, groups);
    while unanchored.Some?
      invariant groups == Groups(pending) && unanchored == FirstUnanchored(document, groups)
      invariant Settled(document, theirs, base, pending) == Settled(document, theirs, base, conflicts)
      decreases Depths(pending)
    {
      FoundUnanchored(document, pending);
      DepthsFallByPromotion(document, theirs, base, pending, unanchored.value);
      pending := Promoted(document, theirs, base, pending, unanchored.value);
      groups := GroupByParent(pending);
      unanchored := FirstUnanchored(document, groups);
    }
  }

  /** Replace each stretch in turn. */
  method SpliceAll(items: seq<Item>, cuts: seq<Replacement>) returns (out: seq<Item>)
    requires InRange(items, cuts)
    ensures out == Splice(items, cuts)
  {
    out := items;
    for i := 0 to |cuts|
      invariant InRange(out, cuts[i..])
      invariant Splice(out, cuts[i..]) == Splice(items, cuts)
    {
      assert cuts[i..][1..] == cuts[i + 1..];
      out := out[..cuts[i].start] + [cuts[i].block] + out[cuts[i].end..];
    }
  }
}
