/** The method that marks a conflicted merge, and what its output promises. */
module MarkTheorems {
  import opened Json
  import opened Document
  import opened Merging
  import opened MergeDocuments
  import opened CanonicalForm
  import opened Sequences
  import opened Order
  import opened TheirsResolved
  import opened MarkLayout
  import opened MarkSplice
  import opened MarkedDocument
  import opened MarkMeaning
  import opened MarkOutcome
  import opened MarkPlan
  import opened Marking

  /** Nothing more to promote. */
  ghost predicate Ready(document: Tree, theirs: Tree, conflicts: seq<Conflict>) {
    && Pending(document, theirs, conflicts)
    && forall c | c in conflicts :: !IsUnanchored(document, conflicts, Parent(c.pointer))
  }

  function WholeCut(document: Tree, theirs: Tree, base: Option<Tree>): Replacement {
    Replacement(0, |Tokens(document)|, WholeBlock(document, theirs, base, []))
  }

  predicate AtRoot(conflicts: seq<Conflict>) {
    exists c | c in conflicts :: c.pointer == []
  }

  // ----- when the whole document is one conflict ------------------------------------------------------

  lemma {:induction false} DeeperConflict(document: Tree, theirs: Tree, conflicts: seq<Conflict>, d: Conflict)
    requires Pending(document, theirs, conflicts) && d in conflicts && Parent(d.pointer) != []
    ensures !RootWhole(document, conflicts)
  {
    hide Alike, WellFormed, Content;
    assert Stands(document, theirs, d);
    var name := d.pointer[0];
    assert Parent(d.pointer)[0] == name;
    ApartNames(conflicts, d, []);
    ApartNames(conflicts, d, [] + [name]);
    NotAtRoot(conflicts);
    AnchorIsFirst(conflicts, [], document.members, IndexOf(document.members, name));
    AnchorAtMostHere(conflicts, document.members, IndexOf(document.members, name));
  }

  lemma {:induction false} NotAtRoot(conflicts: seq<Conflict>)
    requires !Listed(conflicts, [])
    ensures !AtRoot(conflicts)
  {
    forall c | c in conflicts ensures c.pointer != [] {
      var i :| 0 <= i < |conflicts| && conflicts[i] == c;
    }
  }

  lemma {:induction false} AnchorAtMostHere(conflicts: seq<Conflict>, members: seq<Entry>, k: nat)
    requires k < |members| && !Listed(conflicts, [] + [members[k].name])
    ensures Anchor(conflicts, [], members) < |members|
  {
    AnchorIsFirst(conflicts, [], members, k);
    AnchorAtMost(conflicts, [], members);
  }

  lemma AnchorAtMost(conflicts: seq<Conflict>, at: Path, members: seq<Entry>)
    ensures Anchor(conflicts, at, members) <= |members|
  {
  }

  lemma {:induction false} RootConflicts(document: Tree, theirs: Tree, conflicts: seq<Conflict>, d: Conflict)
    requires Pending(document, theirs, conflicts) && RootWhole(document, conflicts) && d in conflicts
    ensures Parent(d.pointer) == []
    ensures AtRoot(conflicts) ==> d.pointer == []
  {
    hide Pending, RootWhole;
    if Parent(d.pointer) != [] { DeeperConflict(document, theirs, conflicts, d); }
    if AtRoot(conflicts) {
      var c :| c in conflicts && c.pointer == [];
      PendingApart(document, theirs, conflicts);
      if d.pointer != [] { InDisjoint(conflicts, c, d); }
    }
  }

  lemma SoleGroup(groups: seq<Group>, conflicts: seq<Conflict>, i: nat)
    requires Sorts(groups, conflicts) && i < |groups| && groups[i].parent == []
    ensures i == GroupOf(groups, [])
  {
    var k := GroupOf(groups, []);
    assert groups[if k < i then k else i].parent == [] || k == |groups|;
  }

  /** Then there is one group, of the root's members. */
  lemma {:induction false} OneGroup(document: Tree, theirs: Tree, conflicts: seq<Conflict>)
    requires Pending(document, theirs, conflicts) && RootWhole(document, conflicts)
    ensures var groups := Groups(conflicts);
      && |groups| == 1 && groups[0].parent == []
      && AtRoot(groups[0].conflicts) == AtRoot(conflicts)
      && (!AtRoot(conflicts) ==>
            document.Dict? && Anchor(groups[0].conflicts, [], document.members) >= |document.members|)
  {
    hide Groups, Pending, Anchor, Filter;
    var groups := Groups(conflicts);
    GroupsSort(conflicts);
    var c :| c in conflicts && Parent(c.pointer) == [];
    var k := GroupOf(groups, []);
    assert k < |groups|;
    forall i | 0 <= i < |groups| ensures groups[i].parent == [] {
      var d := groups[i].conflicts[0];
      assert d in groups[i].conflicts && groups[i] in groups;
      GroupHolds(groups, conflicts, groups[i], d);
      RootConflicts(document, theirs, conflicts, d);
    }
    SoleGroup(groups, conflicts, 0);
    SoleGroup(groups, conflicts, |groups| - 1);
    var g := groups[0];
    forall d ensures d in conflicts <==> d in g.conflicts {
      if d in conflicts { RootConflicts(document, theirs, conflicts, d); }
      OfRoot(conflicts, g, d);
    }
    if document.Dict? { GroupAnchor(groups, conflicts, g, document.members); }
  }

  lemma OfRoot(conflicts: seq<Conflict>, g: Group, d: Conflict)
    requires g.parent == [] && g.conflicts == Filter(OfParent([]), conflicts)
    ensures d in g.conflicts <==> d in conflicts && Parent(d.pointer) == []
  {
    assert OfParent([])(d) <==> Parent(d.pointer) == [];
  }

  // ----- collecting the stretches --------------------------------------------------------------------------

  /** What the groups need for their stretches to be cut. */
  ghost predicate Cuttable(document: Tree, theirs: Tree, pending: seq<Conflict>, groups: seq<Group>) {
    Ready(document, theirs, pending) && groups == Groups(pending)
  }

  lemma {:induction false} FlatFits(document: Tree, theirs: Tree, pending: seq<Conflict>, groups: seq<Group>)
    requires Cuttable(document, theirs, pending, groups) && !RootWhole(document, pending)
    ensures SameByParent(AllConflicts(groups), pending) && Disjoint(AllConflicts(groups)) && Disjoint(pending)
    ensures Fits(document, [], AllConflicts(groups)) && Fits(document, [], pending)
    ensures forall c | c in AllConflicts(groups) :: c.pointer != [] && FitsAt(document, [], AllConflicts(groups), c)
    ensures Within(document, [], AllConflicts(groups), AllConflicts(groups))
  {
    hide Alike, WellFormed, Content, RootWhole, IsUnanchored, FitsAt, SameByParent, Groups, AllConflicts;
    var all := AllConflicts(groups);
    FlatIsSame(pending);
    SettledFits(document, theirs, pending);
    SameIsDisjoint(all, pending);
    SameFits(document, all, pending);
    forall c | c in all ensures c.pointer != [] && FitsAt(document, [], all, c) {
      SameMembersByParent(all, pending, c);
      RootFits(document, all, c);
    }
  }

  /** What is collected after some groups, and some conflicts of the next. */
  ghost predicate Collected(document: Tree, all: seq<Conflict>, done: seq<Conflict>, cuts: seq<Replacement>) {
    && Within(document, [], all, done)
    && cuts == Cuts(document, 0, [], all, done)
  }

  lemma CollectedOne(document: Tree, all: seq<Conflict>, done: seq<Conflict>, cuts: seq<Replacement>, c: Conflict)
    requires Collected(document, all, done, cuts) && c in all && FitsAt(document, [], all, c)
    ensures Collected(document, all, done + [c], cuts + [CutIn(document, 0, [], all, c)])
  {
    hide FitsAt, CutIn;
  }

  lemma FlatPrefix(groups: seq<Group>, n: nat)
    requires n < |groups|
    ensures AllConflicts(groups[..n + 1]) == AllConflicts(groups[..n]) + groups[n].conflicts
  {
    assert groups[..n + 1][..n] == groups[..n];
  }

  lemma {:induction false} FlatHolds(groups: seq<Group>, g: Group, c: Conflict)
    requires g in groups && c in g.conflicts
    ensures c in AllConflicts(groups)
  {
    var front, last := groups[..|groups| - 1], groups[|groups| - 1];
    if g != last {
      assert g in front;
      FlatHolds(front, g, c);
    }
  }

  /** Facts the loop over one group needs. */
  lemma {:induction false} GroupIsCuttable(
    document: Tree, theirs: Tree, pending: seq<Conflict>, groups: seq<Group>, g: Group)
    requires Cuttable(document, theirs, pending, groups) && !RootWhole(document, pending) && g in groups
    ensures !AtRoot(g.conflicts) && DictAt(document, g.parent)
    ensures var members := Place(document, 0, g.parent).0.members; Anchor(g.conflicts, g.parent, members) < |members|
    ensures forall c | c in g.conflicts ::
      && c in AllConflicts(groups) && FitsAt(document, [], AllConflicts(groups), c)
      && c.pointer != [] && Parent(c.pointer) == g.parent && Listed(g.conflicts, c.pointer)
      && CutIn(document, 0, [], AllConflicts(groups), c)
           == Cut(g.conflicts, Place(document, 0, g.parent).0.members, Place(document, 0, g.parent).1 + 1, c)
  {
    hide Ready, RootWhole, Groups, AllConflicts, Sorts, FitsAt, SameByParent, Fits, Disjoint, Listed, Anchor, Cut,
      CutIn, Place;
    FlatFits(document, theirs, pending, groups);
    GroupsSort(pending);
    GroupIsSome(groups, pending, g);
    forall c | c in g.conflicts
      ensures c in AllConflicts(groups) && FitsAt(document, [], AllConflicts(groups), c)
      ensures DictAt(document, g.parent) && c.pointer != [] && Parent(c.pointer) == g.parent
      ensures Listed(g.conflicts, c.pointer)
      ensures var members := Place(document, 0, g.parent).0.members; Anchor(g.conflicts, g.parent, members) < |members|
      ensures CutIn(document, 0, [], AllConflicts(groups), c)
        == Cut(g.conflicts, Place(document, 0, g.parent).0.members, Place(document, 0, g.parent).1 + 1, c)
    {
      FlatHolds(groups, g, c);
      GroupCut(document, groups, pending, AllConflicts(groups), g, c);
    }
  }

  lemma GroupIsSome(groups: seq<Group>, pending: seq<Conflict>, g: Group)
    requires Sorts(groups, pending) && g in groups
    ensures g.conflicts != [] && g.conflicts[0] in g.conflicts
  {
  }

  /** The stretch of every conflict, object by object. */
  method Stretches(document: Tree, theirs: Tree, base: Option<Tree>, groups: seq<Group>, ghost pending: seq<Conflict>)
    returns (cuts: seq<Replacement>)
    requires Cuttable(document, theirs, pending, groups)
    ensures RootWhole(document, pending) ==> cuts == [WholeCut(document, theirs, base)]
    ensures !RootWhole(document, pending) ==> Collected(document, AllConflicts(groups), AllConflicts(groups), cuts)
  {
    cuts := [];
    ghost var root := RootWhole(document, pending);
    ghost var all := AllConflicts(groups);
    hide Cuttable, RootWhole, Place, DictAt, FitsAt, CutIn, Cut, Collected, Anchor, Listed, WholeCut;
    if root { RootGroupIsWhole(document, theirs, pending, groups); } else { NoneCollected(document, all); }
    for i := 0 to |groups|
      invariant root ==> cuts == if i == 0 then [] else [WholeCut(document, theirs, base)]
      invariant !root ==> Collected(document, all, AllConflicts(groups[..i]), cuts)
    {
      var g := groups[i];
      if !root { GroupIsCuttable(document, theirs, pending, groups, g); }
      FlatPrefix(groups, i);
      if AtRoot(g.conflicts) {
        cuts := cuts + [WholeCut(document, theirs, base)];
      } else {
        var (node, start) := Place(document, 0, g.parent);
        if Anchor(g.conflicts, g.parent, node.members) == |node.members| {
          cuts := cuts + [WholeCut(document, theirs, base)];
        } else {
          assert AllConflicts(groups[..i]) + g.conflicts[..0] == AllConflicts(groups[..i]);
          for j := 0 to |g.conflicts|
            invariant !root && Collected(document, all, AllConflicts(groups[..i]) + g.conflicts[..j], cuts)
          {
            var c := g.conflicts[j];
            assert c in g.conflicts;
            CollectedOne(document, all, AllConflicts(groups[..i]) + g.conflicts[..j], cuts, c);
            cuts := cuts + [Cut(g.conflicts, node.members, start + 1, c)];
            assert AllConflicts(groups[..i]) + g.conflicts[..j] + [c]
              == AllConflicts(groups[..i]) + g.conflicts[..j + 1];
          }
          assert g.conflicts[..|g.conflicts|] == g.conflicts;
        }
      }
    }
    assert groups[..|groups|] == groups;
  }

  lemma NoneCollected(document: Tree, all: seq<Conflict>)
    ensures Collected(document, all, AllConflicts([]), [])
  {
  }

  lemma {:induction false} RootGroupIsWhole(document: Tree, theirs: Tree, pending: seq<Conflict>, groups: seq<Group>)
    requires Cuttable(document, theirs, pending, groups) && RootWhole(document, pending)
    ensures |groups| == 1 && groups[0].parent == []
    ensures !AtRoot(groups[0].conflicts) ==>
      && DictAt(document, groups[0].parent) && Place(document, 0, groups[0].parent) == (document, 0)
      && Anchor(groups[0].conflicts, groups[0].parent, document.members) == |document.members|
  {
    OneGroup(document, theirs, pending);
    hide Ready, Groups, RootWhole;
    if !AtRoot(groups[0].conflicts) { AnchorAtMost(groups[0].conflicts, [], document.members); }
  }

  // ----- the whole method ---------------------------------------------------------------------------------

  /** The conflicted merge with markers around each conflict. */
  method MarkConflicts(document: Tree, conflicts: seq<Conflict>, theirs: Tree, base: Option<Tree>)
    returns (out: seq<Item>)
    requires Pending(document, theirs, conflicts) && WellFormedOption(base)
    ensures out == Marked(document, theirs, base, conflicts)
  {
    hide Pending, WellFormedOption, RootWhole, Collected, Splice, MarkedTree;
    SettledIsPending(document, theirs, base, conflicts);
    var pending, groups := Settle(document, conflicts, theirs, base);
    var cuts := Stretches(document, theirs, base, groups, pending);
    cuts := Sort(CompareCuts, cuts);
    CutsSplice(document, theirs, base, pending, groups);
    out := SpliceAll(Plains(Tokens(document)), cuts);
  }

  /** The sorted stretches, spliced, mark the document. */
  lemma {:induction false} CutsSplice(
    document: Tree, theirs: Tree, base: Option<Tree>, pending: seq<Conflict>, groups: seq<Group>)
    requires Cuttable(document, theirs, pending, groups)
    ensures RootWhole(document, pending) ==>
      Splices(Plains(Tokens(document)), Sort(CompareCuts, [WholeCut(document, theirs, base)]),
        [WholeBlock(document, theirs, base, [])])
    ensures !RootWhole(document, pending) ==>
      forall cuts | Collected(document, AllConflicts(groups), AllConflicts(groups), cuts) ::
      Splices(Plains(Tokens(document)), Sort(CompareCuts, cuts), MarkedTree(document, [], pending))
  {
    hide *;
    if RootWhole(document, pending) {
      WholeSplices(document, theirs, base);
    } else {
      var all := AllConflicts(groups);
      TreeSplices(document, theirs, pending, groups);
      forall cuts | Collected(document, all, all, cuts)
        ensures Splices(Plains(Tokens(document)), Sort(CompareCuts, cuts), MarkedTree(document, [], pending))
      {
        CollectedIsCuts(document, all, all, cuts);
      }
    }
  }

  lemma {:induction false} TreeSplices(document: Tree, theirs: Tree, pending: seq<Conflict>, groups: seq<Group>)
    requires Cuttable(document, theirs, pending, groups) && !RootWhole(document, pending)
    ensures var all := AllConflicts(groups);
      && Within(document, [], all, all)
      && Splices(Plains(Tokens(document)), Sort(CompareCuts, Cuts(document, 0, [], all, all)),
        MarkedTree(document, [], pending))
  {
    hide *;
    var all := AllConflicts(groups);
    FlatFits(document, theirs, pending, groups);
    CuttableIsWellFormed(document, theirs, pending, groups);
    AllBelow(all);
    SpliceTree(document, 0, [], all, [], []);
    assert [] + Plains(Tokens(document)) + [] == Plains(Tokens(document));
    assert [] + MarkedTree(document, [], all) + [] == MarkedTree(document, [], all);
    AllAlternatives(document, all, pending);
    SameMarkedTree(document, [], all, pending);
  }

  lemma AllAlternatives(document: Tree, all: seq<Conflict>, pending: seq<Conflict>)
    requires SameByParent(all, pending) && Disjoint(all) && Disjoint(pending)
    requires Fits(document, [], all) && Fits(document, [], pending)
    ensures Alternatives(document, [], all, pending)
  {
    hide SameByParent, Disjoint, Fits;
  }

  lemma CollectedIsCuts(document: Tree, all: seq<Conflict>, done: seq<Conflict>, cuts: seq<Replacement>)
    requires Collected(document, all, done, cuts) && Within(document, [], all, done)
    ensures cuts == Cuts(document, 0, [], all, done)
  {
  }

  lemma CuttableIsWellFormed(document: Tree, theirs: Tree, pending: seq<Conflict>, groups: seq<Group>)
    requires Cuttable(document, theirs, pending, groups)
    ensures WellFormed(document)
  {
  }

  lemma {:induction false} AllBelow(all: seq<Conflict>)
    requires forall c | c in all :: c.pointer != []
    ensures Filter(Below([]), all) == all
  {
    forall c | c in all ensures Below([])(c) == Anyone()(c) {
      assert c.pointer != [];
    }
    FilterAgrees(Below([]), Anyone(), all);
    KeepsAnyone(all);
  }

  function Anyone(): Conflict -> bool {
    (c: Conflict) => true
  }

  lemma {:induction false} KeepsAnyone(all: seq<Conflict>)
    ensures Filter(Anyone(), all) == all
  {
    if all != [] {
      KeepsAnyone(all[..|all| - 1]);
      assert all == all[..|all| - 1] + [all[|all| - 1]];
    }
  }

  lemma WholeSplices(document: Tree, theirs: Tree, base: Option<Tree>)
    ensures Splices(Plains(Tokens(document)), Sort(CompareCuts, [WholeCut(document, theirs, base)]),
      [WholeBlock(document, theirs, base, [])])
  {
    hide Tokens, Plains, WholeBlock, Sort, Splice, InRange;
    var cut, text := WholeCut(document, theirs, base), Plains(Tokens(document));
    SortOfSorted(CompareCuts, [cut]);
    SplicesOne([], text, [], cut);
    assert [] + text + [] == text;
    assert [] + [cut.block] + [] == [cut.block];
  }

  // ----- what a resolution is ---------------------------------------------------------------------------------

  /** The document a choice of sides leaves, if it leaves one. */
  ghost function Resolution(
    document: Tree, theirs: Tree, base: Option<Tree>, conflicts: seq<Conflict>, choice: Path -> Side): Option<Tree>
  {
    var settled := Settled(document, theirs, base, conflicts);
    if RootWhole(document, settled) then
      var side := SideOf(Whole(document, theirs, base, []), choice([]));
      if side.Some? then Some(Canonical(side.value)) else None
    else Some(Picked(document, [], settled, choice))
  }

  /** The one resolution that is not JSON: the ancestor's side of a document there was no ancestor of. */
  ghost predicate KeepsMissingAncestor(
    document: Tree, theirs: Tree, base: Option<Tree>, conflicts: seq<Conflict>, choice: Path -> Side)
  {
    base.None? && choice([]) == Base && RootWhole(document, Settled(document, theirs, base, conflicts))
  }

  /** Every choice of sides leaves JSON, save the one that keeps an ancestor there never was. */
  lemma {:induction false} EveryResolutionIsJson(
    document: Tree, theirs: Tree, base: Option<Tree>, conflicts: seq<Conflict>, choice: Path -> Side)
    requires Pending(document, theirs, conflicts) && WellFormedOption(base)
    ensures var text := Resolve(Marked(document, theirs, base, conflicts), choice);
      var resolution := Resolution(document, theirs, base, conflicts, choice);
      && (IsJson(text) <==> !KeepsMissingAncestor(document, theirs, base, conflicts, choice))
      && (IsJson(text) <==> resolution.Some?)
      && (resolution.Some? ==> WellFormed(resolution.value) && text == Tokens(resolution.value))
  {
    hide Pending, RootWhole, Settled, IsJson, WellFormed, Tokens, Resolve, Picked, Canonical, MarkedTree, WholeBlock;
    var settled := Settled(document, theirs, base, conflicts);
    SettledIsPending(document, theirs, base, conflicts);
    PendingIsWellFormed(document, theirs, settled);
    if RootWhole(document, settled) {
      WholeResolves(document, theirs, base, choice);
    } else {
      SettledFits(document, theirs, settled);
      EveryChoiceIsJson(document, settled, choice);
    }
  }

  lemma PendingIsWellFormed(document: Tree, theirs: Tree, conflicts: seq<Conflict>)
    requires Pending(document, theirs, conflicts)
    ensures WellFormed(document) && WellFormed(theirs) && Disjoint(conflicts) && SidesWellFormed(conflicts)
    ensures Alike(Some(Content(document)), Some(Content(theirs)), Paths(conflicts))
  {
  }

  lemma WholeResolves(document: Tree, theirs: Tree, base: Option<Tree>, choice: Path -> Side)
    requires WellFormed(document) && WellFormed(theirs) && WellFormedOption(base)
    ensures var text := Resolve([WholeBlock(document, theirs, base, [])], choice);
      var side := SideOf(Whole(document, theirs, base, []), choice([]));
      && (side.None? <==> base.None? && choice([]) == Base)
      && (side.None? ==> !IsJson(text))
      && (side.Some? ==> WellFormed(Canonical(side.value)) && text == Tokens(Canonical(side.value)) && IsJson(text))
  {
    hide WellFormed, Canonical, Tokens, IsJson;
    ResolveOne(WholeBlock(document, theirs, base, []), choice);
    var side := SideOf(Whole(document, theirs, base, []), choice([]));
    if side.Some? {
      CanonicalSide(Conflict([], side, side, side), Ours);
      JsonIsSpelledTrees(Tokens(Canonical(side.value)));
    } else {
      NothingIsNoJson();
    }
  }

  lemma NothingIsNoJson()
    ensures !IsJson([])
  {
  }

  /** A resolution holds at every block the side chosen there, and elsewhere what the document holds. */
  lemma {:induction false} ResolutionHolds(
    document: Tree, theirs: Tree, base: Option<Tree>, conflicts: seq<Conflict>, choice: Path -> Side)
    requires Pending(document, theirs, conflicts) && WellFormedOption(base)
    requires !KeepsMissingAncestor(document, theirs, base, conflicts, choice)
    ensures var settled := Settled(document, theirs, base, conflicts);
      var blocks := if RootWhole(document, settled) then [Whole(document, theirs, base, [])] else settled;
      var resolution := Resolution(document, theirs, base, conflicts, choice);
      && resolution.Some?
      && (forall c | c in blocks ::
            At(Some(Content(resolution.value)), c.pointer) == NormalOption(ContentOf(SideOf(c, choice(c.pointer)))))
      && Alike(Some(Content(resolution.value)), Some(Content(document)), Paths(blocks))
      && Alike(Some(Content(document)), Some(Content(theirs)), Paths(blocks))
      && forall c | c in blocks :: Stands(document, theirs, c)
  {
    hide Pending, RootWhole, Settled, WellFormed, Picked, Canonical, Content, At;
    var settled := Settled(document, theirs, base, conflicts);
    SettledIsPending(document, theirs, base, conflicts);
    PendingIsWellFormed(document, theirs, settled);
    if RootWhole(document, settled) {
      var whole := Whole(document, theirs, base, []);
      var side := SideOf(whole, choice([]));
      CanonicalSide(Conflict([], side, side, side), Ours);
      RootIsCovered(Some(Content(Canonical(side.value))), Some(Content(document)), whole);
      RootIsCovered(Some(Content(document)), Some(Content(theirs)), whole);
      AtNowhere(Content(Canonical(side.value)));
      AtNowhere(Content(document));
      AtNowhere(Content(theirs));
    } else {
      SettledFits(document, theirs, settled);
      EveryChoiceIsJson(document, settled, choice);
      PendingStand(document, theirs, settled);
    }
  }

  lemma PendingStand(document: Tree, theirs: Tree, conflicts: seq<Conflict>)
    requires Pending(document, theirs, conflicts)
    ensures forall c | c in conflicts :: Stands(document, theirs, c)
  {
  }

  lemma AtNowhere(v: Value)
    ensures At(Some(v), []) == Some(v)
  {
  }

  lemma RootIsCovered(a: Option<Value>, b: Option<Value>, c: Conflict)
    requires c.pointer == []
    ensures Alike(a, b, Paths([c]))
  {
    assert c.pointer in Paths([c]);
    forall q: Path ensures Covered(q, Paths([c])) {
      assert [] <= q;
    }
  }

  function Always(side: Side): Path -> Side {
    _ => side
  }

  /**
   Keeping ours everywhere leaves the merged document, and keeping theirs the merge resolved their
   way, as logical values.
   */
  lemma {:induction false} OneSideThroughout(document: Tree, theirs: Tree, base: Option<Tree>, conflicts: seq<Conflict>)
    requires Pending(document, theirs, conflicts) && WellFormedOption(base)
    ensures var ours := Resolution(document, theirs, base, conflicts, Always(Ours));
      ours.Some? && Normal(Content(ours.value)) == Normal(Content(document))
    ensures var resolved := Resolution(document, theirs, base, conflicts, Always(Theirs));
      resolved.Some? && Normal(Content(resolved.value)) == Normal(Content(theirs))
  {
    hide Pending, RootWhole, Settled, WellFormed, Picked, Canonical, Content, At, Alike, Resolution;
    var settled := Settled(document, theirs, base, conflicts);
    var blocks := if RootWhole(document, settled) then [Whole(document, theirs, base, [])] else settled;
    ResolutionHolds(document, theirs, base, conflicts, Always(Ours));
    ResolutionHolds(document, theirs, base, conflicts, Always(Theirs));
    var d, t := Some(Content(document)), Some(Content(theirs));
    var ours := Some(Content(Resolution(document, theirs, base, conflicts, Always(Ours)).value));
    var resolved := Some(Content(Resolution(document, theirs, base, conflicts, Always(Theirs)).value));
    AlikeThrough(resolved, d, t, Paths(blocks));
    forall r | r in Paths(blocks)
      ensures NormalOption(At(ours, r)) == NormalOption(At(d, r))
      ensures NormalOption(At(resolved, r)) == NormalOption(At(t, r))
    {
      var c :| c in blocks && c.pointer == r;
      assert Stands(document, theirs, c);
      TwiceNormal(At(d, r));
      TwiceNormal(At(t, r));
    }
    AlikeAndEqual(ours, d, Paths(blocks), true);
    AlikeAndEqual(resolved, t, Paths(blocks), true);
  }

  lemma TwiceNormal(v: Option<Value>)
    ensures NormalOption(NormalOption(v)) == NormalOption(v)
  {
    if v.Some? { NormalIsStable(v.value); }
  }

  /**
   Keeping ours everywhere gives exactly the merged value when, and only when, no marked side of
   ours has a number to respell.
   */
  lemma {:induction false} OursIsExact(document: Tree, theirs: Tree, base: Option<Tree>, conflicts: seq<Conflict>)
    requires Pending(document, theirs, conflicts) && WellFormedOption(base)
    ensures var settled := Settled(document, theirs, base, conflicts);
      var blocks := if RootWhole(document, settled) then [Whole(document, theirs, base, [])] else settled;
      var ours := Resolution(document, theirs, base, conflicts, Always(Ours));
      && ours.Some?
      && (Content(ours.value) == Content(document) <==>
            (forall c | c in blocks :: NormalOption(ContentOf(c.ours)) == ContentOf(c.ours)))
  {
    hide Pending, RootWhole, Settled, WellFormed, Picked, Canonical, Content, At, Alike, Resolution;
    var settled := Settled(document, theirs, base, conflicts);
    var blocks := if RootWhole(document, settled) then [Whole(document, theirs, base, [])] else settled;
    ResolutionHolds(document, theirs, base, conflicts, Always(Ours));
    var ours := Some(Content(Resolution(document, theirs, base, conflicts, Always(Ours)).value));
    var d := Some(Content(document));
    forall c | c in blocks
      ensures At(ours, c.pointer) == NormalOption(ContentOf(c.ours)) && At(d, c.pointer) == ContentOf(c.ours)
    {
      assert Stands(document, theirs, c);
    }
    if forall c | c in blocks :: NormalOption(ContentOf(c.ours)) == ContentOf(c.ours) {
      AlikeAndEqual(ours, d, Paths(blocks), false);
    }
  }

  /**
   `1.50` against `2`: keeping ours of that conflict leaves `1.5`; and with no ancestor, keeping
   base leaves nothing.
   */
  lemma {:induction false} OursCanBeRespelled()
    ensures var ours, theirs := Leaf(NumberScalar("1.50")), Leaf(NumberScalar("2"));
      var conflicts := [Conflict([], None, Some(ours), Some(theirs))];
      var kept := Resolution(ours, theirs, None, conflicts, Always(Ours));
      && Pending(ours, theirs, conflicts)
      && kept.Some? && Content(kept.value) == Value.Number("1.5") != Content(ours)
      && !IsJson(Resolve(Marked(ours, theirs, None, conflicts), Always(Base)))
  {
    hide *;
    var ours, theirs := Leaf(NumberScalar("1.50")), Leaf(NumberScalar("2"));
    var c := Conflict([], None, Some(ours), Some(theirs));
    RespelledSides(ours, theirs, c);
    RootSettles(ours, theirs, None, c);
    EveryResolutionIsJson(ours, theirs, None, [c], Always(Base));
    RootResolves(ours, theirs, None, c);
  }

  lemma {:induction false} RespelledSides(ours: Tree, theirs: Tree, c: Conflict)
    requires ours == Leaf(NumberScalar("1.50")) && theirs == Leaf(NumberScalar("2"))
    requires c == Conflict([], None, Some(ours), Some(theirs))
    ensures Pending(ours, theirs, [c]) && WellFormedOption(None)
    ensures Canonical(ours) == Leaf(NumberScalar("1.5"))
    ensures Content(Canonical(ours)) == Value.Number("1.5") != Content(ours)
  {
    hide Alike, Paths, Numbers.CanonicalNumber;
    RootIsCovered(Some(Content(ours)), Some(Content(theirs)), c);
    Numbers.TrailingZeroGoes();
  }

  lemma RootResolves(document: Tree, theirs: Tree, base: Option<Tree>, c: Conflict)
    requires RootWhole(document, [c]) && Settled(document, theirs, base, [c]) == [c]
    ensures Resolution(document, theirs, base, [c], Always(Ours)) == Some(Canonical(document))
    ensures base.None? ==> KeepsMissingAncestor(document, theirs, base, [c], Always(Base))
  {
    hide RootWhole, Canonical, Settled, Picked;
  }

  lemma {:induction false} RootSettles(document: Tree, theirs: Tree, base: Option<Tree>, c: Conflict)
    requires c.pointer == []
    ensures Settled(document, theirs, base, [c]) == [c] && RootWhole(document, [c])
  {
    hide Promoted;
    assert [c][..0] == [];
    assert Groups([c]) == [Group([], [c])];
    assert [Group([], [c])][1..] == [];
    assert FirstUnanchored(document, [Group([], [c])]) == None;
    assert c in [c];
  }

  // ----- from the merge to the marks ----------------------------------------------------------------------------

  lemma {:induction false} OnTheWay(
    p: Path, base: Option<Value>, ours: Option<Value>, theirs: Option<Value>, theirWay: iset<Path>)
    requires ours.Some? && theirs.Some? && Conflicting(p, base, ours, theirs)
    ensures p != [] ==> ObjectsAlong(Merged(base, ours, theirs, theirWay), Parent(p))
    ensures At(Merged(base, ours, theirs, theirWay), p) == if p in theirWay then At(theirs, p) else At(ours, p)
    decreases |p|
  {
    if p != [] {
      var name := p[0];
      var b, o, h := Get(base, name), Get(ours, name), Get(theirs, name);
      MergedMember(base, ours, theirs, theirWay, name);
      assert p == [name] + p[1..];
      assert p[1..] in Tails(theirWay, name) <==> p in theirWay;
      if |p| == 1 {
        assert p[1..] == [] && [name] == p;
      } else {
        ConflictsAreForks(p[1..], b, o, h);
        assert BothObjects(At(o, p[1..][..0]), At(h, p[1..][..0]));
        OnTheWay(p[1..], b, o, h, Tails(theirWay, name));
        assert Parent(p)[0] == name && Parent(p)[1..] == Parent(p[1..]);
      }
    }
  }

  /** The merge and the merge resolved their way differ only at conflicts. */
  lemma {:induction false} MergesAreAlike(
    q: Path, base: Option<Value>, ours: Option<Value>, theirs: Option<Value>, s: iset<Path>, t: iset<Path>)
    ensures var a, b := At(Merged(base, ours, theirs, s), q), At(Merged(base, ours, theirs, t), q);
      (exists n | 0 <= n <= |q| :: Conflicting(q[..n], base, ours, theirs)) || a == b || BothObjects(a, b)
    decreases |q|
  {
    assert q[..0] == [];
    if Forked(base, ours, theirs) && BothObjects(ours, theirs) && q != [] {
      var name := q[0];
      var b, o, h := Get(base, name), Get(ours, name), Get(theirs, name);
      MergedMember(base, ours, theirs, s, name);
      MergedMember(base, ours, theirs, t, name);
      if o.Some? && h.Some? {
        MergesAreAlike(q[1..], b, o, h, Tails(s, name), Tails(t, name));
        if n :| 0 <= n <= |q[1..]| && Conflicting(q[1..][..n], b, o, h) {
          assert q[..n + 1][1..] == q[1..][..n] && q[..n + 1][0] == name;
          assert Conflicting(q[..n + 1], base, ours, theirs);
        }
      } else if Forked(b, o, h) {
        assert q[..1][1..] == [] && q[..1][0] == name;
        assert Conflicting(q[..1], base, ours, theirs);
      }
    }
  }

  /** What the merge hands on is ready to be marked, however the merged document orders its members. */
  lemma {:induction false} MergeIsPending(base: Option<Tree>, ours: Tree, theirs: Tree, document: Tree)
    requires WellFormedOption(base) && WellFormed(ours) && WellFormed(theirs) && WellFormed(document)
    requires Some(Content(document)) == ContentOf(MergeValue([], base, Some(ours), Some(theirs)).0)
    ensures var (merged, conflicts) := MergeValue([], base, Some(ours), Some(theirs));
      merged.Some? && Pending(document, ResolveTheirs(merged.value, conflicts), conflicts)
  {
    hide Content, WellFormed, MergeValue, Merged, ResolveTheirs, At, Alike, Conflicting, Pending;
    var (merged, conflicts) := MergeValue([], base, Some(ours), Some(theirs));
    TheirsResolvedIsMergeExchanged(base, ours, theirs);
    MergeValueMeans([], base, Some(ours), Some(theirs));
    MergeValueMeans([], base, Some(theirs), Some(ours));
    var b, o, h := ContentOf(base), Some(Content(ours)), Some(Content(theirs));
    var resolved := ResolveTheirs(merged.value, conflicts);
    TheirWayIsOursExchanged(b, o, h);
    assert Some(Content(document)) == Merged(b, o, h, iset{});
    assert Some(Content(resolved)) == Merged(b, o, h, Everywhere());
    forall c | c in conflicts ensures Describes(c, c.pointer, b, o, h) {
      assert c.pointer[0..] == c.pointer;
    }
    forall p | Conflicting(p, b, o, h) ensures p in Paths(conflicts) {
      var c :| c in conflicts && c.pointer == [] + p;
    }
    ReportsArePending(document, resolved, conflicts, b, o, h);
  }

  lemma {:induction false} ReportsArePending(
    document: Tree, resolved: Tree, conflicts: seq<Conflict>, base: Option<Value>, ours: Option<Value>,
      theirs: Option<Value>)
    requires WellFormed(document) && WellFormed(resolved) && ours.Some? && theirs.Some?
    requires Some(Content(document)) == Merged(base, ours, theirs, iset{})
    requires Some(Content(resolved)) == Merged(base, ours, theirs, Everywhere())
    requires MergeDocuments.Apart(conflicts)
    requires forall c | c in conflicts :: Describes(c, c.pointer, base, ours, theirs)
    requires forall p | Conflicting(p, base, ours, theirs) :: p in Paths(conflicts)
    ensures Pending(document, resolved, conflicts)
  {
    hide Content, WellFormed, Merged, At, Conflicting, DictAt, ObjectsAlong;
    forall c | c in conflicts ensures Stands(document, resolved, c) {
      OnTheWay(c.pointer, base, ours, theirs, iset{});
      OnTheWay(c.pointer, base, ours, theirs, Everywhere());
      DictsAlong(document, Parent(c.pointer));
      DictsAlong(resolved, Parent(c.pointer));
    }
    forall i, j | 0 <= i < |conflicts| && 0 <= j < |conflicts| && i != j
      ensures !(conflicts[i].pointer <= conflicts[j].pointer)
    {
      var c, d := conflicts[i], conflicts[j];
      assert c in conflicts && d in conflicts;
      if c.pointer <= d.pointer { ConflictsAreApart(c.pointer, d.pointer, base, ours, theirs); }
    }
    forall q ensures Covered(q, Paths(conflicts)) || At(Some(Content(document)), q) == At(Some(Content(resolved)), q)
      || BothObjects(At(Some(Content(document)), q), At(Some(Content(resolved)), q))
    {
      MergesAreAlike(q, base, ours, theirs, iset{}, Everywhere());
      if n :| 0 <= n <= |q| && Conflicting(q[..n], base, ours, theirs) {
        assert q[..n] in Paths(conflicts) && q[..n] <= q;
      }
    }
  }
}
