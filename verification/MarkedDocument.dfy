/** Splicing every stretch, sorted, gives the document marked member by member. */
module MarkedDocument {
  import opened Json
  import opened Document
  import opened Merging
  import opened MergeDocuments
  import opened Sequences
  import opened Order
  import opened MarkLayout
  import opened MarkSplice

  ghost predicate Splices(items: seq<Item>, cuts: seq<Replacement>, out: seq<Item>) {
    InRange(items, cuts) && Splice(items, cuts) == out
  }

  lemma {:induction false} SplicesThen(
    items: seq<Item>, first: seq<Replacement>, mid: seq<Item>, second: seq<Replacement>, out: seq<Item>)
    requires Splices(items, first, mid) && Splices(mid, second, out)
    ensures Splices(items, first + second, out)
    decreases |first|
  {
    if first == [] {
      assert first + second == second;
    } else {
      var cut := first[0];
      assert (first + second)[1..] == first[1..] + second;
      SplicesThen(items[..cut.start] + [cut.block] + items[cut.end..], first[1..], mid, second, out);
    }
  }

  lemma SplicesOne(pre: seq<Item>, old_: seq<Item>, post: seq<Item>, cut: Replacement)
    requires cut.start == |pre| && cut.end == |pre| + |old_|
    ensures Splices(pre + old_ + post, [cut], pre + [cut.block] + post)
  {
    var items := pre + old_ + post;
    assert items[..cut.start] == pre && items[cut.end..] == post;
    assert [cut][1..] == [];
    assert Splice(items, [cut]) == Splice(pre + [cut.block] + post, []);
  }

  /** Blocks put in one place end up last first. */
  lemma {:induction false} SplicesInserted(pre: seq<Item>, post: seq<Item>, cuts: seq<Replacement>, some: seq<Conflict>)
    requires |cuts| == |some|
    requires forall i | 0 <= i < |some| :: cuts[i] == Replacement(|pre|, |pre|, MemberBlock(some[i], [COMMA], []))
    ensures Splices(pre + post, cuts, pre + InsertedBlocks(some) + post)
    decreases |some|
  {
    hide MemberBlock;
    if some == [] {
      assert pre + InsertedBlocks(some) + post == pre + post;
    } else {
      var cut := cuts[0];
      SplicesOne(pre, [], post, cut);
      assert pre + [] + post == pre + post;
      SplicesInserted(pre, [cut.block] + post, cuts[1..], some[1..]);
      assert pre + [cut.block] + post == pre + ([cut.block] + post);
      SplicesThen(pre + post, [cut], pre + [cut.block] + post, cuts[1..],
        pre + InsertedBlocks(some[1..]) + ([cut.block] + post));
      assert cuts == [cut] + cuts[1..];
      assert pre + InsertedBlocks(some[1..]) + ([cut.block] + post) == pre + InsertedBlocks(some) + post;
    }
  }

  lemma SplicesBoth(
    pre: seq<Item>, part: seq<Item>, rest: seq<Item>, post: seq<Item>, part': seq<Item>, rest': seq<Item>,
    first: seq<Replacement>, second: seq<Replacement>)
    requires Splices(pre + part + rest + post, first, pre + part + rest' + post)
    requires Splices(pre + part + (rest' + post), second, pre + part' + (rest' + post))
    ensures Splices(pre + (part + rest) + post, first + second, pre + (part' + rest') + post)
  {
    hide Splices;
    assert pre + (part + rest) + post == pre + part + rest + post;
    assert pre + part + (rest' + post) == pre + part + rest' + post;
    assert pre + (part' + rest') + post == pre + part' + (rest' + post);
    SplicesThen(pre + part + rest + post, first, pre + part + rest' + post, second, pre + part' + (rest' + post));
  }

  lemma SplicesInside(
    pre: seq<Item>, head: seq<Item>, part: seq<Item>, tail: seq<Item>, post: seq<Item>, part': seq<Item>,
      cuts: seq<Replacement>)
    requires Splices(pre + head + part + (tail + post), cuts, pre + head + part' + (tail + post))
    ensures Splices(pre + (head + part + tail) + post, cuts, pre + (head + part' + tail) + post)
  {
    hide Splices;
    assert pre + (head + part + tail) + post == pre + head + part + (tail + post);
    assert pre + (head + part' + tail) + post == pre + head + part' + (tail + post);
  }

  function Below(p: Path): Conflict -> bool {
    (c: Conflict) => StrictlyUnder(p, c.pointer)
  }

  lemma BelowFits(v: Tree, p: Path, conflicts: seq<Conflict>)
    requires Fits(v, p, conflicts)
    ensures Within(v, p, conflicts, Filter(Below(p), conflicts))
  {
  }

  // ----- one member ------------------------------------------------------------------------------

  lemma {:induction false} ConflictsOfMember(
    conflicts: seq<Conflict>, p: Path, members: seq<Entry>, k: nat, c: Conflict)
    requires DistinctNames(members) && k < |members|
    ensures AtMember(members, p, k, c) <==> p + [members[k].name] <= c.pointer
  {
    var at := p + [members[k].name];
    IndexOfMember(members, k);
    if AtMember(members, p, k, c) {
      assert c.pointer[|p|] == members[k].name;
      assert c.pointer[..|p| + 1] == at;
    }
    if at <= c.pointer {
      assert c.pointer[..|p|] == c.pointer[..|p| + 1][..|p|] == p;
      assert c.pointer[|p|] == at[|p|];
    }
  }

  lemma {:induction false} ListedMember(conflicts: seq<Conflict>, p: Path, members: seq<Entry>, k: nat)
    requires DistinctNames(members) && k < |members| && Disjoint(conflicts)
    requires Listed(conflicts, p + [members[k].name])
    ensures RegionAt(conflicts, p, members, k) == [The(conflicts, p + [members[k].name])]
  {
    var at := p + [members[k].name];
    var c := The(conflicts, at);
    var i :| 0 <= i < |conflicts| && conflicts[i] == c;
    forall j | 0 <= j < |conflicts| ensures OfMember(members, p, k)(conflicts[j]) <==> j == i {
      ConflictsOfMember(conflicts, p, members, k, conflicts[j]);
      assert j != i ==> !(conflicts[i].pointer <= conflicts[j].pointer);
    }
    FilterOne(OfMember(members, p, k), conflicts, i);
  }

  lemma {:induction false} UnlistedMember(conflicts: seq<Conflict>, p: Path, members: seq<Entry>, k: nat)
    requires DistinctNames(members) && k < |members|
    requires !Listed(conflicts, p + [members[k].name])
    ensures RegionAt(conflicts, p, members, k) == Filter(Below(p + [members[k].name]), conflicts)
  {
    var at := p + [members[k].name];
    forall c | c in conflicts ensures OfMember(members, p, k)(c) == Below(at)(c) {
      ConflictsOfMember(conflicts, p, members, k, c);
      var i :| 0 <= i < |conflicts| && conflicts[i] == c;
      assert c.pointer != at;
      assert at <= c.pointer <==> |at| <= |c.pointer| && at == c.pointer[..|at|];
      if |at| == |c.pointer| { assert c.pointer[..|at|] == c.pointer; }
    }
    FilterAgrees(OfMember(members, p, k), Below(at), conflicts);
  }

  /** Splicing what the k-th member gives up marks its segment. */
  ghost predicate SplicesAt(
    v: Tree, off: nat, p: Path, conflicts: seq<Conflict>, k: nat, pre: seq<Item>, post: seq<Item>)
    requires v.Dict? && k < |v.members|
  {
    var anchor := Anchor(conflicts, p, v.members);
    && Within(v, p, conflicts, RegionAt(conflicts, p, v.members, k))
    && Splices(pre + Plains(Segment(v.members, anchor, k)) + post,
         Sort(CompareCuts, Cuts(v, off, p, conflicts, RegionAt(conflicts, p, v.members, k))),
         pre + MarkedSegment(v.members, p, conflicts, anchor, k) + post)
  }

  /** And what the members from the k-th on give up, the rest of the object. */
  ghost predicate SplicesFrom(
    v: Tree, off: nat, p: Path, conflicts: seq<Conflict>, k: nat, pre: seq<Item>, post: seq<Item>)
    requires v.Dict?
  {
    var anchor := Anchor(conflicts, p, v.members);
    && Within(v, p, conflicts, Region(conflicts, p, v.members, k))
    && Splices(pre + Plains(SegmentsFrom(v.members, anchor, k)) + post,
         Sort(CompareCuts, Cuts(v, off, p, conflicts, Region(conflicts, p, v.members, k))),
         pre + MarkedRest(v, p, conflicts, k) + post)
  }

  function MarkedRest(v: Tree, p: Path, conflicts: seq<Conflict>, k: nat): seq<Item>
    requires v.Dict?
  {
    MarkedFrom(v.members, p, conflicts, Anchor(conflicts, p, v.members), k)
      + InsertedBlocks(Missing(v.members, p, conflicts))
  }

  lemma {:induction false} SpliceListed(
    v: Tree, off: nat, p: Path, conflicts: seq<Conflict>, k: nat, pre: seq<Item>, post: seq<Item>)
    requires v.Dict? && DistinctNames(v.members) && Fits(v, p, conflicts) && Disjoint(conflicts) && k < |v.members|
    requires |pre| == CutPoint(v.members, Anchor(conflicts, p, v.members), k, off + 1)
    requires Listed(conflicts, p + [v.members[k].name])
    ensures SplicesAt(v, off, p, conflicts, k, pre, post)
  {
    hide Anchor, CutIn, Cut, FitsAt, Fits, Disjoint, Segment, Listed, The, RegionAt, MemberBlock, Splices, Sort,
      DistinctNames;
    var members, anchor := v.members, Anchor(conflicts, p, v.members);
    var at := p + [members[k].name];
    var c := The(conflicts, at);
    ListedMember(conflicts, p, members, k);
    RegionFits(v, p, conflicts, k);
    assert c in RegionAt(conflicts, p, members, k);
    var cuts := Cuts(v, off, p, conflicts, RegionAt(conflicts, p, members, k));
    OwnCut(v, off, p, conflicts, c);
    CutIsSegment(conflicts, members, off + 1, c);
    IndexOfMember(members, k);
    assert cuts == [cuts[0]];
    SortOfSorted(CompareCuts, cuts);
    SplicesOne(pre, Plains(Segment(members, anchor, k)), post, cuts[0]);
    ThenSplicesAt(v, off, p, conflicts, k, pre, post);
  }

  lemma {:induction false} SpliceUnlisted(
    v: Tree, off: nat, p: Path, conflicts: seq<Conflict>, k: nat, pre: seq<Item>, post: seq<Item>)
    requires v.Dict? && WellFormed(v) && Fits(v, p, conflicts) && Disjoint(conflicts) && k < |v.members|
    requires Anchor(conflicts, p, v.members) <= k
    requires |pre| == CutPoint(v.members, Anchor(conflicts, p, v.members), k, off + 1)
    requires !Listed(conflicts, p + [v.members[k].name])
    ensures SplicesAt(v, off, p, conflicts, k, pre, post)
    decreases v, 0
  {
    hide *;
    var members, anchor := v.members, Anchor(conflicts, p, v.members);
    var m, at, head := members[k].value, p + [members[k].name], MemberHead(members, anchor, k);
    var next := NameStart(members, k, off + 1) + 2;
    UnlistedFacts(v, off, p, conflicts, k, pre);
    MemberHeads(members, p, conflicts, anchor, k);
    SameCuts(v, off, p, conflicts, k);
    assert [] + post == post;
    SpliceTree(m, next, at, conflicts, pre + head, [] + post);
    SplicesInside(pre, head, Plains(Tokens(m)), [], post, MarkedTree(m, at, conflicts),
      Sort(CompareCuts, Cuts(m, next, at, conflicts, Filter(Below(at), conflicts))));
    ThenSplicesAt(v, off, p, conflicts, k, pre, post);
  }

  lemma ThenSplicesAt(v: Tree, off: nat, p: Path, conflicts: seq<Conflict>, k: nat, pre: seq<Item>, post: seq<Item>)
    requires v.Dict? && k < |v.members|
    requires var anchor, region := Anchor(conflicts, p, v.members), RegionAt(conflicts, p, v.members, k);
      && Within(v, p, conflicts, region)
      && Splices(pre + Plains(Segment(v.members, anchor, k)) + post,
        Sort(CompareCuts, Cuts(v, off, p, conflicts, region)),
           pre + MarkedSegment(v.members, p, conflicts, anchor, k) + post)
    ensures SplicesAt(v, off, p, conflicts, k, pre, post)
  {
    hide Within, Splices, Anchor, RegionAt, Cuts, Segment, MarkedSegment, Sort, Plains;
  }

  lemma UnlistedFacts(v: Tree, off: nat, p: Path, conflicts: seq<Conflict>, k: nat, pre: seq<Item>)
    requires v.Dict? && WellFormed(v) && Fits(v, p, conflicts) && k < |v.members|
    requires Anchor(conflicts, p, v.members) <= k
    requires |pre| == CutPoint(v.members, Anchor(conflicts, p, v.members), k, off + 1)
    requires !Listed(conflicts, p + [v.members[k].name])
    ensures var members, at := v.members, p + [v.members[k].name];
      var some := Filter(Below(at), conflicts);
      && DistinctNames(members) && WellFormed(members[k].value) && Fits(members[k].value, at, conflicts)
      && RegionAt(conflicts, p, members, k) == some
      && Within(v, p, conflicts, some) && Within(members[k].value, at, conflicts, some)
      && |pre + MemberHead(members, Anchor(conflicts, p, members), k)| == NameStart(members, k, off + 1) + 2
  {
    hide Fits, Anchor, CutPoint, ValueEnd, Listed, RegionAt, Within, Filter, Below;
    var members, anchor := v.members, Anchor(conflicts, p, v.members);
    IndexOfMember(members, k);
    FitsMember(v, p, conflicts, members[k].name);
    UnlistedMember(conflicts, p, members, k);
    RegionFits(v, p, conflicts, k);
    BelowFits(members[k].value, p + [members[k].name], conflicts);
    CutPointIsBoundary(members, anchor, k, off + 1);
  }

  /** What precedes a member's value in its segment. */
  function MemberHead(members: seq<Entry>, anchor: nat, k: nat): seq<Item>
    requires k < |members|
  {
    Plains(if k > anchor then [COMMA] else []) + [Plain(Atom(StringScalar(members[k].name))), Plain(Mark(':'))]
  }

  lemma MemberHeads(members: seq<Entry>, p: Path, conflicts: seq<Conflict>, anchor: nat, k: nat)
    requires anchor <= k < |members| && !Listed(conflicts, p + [members[k].name])
    ensures Plains(Segment(members, anchor, k))
      == MemberHead(members, anchor, k) + Plains(Tokens(members[k].value)) + []
    ensures MarkedSegment(members, p, conflicts, anchor, k)
         == MemberHead(members, anchor, k) + MarkedTree(members[k].value, p + [members[k].name], conflicts) + []
  {
    hide Tokens, MarkedTree;
  }

  lemma {:induction false} SameCuts(v: Tree, off: nat, p: Path, conflicts: seq<Conflict>, k: nat)
    requires v.Dict? && DistinctNames(v.members) && k < |v.members|
    requires Within(v, p, conflicts, Filter(Below(p + [v.members[k].name]), conflicts))
    requires Within(v.members[k].value, p + [v.members[k].name], conflicts,
      Filter(Below(p + [v.members[k].name]), conflicts))
    ensures Cuts(v, off, p, conflicts, Filter(Below(p + [v.members[k].name]), conflicts))
         == Cuts(v.members[k].value, NameStart(v.members, k, off + 1) + 2, p + [v.members[k].name], conflicts,
              Filter(Below(p + [v.members[k].name]), conflicts))
  {
    hide CutIn, FitsAt, StrictlyUnder, NameStart, Filter, DistinctNames;
    var at, some := p + [v.members[k].name], Filter(Below(p + [v.members[k].name]), conflicts);
    forall i | 0 <= i < |some|
      ensures CutIn(v, off, p, conflicts, some[i])
        == CutIn(v.members[k].value, NameStart(v.members, k, off + 1) + 2, at, conflicts, some[i])
    {
      assert Below(at)(some[i]);
      SameCut(v, off, p, conflicts, k, some[i]);
    }
  }

  lemma {:induction false} SameCut(v: Tree, off: nat, p: Path, conflicts: seq<Conflict>, k: nat, c: Conflict)
    requires v.Dict? && DistinctNames(v.members) && k < |v.members|
    requires FitsAt(v, p, conflicts, c) && StrictlyUnder(p + [v.members[k].name], c.pointer)
    ensures FitsAt(v.members[k].value, p + [v.members[k].name], conflicts, c)
    ensures CutIn(v, off, p, conflicts, c)
         == CutIn(v.members[k].value, NameStart(v.members, k, off + 1) + 2, p + [v.members[k].name], conflicts, c)
  {
    hide CutIn, FitsAt, NameStart, DistinctNames, IndexOf;
    IndexOfMember(v.members, k);
    InwardOfMember(p, v.members[k].name, c);
    CutInMember(v, off, p, conflicts, c);
  }

  // ----- members from the k-th on --------------------------------------------------------------------

  lemma {:induction false} SpliceFrom(
    v: Tree, off: nat, p: Path, conflicts: seq<Conflict>, k: nat, pre: seq<Item>, post: seq<Item>)
    requires v.Dict? && WellFormed(v) && Fits(v, p, conflicts) && Disjoint(conflicts) && k <= |v.members|
    requires Anchor(conflicts, p, v.members) < |v.members|
    requires |pre| == CutPoint(v.members, Anchor(conflicts, p, v.members), k, off + 1)
    ensures SplicesFrom(v, off, p, conflicts, k, pre, post)
    decreases v, 1, |v.members| - k
  {
    var members, anchor := v.members, Anchor(conflicts, p, v.members);
    if k == |members| {
      SpliceEnd(v, off, p, conflicts, pre, post);
    } else {
      var segment := Plains(Segment(members, anchor, k));
      assert |pre + segment| == CutPoint(members, anchor, k + 1, off + 1);
      assert DistinctNames(members);
      AnchorIsFirst(conflicts, p, members, k);
      hide *;
      SpliceFrom(v, off, p, conflicts, k + 1, pre + segment, post);
      if Listed(conflicts, p + [members[k].name]) {
        SpliceListed(v, off, p, conflicts, k, pre, MarkedRest(v, p, conflicts, k + 1) + post);
      } else {
        SpliceUnlisted(v, off, p, conflicts, k, pre, MarkedRest(v, p, conflicts, k + 1) + post);
      }
      SpliceStep(v, off, p, conflicts, k, pre, post);
    }
  }

  lemma SpliceEnd(v: Tree, off: nat, p: Path, conflicts: seq<Conflict>, pre: seq<Item>, post: seq<Item>)
    requires v.Dict? && Fits(v, p, conflicts) && Disjoint(conflicts)
    requires Anchor(conflicts, p, v.members) < |v.members|
    requires |pre| == CutPoint(v.members, Anchor(conflicts, p, v.members), |v.members|, off + 1)
    ensures SplicesFrom(v, off, p, conflicts, |v.members|, pre, post)
  {
    hide Anchor, InsertedBlocks, Splices, Region, Fits, FitsAt, Disjoint, Within, CutPoint, SegmentsFrom, MarkedFrom,
      MarkedRest, Cuts;
    NothingLeft(v, p, conflicts);
    RegionFits(v, p, conflicts, |v.members|);
    SpliceMissing(v, off, p, conflicts, pre, post);
    assert pre + Plains([]) + post == pre + post;
  }

  lemma NothingLeft(v: Tree, p: Path, conflicts: seq<Conflict>)
    requires v.Dict?
    ensures SegmentsFrom(v.members, Anchor(conflicts, p, v.members), |v.members|) == []
    ensures MarkedRest(v, p, conflicts, |v.members|) == InsertedBlocks(Missing(v.members, p, conflicts))
  {
    hide Anchor, Missing, InsertedBlocks;
    assert MarkedFrom(v.members, p, conflicts, Anchor(conflicts, p, v.members), |v.members|) == [];
  }

  lemma SpliceStep(v: Tree, off: nat, p: Path, conflicts: seq<Conflict>, k: nat, pre: seq<Item>, post: seq<Item>)
    requires v.Dict? && Fits(v, p, conflicts) && Disjoint(conflicts) && k < |v.members|
    requires SplicesFrom(v, off, p, conflicts, k + 1,
      pre + Plains(Segment(v.members, Anchor(conflicts, p, v.members), k)), post)
    requires SplicesAt(v, off, p, conflicts, k, pre, MarkedRest(v, p, conflicts, k + 1) + post)
    ensures SplicesFrom(v, off, p, conflicts, k, pre, post)
  {
    hide Fits, FitsAt, Cuts, Splices, Disjoint, Region, RegionAt, Within, Anchor, MarkedSegment, Segment, SegmentsFrom,
      MarkedFrom, Missing, InsertedBlocks;
    RegionsSort(v, off, p, conflicts, k);
    var members, anchor := v.members, Anchor(conflicts, p, v.members);
    SegmentsSplit(members, p, conflicts, anchor, k, InsertedBlocks(Missing(members, p, conflicts)));
    SplicesBoth(pre, Plains(Segment(members, anchor, k)), Plains(SegmentsFrom(members, anchor, k + 1)), post,
      MarkedSegment(members, p, conflicts, anchor, k), MarkedRest(v, p, conflicts, k + 1),
      Sort(CompareCuts, Cuts(v, off, p, conflicts, Region(conflicts, p, members, k + 1))),
      Sort(CompareCuts, Cuts(v, off, p, conflicts, RegionAt(conflicts, p, members, k))));
  }

  lemma SegmentsSplit(members: seq<Entry>, p: Path, conflicts: seq<Conflict>, anchor: nat, k: nat, more: seq<Item>)
    requires k < |members|
    ensures Plains(SegmentsFrom(members, anchor, k))
      == Plains(Segment(members, anchor, k)) + Plains(SegmentsFrom(members, anchor, k + 1))
    ensures MarkedFrom(members, p, conflicts, anchor, k) + more
         == MarkedSegment(members, p, conflicts, anchor, k) + (MarkedFrom(members, p, conflicts, anchor, k + 1) + more)
  {
    var segment, rest := Segment(members, anchor, k), SegmentsFrom(members, anchor, k + 1);
    assert SegmentsFrom(members, anchor, k) == segment + rest;
    assert MarkedFrom(members, p, conflicts, anchor, k)
        == MarkedSegment(members, p, conflicts, anchor, k) + MarkedFrom(members, p, conflicts, anchor, k + 1);
    hide *;
  }

  lemma {:induction false} SpliceMissing(
    v: Tree, off: nat, p: Path, conflicts: seq<Conflict>, pre: seq<Item>, post: seq<Item>)
    requires v.Dict? && Fits(v, p, conflicts) && Disjoint(conflicts)
    requires Anchor(conflicts, p, v.members) < |v.members|
    requires |pre| == CutPoint(v.members, Anchor(conflicts, p, v.members), |v.members|, off + 1)
    requires Within(v, p, conflicts, Missing(v.members, p, conflicts))
    ensures Splices(pre + post, Sort(CompareCuts, Cuts(v, off, p, conflicts, Missing(v.members, p, conflicts))),
      pre + InsertedBlocks(Missing(v.members, p, conflicts)) + post)
  {
    var members := v.members;
    var missing := Missing(members, p, conflicts);
    var cuts := Cuts(v, off, p, conflicts, missing);
    forall i | 0 <= i < |missing| ensures cuts[i] == Replacement(|pre|, |pre|, MemberBlock(missing[i], [COMMA], [])) {
      var c := missing[i];
      assert c in missing;
      assert InRegion(members, p, |members|, c);
      MissingIsOwn(v, p, conflicts, c);
      OwnCut(v, off, p, conflicts, c);
      CutIsSegment(conflicts, members, off + 1, c);
    }
    hide *;
    SortOfTies(cuts, |pre|);
    SplicesInserted(pre, post, cuts, missing);
  }

  lemma {:induction false} MissingIsOwn(v: Tree, p: Path, conflicts: seq<Conflict>, c: Conflict)
    requires v.Dict? && FitsAt(v, p, conflicts, c) && InRegion(v.members, p, |v.members|, c)
    ensures |c.pointer| == |p| + 1
  {
    if |c.pointer| > |p| + 1 { CutInMember(v, 0, p, conflicts, c); }
  }

  lemma SortOfTies(cuts: seq<Replacement>, at: nat)
    requires forall i | 0 <= i < |cuts| :: cuts[i].start == cuts[i].end == at
    ensures Sort(CompareCuts, cuts) == cuts
  {
    SortOfSorted(CompareCuts, cuts);
  }

  // ----- the whole tree -----------------------------------------------------------------------------------

  /** The stretches of every conflict under a tree, spliced last first, mark the tree and leave its surroundings. */
  lemma {:induction false} SpliceTree(
    v: Tree, off: nat, p: Path, conflicts: seq<Conflict>, pre: seq<Item>, post: seq<Item>)
    requires WellFormed(v) && Fits(v, p, conflicts) && Disjoint(conflicts) && |pre| == off
    ensures Within(v, p, conflicts, Filter(Below(p), conflicts))
    ensures Splices(pre + Plains(Tokens(v)) + post,
      Sort(CompareCuts, Cuts(v, off, p, conflicts, Filter(Below(p), conflicts))),
      pre + MarkedTree(v, p, conflicts) + post)
    decreases v, 2
  {
    BelowFits(v, p, conflicts);
    var under := Filter(Below(p), conflicts);
    if v.Dict? && Anchor(conflicts, p, v.members) < |v.members| {
      var members, anchor := v.members, Anchor(conflicts, p, v.members);
      FilterAgrees(Below(p), From(members, p, 0), conflicts);
      Braces(v, p, conflicts);
      assert [] + pre == pre && post + [] == post;
      hide Fits, FitsAt, Cuts, Splices, Disjoint, WellFormed, MarkedTree, Tokens, MarkedFrom, Anchor, SegmentsFrom;
      var open, close := [Plain(Mark('{'))], [Plain(Mark('}'))];
      SpliceFrom(v, off, p, conflicts, 0, pre + open, close + post);
      SplicesInside(pre, open, Plains(SegmentsFrom(members, anchor, 0)), close, post,
        MarkedRest(v, p, conflicts, 0),
        Sort(CompareCuts, Cuts(v, off, p, conflicts, under)));
    } else {
      NothingUnder(v, p, conflicts);
      NothingMarked(v, p, conflicts);
      assert Cuts(v, off, p, conflicts, under) == [];
    }
  }

  lemma Braces(v: Tree, p: Path, conflicts: seq<Conflict>)
    requires v.Dict? && Anchor(conflicts, p, v.members) < |v.members|
    ensures var anchor := Anchor(conflicts, p, v.members);
      && Plains(Tokens(v)) == [Plain(Mark('{'))] + Plains(SegmentsFrom(v.members, anchor, 0)) + [Plain(Mark('}'))]
      && MarkedTree(v, p, conflicts)
           == [Plain(Mark('{'))] + MarkedRest(v, p, conflicts, 0) + [Plain(Mark('}'))]
  {
    hide Anchor, MemberTokens, SegmentsFrom, MarkedFrom, InsertedBlocks, Missing, Plains, Tokens;
    SegmentsBefore(v.members, Anchor(conflicts, p, v.members), 0);
    assert v.members[0..] == v.members;
    BracedTokens(v);
    Rejoins([Plain(Mark('{'))], MarkedFrom(v.members, p, conflicts, Anchor(conflicts, p, v.members), 0),
      InsertedBlocks(Missing(v.members, p, conflicts)), [Plain(Mark('}'))]);
  }

  lemma BracedTokens(v: Tree)
    requires v.Dict?
    ensures Plains(Tokens(v)) == [Plain(Mark('{'))] + Plains(MemberTokens(v.members)) + [Plain(Mark('}'))]
  {
    hide MemberTokens;
  }

  lemma Rejoins(a: seq<Item>, b: seq<Item>, c: seq<Item>, d: seq<Item>)
    ensures a + b + c + d == a + (b + c) + d
  {
  }

  lemma {:induction false} NothingUnder(v: Tree, p: Path, conflicts: seq<Conflict>)
    requires Fits(v, p, conflicts) && Disjoint(conflicts)
    requires v.Dict? ==> Anchor(conflicts, p, v.members) >= |v.members|
    ensures Filter(Below(p), conflicts) == []
  {
    forall c | c in conflicts ensures !Below(p)(c) {
      if Below(p)(c) { AnchorHere(v, p, conflicts, c); }
    }
    FilterNone(Below(p), conflicts);
  }

  lemma {:induction false} NothingListed(v: Tree, p: Path, conflicts: seq<Conflict>)
    requires v.Dict? && forall c | c in conflicts :: !StrictlyUnder(p, c.pointer)
    requires Anchor(conflicts, p, v.members) >= |v.members|
    ensures v.members == []
  {
    if v.members != [] { AnchorIsFirst(conflicts, p, v.members, 0); }
  }

  lemma {:induction false} NothingMarked(v: Tree, p: Path, conflicts: seq<Conflict>)
    requires Filter(Below(p), conflicts) == []
    requires v.Dict? ==> Anchor(conflicts, p, v.members) >= |v.members|
    ensures MarkedTree(v, p, conflicts) == Plains(Tokens(v))
  {
    if v.Dict? {
      var members := v.members;
      forall c | c in conflicts ensures !StrictlyUnder(p, c.pointer) {
        assert Below(p)(c) ==> c in Filter(Below(p), conflicts);
      }
      NothingListed(v, p, conflicts);
      assert Region(conflicts, p, members, 0) == [] by { FilterAgrees(Below(p), From(members, p, 0), conflicts); }
    }
  }
}
