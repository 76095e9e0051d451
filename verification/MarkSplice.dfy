/** The stretches conflicts take never overlap, so splicing them in, last first, gives the marked document. */
module MarkSplice {
  import opened Json
  import opened Document
  import opened Merging
  import opened MergeDocuments
  import opened Sequences
  import opened Order
  import opened MarkLayout

  // ----- an object's text, member by member -----------------------------------------------------

  function Trailing(members: seq<Entry>): seq<Token> {
    if members == [] then [] else [COMMA] + EntryTokens(members[0]) + Trailing(members[1..])
  }

  lemma {:induction false} TokensTrail(members: seq<Entry>)
    requires members != []
    ensures MemberTokens(members) == EntryTokens(members[0]) + Trailing(members[1..])
  {
    if |members| > 1 {
      TokensTrail(members[1..]);
      hide EntryTokens;
      assert members[1..][0] == members[1] && members[1..][1..] == members[2..];
    }
  }

  function SegmentsFrom(members: seq<Entry>, anchor: nat, k: nat): seq<Token>
    decreases |members| - k
  {
    if k >= |members| then [] else Segment(members, anchor, k) + SegmentsFrom(members, anchor, k + 1)
  }

  lemma {:induction false} SegmentsAfter(members: seq<Entry>, anchor: nat, k: nat)
    requires anchor < k <= |members|
    ensures SegmentsFrom(members, anchor, k) == Trailing(members[k..])
    decreases |members| - k
  {
    if k < |members| {
      SegmentsAfter(members, anchor, k + 1);
      hide EntryTokens;
      assert members[k..][1..] == members[k + 1..];
    }
  }

  lemma {:induction false} SegmentsBefore(members: seq<Entry>, anchor: nat, k: nat)
    requires k <= anchor < |members|
    ensures SegmentsFrom(members, anchor, k) == MemberTokens(members[k..])
    decreases |members| - k
  {
    hide EntryTokens;
    assert members[k..][1..] == members[k + 1..];
    if k < anchor {
      SegmentsBefore(members, anchor, k + 1);
    } else {
      SegmentsAfter(members, anchor, k + 1);
      TokensTrail(members[k..]);
    }
  }

  /** Where the k-th segment starts. */
  function CutPoint(members: seq<Entry>, anchor: nat, k: nat, start: nat): nat
    requires k <= |members|
  {
    if k == 0 then start else CutPoint(members, anchor, k - 1, start) + |Segment(members, anchor, k - 1)|
  }

  lemma {:induction false} CutPointIsBoundary(members: seq<Entry>, anchor: nat, k: nat, start: nat)
    requires anchor < |members| && k <= |members|
    ensures k <= anchor ==> CutPoint(members, anchor, k, start) == NameStart(members, k, start)
    ensures k > anchor ==> CutPoint(members, anchor, k, start) == ValueEnd(members, k - 1, start)
  {
    if k > 0 { CutPointIsBoundary(members, anchor, k - 1, start); }
  }

  lemma {:induction false} CutPointsEnd(members: seq<Entry>, anchor: nat, k: nat, start: nat)
    requires k <= |members|
    ensures CutPoint(members, anchor, k, start) + |SegmentsFrom(members, anchor, k)|
      == CutPoint(members, anchor, |members|, start)
    decreases |members| - k
  {
    if k < |members| {
      CutPointsEnd(members, anchor, k + 1, start);
    }
  }

  lemma {:induction false} CutPointsRise(members: seq<Entry>, anchor: nat, j: nat, k: nat, start: nat)
    requires j <= k <= |members|
    ensures CutPoint(members, anchor, j, start) <= CutPoint(members, anchor, k, start)
  {
    if j < k { CutPointsRise(members, anchor, j, k - 1, start); }
  }

  // ----- every stretch lies in its member's segment -------------------------------------------------

  lemma {:induction false} ApartNames(conflicts: seq<Conflict>, c: Conflict, at: Path)
    requires Disjoint(conflicts) && c in conflicts && StrictlyUnder(at, c.pointer)
    ensures !Listed(conflicts, at)
  {
  }

  lemma InwardMember(p: Path, c: Conflict)
    requires StrictlyUnder(p, c.pointer) && |c.pointer| > |p| + 1
    ensures var n := c.pointer[|p|];
      && StrictlyUnder(p + [n], c.pointer)
      && Inward(p, c) != [] && Inward(p, c)[0] == n && Inward(p, c)[1..] == Inward(p + [n], c)
  {
  }

  lemma InwardOfMember(p: Path, n: string, c: Conflict)
    requires StrictlyUnder(p + [n], c.pointer)
    ensures StrictlyUnder(p, c.pointer) && |c.pointer| > |p| + 1 && c.pointer[|p|] == n
  {
    assert c.pointer[..|p|] == c.pointer[..|p| + 1][..|p|] == p;
    assert c.pointer[|p|] == c.pointer[..|p| + 1][|p|] == n;
  }

  lemma {:induction false} PlaceMember(v: Tree, off: nat, q: Path)
    requires DictAt(v, q) && q != []
    ensures Has(v.members, q[0]) && DictAt(Find(v.members, q[0]), q[1..])
    ensures Place(v, off, q)
      == Place(Find(v.members, q[0]), NameStart(v.members, IndexOf(v.members, q[0]), off + 1) + 2, q[1..])
    ensures Place(v, 0, q).0 == Place(Find(v.members, q[0]), 0, q[1..]).0
  {
    hide NameStart, IndexOf, Find;
    PlaceAnywhere(Find(v.members, q[0]), NameStart(v.members, IndexOf(v.members, q[0]), 1) + 2, q[1..]);
  }

  lemma {:induction false} FitsMember(v: Tree, p: Path, conflicts: seq<Conflict>, n: string)
    requires v.Dict? && Has(v.members, n) && Fits(v, p, conflicts)
    ensures Fits(Find(v.members, n), p + [n], conflicts)
  {
    var m := Find(v.members, n);
    forall c | c in conflicts && StrictlyUnder(p + [n], c.pointer)
      ensures FitsAt(m, p + [n], conflicts, c)
    {
      InwardOfMember(p, n, c);
      assert FitsAt(v, p, conflicts, c);
      InwardMember(p, c);
      hide DictAt, Place, Fits, Has, Anchor, Find, Inward, StrictlyUnder, Listed;
      PlaceMember(v, 0, Inward(p, c));
    }
  }

  /** A conflict inside a member takes the stretch it takes of that member alone. */
  lemma {:induction false} CutInMember(v: Tree, off: nat, p: Path, conflicts: seq<Conflict>, c: Conflict)
    requires FitsAt(v, p, conflicts, c) && |c.pointer| > |p| + 1
    ensures v.Dict? && Has(v.members, c.pointer[|p|])
    ensures FitsAt(Find(v.members, c.pointer[|p|]), p + [c.pointer[|p|]], conflicts, c)
    ensures CutIn(v, off, p, conflicts, c)
         == CutIn(Find(v.members, c.pointer[|p|]),
           NameStart(v.members, IndexOf(v.members, c.pointer[|p|]), off + 1) + 2,
              p + [c.pointer[|p|]], conflicts, c)
  {
    InwardMember(p, c);
    PlaceMember(v, off, Inward(p, c));
    hide Place, StrictlyUnder, Inward, Anchor, NameStart, Cut, Listed;
  }

  lemma {:induction false} InsideMember(v: Tree, p: Path, conflicts: seq<Conflict>, c: Conflict)
    requires Disjoint(conflicts) && c in conflicts && FitsAt(v, p, conflicts, c) && |c.pointer| > |p| + 1
    ensures v.Dict? && StrictlyUnder(p, c.pointer) && Has(v.members, c.pointer[|p|])
    ensures Anchor(conflicts, p, v.members) <= IndexOf(v.members, c.pointer[|p|])
  {
    CutInMember(v, 0, p, conflicts, c);
    ApartNames(conflicts, c, p + [c.pointer[|p|]]);
    hide Listed, Disjoint, FitsAt;
    AnchorIsFirst(conflicts, p, v.members, IndexOf(v.members, c.pointer[|p|]));
  }

  /** An object with a conflict anywhere inside has an anchor. */
  lemma {:induction false} AnchorHere(v: Tree, p: Path, conflicts: seq<Conflict>, c: Conflict)
    requires Disjoint(conflicts) && c in conflicts && FitsAt(v, p, conflicts, c)
    ensures v.Dict? && Anchor(conflicts, p, v.members) < |v.members|
  {
    if |c.pointer| == |p| + 1 {
      assert Inward(p, c) == [] && Parent(c.pointer) == p;
    } else {
      InsideMember(v, p, conflicts, c);
    }
  }

  /** The bounds of a stretch: within the text of its member's segment, or at the end of the last. */
  ghost predicate Bounded(v: Tree, off: nat, p: Path, conflicts: seq<Conflict>, c: Conflict, cut: Replacement)
    requires v.Dict? && StrictlyUnder(p, c.pointer)
  {
    var members, k := v.members, IndexOf(v.members, c.pointer[|p|]);
    var anchor := Anchor(conflicts, p, members);
    && CutPoint(members, anchor, k, off + 1) <= cut.start <= cut.end
    && (k < |members| ==>
          cut.start < CutPoint(members, anchor, k + 1, off + 1)
          && cut.end <= CutPoint(members, anchor, k + 1, off + 1))
    && (k == |members| ==> cut.end == cut.start == CutPoint(members, anchor, k, off + 1))
  }

  /** A member past the anchor: its value's text ends its segment. */
  lemma {:induction false} ValueInSegment(members: seq<Entry>, anchor: nat, k: nat, start: nat)
    requires anchor <= k < |members|
    ensures CutPoint(members, anchor, k, start) <= NameStart(members, k, start)
    ensures NameStart(members, k, start) + 2 + |Tokens(members[k].value)| == CutPoint(members, anchor, k + 1, start)
  {
    CutPointIsBoundary(members, anchor, k, start);
    CutPointIsBoundary(members, anchor, k + 1, start);
  }

  lemma {:induction false} ObjectEnds(v: Tree, off: nat, anchor: nat, k: nat)
    requires v.Dict? && anchor < |v.members| && k <= |v.members|
    ensures off + 1 <= CutPoint(v.members, anchor, k, off + 1) <= off + |Tokens(v)| - 1
  {
    var members := v.members;
    CutPointsRise(members, anchor, 0, k, off + 1);
    CutPointsRise(members, anchor, k, |members|, off + 1);
    CutPointsEnd(members, anchor, 0, off + 1);
    SegmentsBefore(members, anchor, 0);
    assert members[0..] == members;
  }

  lemma {:induction false} CutIsBounded(v: Tree, off: nat, p: Path, conflicts: seq<Conflict>, c: Conflict)
    requires Disjoint(conflicts) && c in conflicts && FitsAt(v, p, conflicts, c)
    ensures StrictlyUnder(p, c.pointer)
    ensures v.Dict? && Bounded(v, off, p, conflicts, c, CutIn(v, off, p, conflicts, c))
    ensures off < CutIn(v, off, p, conflicts, c).start <= CutIn(v, off, p, conflicts, c).end
    ensures CutIn(v, off, p, conflicts, c).end < off + |Tokens(v)|
    decreases |c.pointer| - |p|
  {
    assert StrictlyUnder(p, c.pointer);
    hide *;
    AnchorHere(v, p, conflicts, c);
    if |c.pointer| == |p| + 1 {
      OwnCut(v, off, p, conflicts, c);
      CutIsSegment(conflicts, v.members, off + 1, c);
      BoundedBySegment(v, off, p, conflicts, c);
    } else {
      InnerCutIsBounded(v, off, p, conflicts, c);
    }
    BoundedInside(v, off, p, conflicts, c, CutIn(v, off, p, conflicts, c));
  }

  lemma BoundedBySegment(v: Tree, off: nat, p: Path, conflicts: seq<Conflict>, c: Conflict)
    requires v.Dict? && StrictlyUnder(p, c.pointer) && Parent(c.pointer) == p && Last(c.pointer) == c.pointer[|p|]
    requires c.pointer != [] && Listed(conflicts, c.pointer) && Anchor(conflicts, p, v.members) < |v.members|
    ensures Bounded(v, off, p, conflicts, c, Cut(conflicts, v.members, off + 1, c))
  {
    CutIsSegment(conflicts, v.members, off + 1, c);
    hide Cut, Anchor, Listed, StrictlyUnder, Segment;
  }

  lemma BoundedInside(v: Tree, off: nat, p: Path, conflicts: seq<Conflict>, c: Conflict, cut: Replacement)
    requires v.Dict? && StrictlyUnder(p, c.pointer) && Anchor(conflicts, p, v.members) < |v.members|
    requires Bounded(v, off, p, conflicts, c, cut)
    ensures off < cut.start <= cut.end < off + |Tokens(v)|
  {
    hide Anchor, CutPoint, Tokens;
    var k, anchor := IndexOf(v.members, c.pointer[|p|]), Anchor(conflicts, p, v.members);
    ObjectEnds(v, off, anchor, k);
    if k < |v.members| { ObjectEnds(v, off, anchor, k + 1); }
  }

  lemma {:induction false} InnerCutIsBounded(v: Tree, off: nat, p: Path, conflicts: seq<Conflict>, c: Conflict)
    requires Disjoint(conflicts) && c in conflicts && FitsAt(v, p, conflicts, c) && |c.pointer| > |p| + 1
    ensures v.Dict? && Bounded(v, off, p, conflicts, c, CutIn(v, off, p, conflicts, c))
    decreases |c.pointer| - |p|, 0
  {
    hide *;
    var n := c.pointer[|p|];
    InsideMember(v, p, conflicts, c);
    CutInMember(v, off, p, conflicts, c);
    CutIsBounded(Find(v.members, n), NameStart(v.members, IndexOf(v.members, n), off + 1) + 2, p + [n], conflicts, c);
    BoundedByMember(v, off, p, conflicts, c, CutIn(v, off, p, conflicts, c));
  }

  lemma BoundedByMember(v: Tree, off: nat, p: Path, conflicts: seq<Conflict>, c: Conflict, cut: Replacement)
    requires v.Dict? && StrictlyUnder(p, c.pointer) && Has(v.members, c.pointer[|p|])
    requires Anchor(conflicts, p, v.members) <= IndexOf(v.members, c.pointer[|p|])
    requires var k := IndexOf(v.members, c.pointer[|p|]);
      var start := NameStart(v.members, k, off + 1) + 2;
      start < cut.start <= cut.end < start + |Tokens(Find(v.members, c.pointer[|p|]))|
    ensures Bounded(v, off, p, conflicts, c, cut)
  {
    hide Anchor, NameStart, CutPoint, Tokens;
    ValueInSegment(v.members, Anchor(conflicts, p, v.members), IndexOf(v.members, c.pointer[|p|]), off + 1);
  }

  lemma {:induction false} OwnCut(v: Tree, off: nat, p: Path, conflicts: seq<Conflict>, c: Conflict)
    requires FitsAt(v, p, conflicts, c) && |c.pointer| == |p| + 1
    ensures v.Dict? && Anchor(conflicts, p, v.members) < |v.members|
    ensures Parent(c.pointer) == p && Last(c.pointer) == c.pointer[|p|] && Listed(conflicts, c.pointer)
    ensures CutIn(v, off, p, conflicts, c) == Cut(conflicts, v.members, off + 1, c)
  {
    assert Inward(p, c) == [] && Parent(c.pointer) == p && Last(c.pointer) == c.pointer[|p|];
  }

  lemma {:induction false} CutIsSegment(conflicts: seq<Conflict>, members: seq<Entry>, start: nat, c: Conflict)
    requires c.pointer != [] && Listed(conflicts, c.pointer)
    requires Anchor(conflicts, Parent(c.pointer), members) < |members|
    ensures var k := IndexOf(members, Last(c.pointer));
      var anchor := Anchor(conflicts, Parent(c.pointer), members);
      && k != anchor
      && Cut(conflicts, members, start, c) ==
        if k < |members|
        then Replacement(CutPoint(members, anchor, k, start), CutPoint(members, anchor, k + 1, start),
               MemberBlock(c, if k > anchor then [COMMA] else [], if k < anchor then [COMMA] else []))
        else Replacement(CutPoint(members, anchor, k, start), CutPoint(members, anchor, k, start),
          MemberBlock(c, [COMMA], []))
  {
    assert Parent(c.pointer) + [Last(c.pointer)] == c.pointer;
    var k, anchor := IndexOf(members, Last(c.pointer)), Anchor(conflicts, Parent(c.pointer), members);
    if k < |members| {
      CutPointIsBoundary(members, anchor, k + 1, start);
      AnchorIsFirst(conflicts, Parent(c.pointer), members, k);
    }
    CutPointIsBoundary(members, anchor, k, start);
  }

  // ----- lists of stretches ------------------------------------------------------------------------

  ghost predicate Within(v: Tree, p: Path, conflicts: seq<Conflict>, some: seq<Conflict>) {
    forall c | c in some :: c in conflicts && FitsAt(v, p, conflicts, c)
  }

  ghost function Cuts(
    v: Tree, off: nat, p: Path, conflicts: seq<Conflict>, some: seq<Conflict>): (cuts: seq<Replacement>)
    requires Within(v, p, conflicts, some)
    ensures |cuts| == |some|
    ensures forall i | 0 <= i < |some| :: cuts[i] == CutIn(v, off, p, conflicts, some[i])
  {
    seq(|some|, i requires 0 <= i < |some| => CutIn(v, off, p, conflicts, some[i]))
  }

  lemma {:induction false} FilterCuts(
    v: Tree, off: nat, p: Path, conflicts: seq<Conflict>, some: seq<Conflict>, keep: Replacement -> bool,
      also: Conflict -> bool)
    requires Within(v, p, conflicts, some)
    requires forall c | c in some :: keep(CutIn(v, off, p, conflicts, c)) == also(c)
    ensures Within(v, p, conflicts, Filter(also, some))
    ensures Filter(keep, Cuts(v, off, p, conflicts, some)) == Cuts(v, off, p, conflicts, Filter(also, some))
  {
    hide CutIn, FitsAt;
    if some != [] {
      var front, last := some[..|some| - 1], some[|some| - 1];
      FilterCuts(v, off, p, conflicts, front, keep, also);
      assert Cuts(v, off, p, conflicts, some)[..|some| - 1] == Cuts(v, off, p, conflicts, front);
    }
  }

  predicate AtMember(members: seq<Entry>, p: Path, k: nat, c: Conflict) {
    InRegion(members, p, k, c) && !InRegion(members, p, k + 1, c)
  }

  function OfMember(members: seq<Entry>, p: Path, k: nat): Conflict -> bool {
    c => AtMember(members, p, k, c)
  }

  function Past(point: nat): Replacement -> bool {
    (cut: Replacement) => cut.start >= point
  }

  function RegionAt(conflicts: seq<Conflict>, p: Path, members: seq<Entry>, k: nat): seq<Conflict> {
    Filter(OfMember(members, p, k), conflicts)
  }

  lemma RegionFits(v: Tree, p: Path, conflicts: seq<Conflict>, k: nat)
    requires v.Dict? && Fits(v, p, conflicts)
    ensures Within(v, p, conflicts, Region(conflicts, p, v.members, k))
    ensures Within(v, p, conflicts, RegionAt(conflicts, p, v.members, k))
  {
  }

  /** What later members take comes before what earlier members take. */
  lemma {:induction false} RegionsSort(v: Tree, off: nat, p: Path, conflicts: seq<Conflict>, k: nat)
    requires v.Dict? && Fits(v, p, conflicts) && Disjoint(conflicts) && k < |v.members|
    ensures Within(v, p, conflicts, Region(conflicts, p, v.members, k))
    ensures Within(v, p, conflicts, Region(conflicts, p, v.members, k + 1))
    ensures Within(v, p, conflicts, RegionAt(conflicts, p, v.members, k))
    ensures Sort(CompareCuts, Cuts(v, off, p, conflicts, Region(conflicts, p, v.members, k)))
         == Sort(CompareCuts, Cuts(v, off, p, conflicts, Region(conflicts, p, v.members, k + 1)))
            + Sort(CompareCuts, Cuts(v, off, p, conflicts, RegionAt(conflicts, p, v.members, k)))
  {
    var members, anchor := v.members, Anchor(conflicts, p, v.members);
    var point := CutPoint(members, anchor, k + 1, off + 1);
    var region := Region(conflicts, p, members, k);
    RegionFits(v, p, conflicts, k);
    RegionFits(v, p, conflicts, k + 1);
    var past, later := Past(point), From(members, p, k + 1);
    hide CutIn, FitsAt, Anchor, CutPoint, Sort, Filter, InRegion, Region, RegionAt, Cuts, Disjoint;
    forall c | c in region
      ensures past(CutIn(v, off, p, conflicts, c)) == later(c)
    {
      assert c in conflicts && From(members, p, k)(c) by { InFiltered(From(members, p, k), conflicts, c); }
      RegionBoundary(v, off, p, conflicts, c, k);
    }
    FilterCuts(v, off, p, conflicts, region, past, later);
    FilterCuts(v, off, p, conflicts, region, Not(past), Not(later));
    CutsSort(past, Cuts(v, off, p, conflicts, region), point);
    RegionSplits(conflicts, p, members, k);
  }

  lemma InFiltered<T>(keep: T -> bool, xs: seq<T>, x: T)
    requires x in Filter(keep, xs)
    ensures x in xs && keep(x)
  {
  }

  lemma CutsSort(past: Replacement -> bool, cuts: seq<Replacement>, point: nat)
    requires past == Past(point)
    ensures Sort(CompareCuts, cuts)
      == Sort(CompareCuts, Filter(past, cuts)) + Sort(CompareCuts, Filter(Not(past), cuts))
  {
    SortInParts(CompareCuts, past, cuts);
  }

  lemma {:induction false} RegionBoundary(v: Tree, off: nat, p: Path, conflicts: seq<Conflict>, c: Conflict, k: nat)
    requires v.Dict? && Disjoint(conflicts) && c in conflicts && FitsAt(v, p, conflicts, c)
    requires k < |v.members| && InRegion(v.members, p, k, c)
    ensures CutIn(v, off, p, conflicts, c).start >= CutPoint(v.members, Anchor(conflicts, p, v.members), k + 1, off + 1)
        <==> InRegion(v.members, p, k + 1, c)
  {
    hide FitsAt, CutIn, CutPoint, Anchor, Disjoint;
    CutIsBounded(v, off, p, conflicts, c);
    var j := IndexOf(v.members, c.pointer[|p|]);
    if j > k { CutPointsRise(v.members, Anchor(conflicts, p, v.members), k + 1, j, off + 1); }
  }

  lemma {:induction false} RegionSplits(conflicts: seq<Conflict>, p: Path, members: seq<Entry>, k: nat)
    ensures Filter(From(members, p, k + 1), Region(conflicts, p, members, k)) == Region(conflicts, p, members, k + 1)
    ensures Filter(Not(From(members, p, k + 1)), Region(conflicts, p, members, k)) == RegionAt(conflicts, p, members, k)
  {
    var whole, later := From(members, p, k), From(members, p, k + 1);
    FilterTwice(whole, later, conflicts);
    FilterTwice(whole, Not(later), conflicts);
    hide Filter;
    FilterAgrees(Both(whole, later), later, conflicts);
    FilterAgrees(Both(whole, Not(later)), OfMember(members, p, k), conflicts);
  }
}
