/**
 The merge as it runs over documents: members in their order, conflicts in the
 order they are met, and the text each side is written as between the markers.
 */
module MergeDocuments {
  import opened Json
  import opened Document
  import opened Merging

  /** A member, element or whole document both sides changed differently. */
  datatype Conflict = Conflict(pointer: Path, base: Option<Tree>, ours: Option<Tree>, theirs: Option<Tree>)

  function ContentOf(t: Option<Tree>): Option<Value> {
    if t.Some? then Some(Content(t.value)) else None
  }

  predicate Same(a: Option<Tree>, b: Option<Tree>) {
    ContentOf(a) == ContentOf(b)
  }

  function Lookup(members: seq<Entry>, name: string): Option<Tree> {
    if Has(members, name) then Some(Find(members, name)) else None
  }

  // ----- height: what the recursion into members descends on --------------------------------

  function Tallest(members: seq<Entry>): (h: nat)
    ensures forall i | 0 <= i < |members| :: Height(members[i].value) <= h
    decreases members, 0
  {
    if members == [] then 0
    else
      var rest := Tallest(members[1..]);
      assert forall i | 1 <= i < |members| :: members[i] == members[1..][i - 1];
      if rest < Height(members[0].value) then Height(members[0].value) else rest
  }

  function Height(t: Tree): nat
    decreases t, 1
  {
    if t.Dict? then 1 + Tallest(t.members) else 1
  }

  function HeightOf(t: Option<Tree>): nat {
    if t.Some? then Height(t.value) else 0
  }

  lemma LookupIsLower(members: seq<Entry>, name: string)
    ensures HeightOf(Lookup(members, name)) < Height(Dict(members))
  {
    if Has(members, name) {
      assert Height(members[IndexOf(members, name)].value) <= Tallest(members);
    }
  }

  // ----- the merge -----------------------------------------------------------------------------

  function MembersOf(t: Option<Tree>): seq<Entry> {
    if t.Some? && t.value.Dict? then t.value.members else []
  }

  /** Names of `members` that neither list in `seen` has, in order. */
  function Fresh(members: seq<Entry>, seen: seq<Entry>): seq<string> {
    if members == [] then []
    else (if Has(seen, members[0].name) then [] else [members[0].name]) + Fresh(members[1..], seen)
  }

  /** Ours in their order; what only theirs has, in their order; then what only the ancestor has. */
  function MergeOrder(base: seq<Entry>, ours: seq<Entry>, theirs: seq<Entry>): seq<string> {
    Fresh(ours, []) + Fresh(theirs, ours) + Fresh(base, ours + theirs)
  }

  function MergeValue(
    at: Path, base: Option<Tree>, ours: Option<Tree>, theirs: Option<Tree>): (Option<Tree>, seq<Conflict>)
    decreases HeightOf(ours), 2
  {
    if Same(ours, theirs) then (ours, [])
    else if Same(base, ours) then (theirs, [])
    else if Same(base, theirs) then (ours, [])
    else if ours.Some? && theirs.Some? && ours.value.Dict? && theirs.value.Dict? then
      var order := MergeOrder(MembersOf(base), ours.value.members, theirs.value.members);
      var (members, conflicts) := MergeMembers(at, MembersOf(base), ours.value.members, theirs.value.members, order);
      (Some(Dict(members)), conflicts)
    else (ours, [Conflict(at, base, ours, theirs)])
  }

  /** The members merged so far, for the names listed. */
  function MergeMembers(at: Path, base: seq<Entry>, ours: seq<Entry>, theirs: seq<Entry>, names: seq<string>)
    : (seq<Entry>, seq<Conflict>)
    decreases Height(Dict(ours)), 1, |names|
  {
    if names == [] then ([], [])
    else
      var name := names[|names| - 1];
      var (members, conflicts) := MergeMembers(at, base, ours, theirs, names[..|names| - 1]);
      LookupIsLower(ours, name);
      var (value, more) := MergeValue(at + [name], Lookup(base, name), Lookup(ours, name), Lookup(theirs, name));
      (if value.Some? then members + [Entry(name, value.value)] else members, conflicts + more)
  }

  // ----- what members say of content ----------------------------------------------------------

  lemma {:induction false} HasIsNamed(members: seq<Entry>, name: string)
    ensures Has(members, name) <==> name in Names(members)
  {
  }

  lemma {:induction false} ContentMember(members: seq<Entry>, name: string)
    ensures Get(Some(Content(Dict(members))), name) == ContentOf(Lookup(members, name))
  {
    HasIsNamed(members, name);
  }

  ghost predicate WellFormedOption(t: Option<Tree>) {
    t.Some? ==> WellFormed(t.value)
  }

  lemma {:induction false} LookupWellFormed(members: seq<Entry>, name: string)
    requires WellFormed(Dict(members))
    ensures WellFormedOption(Lookup(members, name))
  {
  }

  /** A base that is not an object contributed no members. */
  lemma {:induction false} MembersOfContent(t: Option<Tree>, name: string)
    ensures Get(ContentOf(t), name) == ContentOf(Lookup(MembersOf(t), name))
  {
    if t.Some? && t.value.Dict? { ContentMember(t.value.members, name); }
  }

  // ----- the order of names -------------------------------------------------------------------------

  lemma {:induction false} FreshNames(members: seq<Entry>, seen: seq<Entry>, name: string)
    ensures name in Fresh(members, seen) <==> Has(members, name) && !Has(seen, name)
  {
    if members != [] { FreshNames(members[1..], seen, name); }
  }

  lemma {:induction false} FreshIsDistinct(members: seq<Entry>, seen: seq<Entry>)
    requires DistinctNames(members)
    ensures Unrepeated(Fresh(members, seen))
  {
    if members != [] {
      FreshIsDistinct(members[1..], seen);
      FreshNames(members[1..], seen, members[0].name);
      HasIsNamed(members[1..], members[0].name);
      assert forall j | 0 <= j < |members[1..]| :: members[1..][j].name == members[j + 1].name;
      AppendDistinct(if Has(seen, members[0].name) then [] else [members[0].name], Fresh(members[1..], seen));
    }
  }

  ghost predicate Unrepeated(names: seq<string>) {
    forall i, j | 0 <= i < j < |names| :: names[i] != names[j]
  }

  lemma {:induction false} AppendDistinct(xs: seq<string>, ys: seq<string>)
    requires Unrepeated(xs) && Unrepeated(ys) && forall x | x in xs :: x !in ys
    ensures Unrepeated(xs + ys)
  {
    forall i, j | 0 <= i < j < |xs + ys| ensures (xs + ys)[i] != (xs + ys)[j] {
      if i < |xs| && j >= |xs| { assert xs[i] in xs && ys[j - |xs|] in ys; }
    }
  }

  lemma {:induction false} HasEither(a: seq<Entry>, b: seq<Entry>, name: string)
    ensures Has(a + b, name) <==> Has(a, name) || Has(b, name)
  {
    HasIsNamed(a + b, name);
    HasIsNamed(a, name);
    HasIsNamed(b, name);
    if Has(a, name) { assert (a + b)[IndexOf(a, name)].name == name; }
    if Has(b, name) { assert (a + b)[|a| + IndexOf(b, name)].name == name; }
  }

  /** Every name of any side, once. */
  lemma {:induction false} MergeOrderIsComplete(base: seq<Entry>, ours: seq<Entry>, theirs: seq<Entry>)
    requires DistinctNames(base) && DistinctNames(ours) && DistinctNames(theirs)
    ensures Unrepeated(MergeOrder(base, ours, theirs))
    ensures forall name ::
      name in MergeOrder(base, ours, theirs) <==> Has(ours, name) || Has(theirs, name) || Has(base, name)
  {
    FreshIsDistinct(ours, []);
    FreshIsDistinct(theirs, ours);
    FreshIsDistinct(base, ours + theirs);
    forall name
      ensures name in Fresh(ours, []) <==> Has(ours, name)
      ensures name in Fresh(theirs, ours) <==> Has(theirs, name) && !Has(ours, name)
      ensures name in Fresh(base, ours + theirs) <==> Has(base, name) && !Has(ours, name) && !Has(theirs, name)
    {
      FreshNames(ours, [], name);
      FreshNames(theirs, ours, name);
      FreshNames(base, ours + theirs, name);
      HasEither(ours, theirs, name);
    }
    AppendDistinct(Fresh(ours, []), Fresh(theirs, ours));
    AppendDistinct(Fresh(ours, []) + Fresh(theirs, ours), Fresh(base, ours + theirs));
  }

  // ----- the merge means what `Merged` and `Conflicting` say ------------------------------------------

  /** The conflict of one path, with what each side holds there. */
  ghost predicate Describes(c: Conflict, p: Path, base: Option<Value>, ours: Option<Value>, theirs: Option<Value>) {
    && Conflicting(p, base, ours, theirs)
    && ContentOf(c.base) == At(base, p) && ContentOf(c.ours) == At(ours, p) && ContentOf(c.theirs) == At(theirs, p)
    && WellFormedOption(c.base) && WellFormedOption(c.ours) && WellFormedOption(c.theirs)
  }

  ghost predicate Apart(conflicts: seq<Conflict>) {
    forall i, j | 0 <= i < j < |conflicts| :: conflicts[i].pointer != conflicts[j].pointer
  }

  /** Every conflict, once, and nothing that is not one. */
  ghost predicate Reports(
    conflicts: seq<Conflict>, at: Path, base: Option<Value>, ours: Option<Value>, theirs: Option<Value>)
  {
    && Apart(conflicts)
    && (forall c | c in conflicts :: at <= c.pointer && Describes(c, c.pointer[|at|..], base, ours, theirs))
    && (forall p | Conflicting(p, base, ours, theirs) :: exists c | c in conflicts :: c.pointer == at + p)
  }

  ghost predicate Means(
    r: (Option<Tree>, seq<Conflict>), at: Path, base: Option<Tree>, ours: Option<Tree>, theirs: Option<Tree>)
  {
    && ContentOf(r.0) == Merged(ContentOf(base), ContentOf(ours), ContentOf(theirs), iset{})
    && WellFormedOption(r.0)
    && Reports(r.1, at, ContentOf(base), ContentOf(ours), ContentOf(theirs))
  }

  lemma {:induction false} NoConflict(at: Path, base: Option<Value>, ours: Option<Value>, theirs: Option<Value>)
    requires !Forked(base, ours, theirs)
    ensures Reports([], at, base, ours, theirs)
  {
  }

  lemma {:induction false} OneConflict(at: Path, base: Option<Tree>, ours: Option<Tree>, theirs: Option<Tree>)
    requires WellFormedOption(base) && WellFormedOption(ours) && WellFormedOption(theirs)
    requires Forked(ContentOf(base), ContentOf(ours), ContentOf(theirs))
    requires !BothObjects(ContentOf(ours), ContentOf(theirs))
    ensures Reports([Conflict(at, base, ours, theirs)], at, ContentOf(base), ContentOf(ours), ContentOf(theirs))
  {
    var c := Conflict(at, base, ours, theirs);
    assert at[|at|..] == [];
    assert Describes(c, [], ContentOf(base), ContentOf(ours), ContentOf(theirs));
    assert c in [c] && at + [] == at;
  }

  lemma {:induction false} MergeValueMeans(at: Path, base: Option<Tree>, ours: Option<Tree>, theirs: Option<Tree>)
    requires WellFormedOption(base) && WellFormedOption(ours) && WellFormedOption(theirs)
    ensures Means(MergeValue(at, base, ours, theirs), at, base, ours, theirs)
    decreases HeightOf(ours), 2
  {
    hide Reports, Content, Describes;
    var b, o, h := ContentOf(base), ContentOf(ours), ContentOf(theirs);
    DictsAreObjects(ours);
    DictsAreObjects(theirs);
    if !Forked(b, o, h) {
      NoConflict(at, b, o, h);
    } else if !BothObjects(o, h) {
      OneConflict(at, base, ours, theirs);
    } else {
      MergeObjectsMeans(at, base, ours, theirs);
    }
  }

  lemma {:induction false} DictsAreObjects(t: Option<Tree>)
    ensures t.Some? ==> (t.value.Dict? <==> Content(t.value).Object?)
  {
  }

  /** The merge of one member, with nothing resolved their way. */
  lemma {:induction false} MemberIsMerged(base: Option<Value>, ours: Option<Value>, theirs: Option<Value>, name: string)
    ensures Member(base, ours, theirs, iset{}, name)
      == Merged(Get(base, name), Get(ours, name), Get(theirs, name), iset{})
  {
    assert Tails(iset{}, name) == iset{};
  }

  /** What holds of the members merged so far: for each name listed, its merge and its conflicts. */
  ghost predicate MembersMean(
    r: (seq<Entry>, seq<Conflict>), at: Path, base: Option<Value>, ours: Option<Value>, theirs: Option<Value>,
      names: seq<string>)
  {
    && DistinctNames(r.0)
    && (forall i | 0 <= i < |r.0| :: WellFormed(r.0[i].value))
    && (forall name :: ContentOf(Lookup(r.0, name)) ==
          if name in names then Merged(Get(base, name), Get(ours, name), Get(theirs, name), iset{}) else None)
    && ReportsUnder(r.1, at, base, ours, theirs, names)
  }

  ghost predicate ReportsUnder(
    conflicts: seq<Conflict>, at: Path, base: Option<Value>, ours: Option<Value>, theirs: Option<Value>,
      names: seq<string>)
  {
    && Apart(conflicts)
    && (forall c | c in conflicts :: Under(c, at, base, ours, theirs, names))
    && (forall name, p | name in names && Conflicting(p, Get(base, name), Get(ours, name), Get(theirs, name)) ::
          exists c | c in conflicts :: c.pointer == at + [name] + p)
  }

  ghost predicate Under(
    c: Conflict, at: Path, base: Option<Value>, ours: Option<Value>, theirs: Option<Value>, names: seq<string>)
  {
    && |at| < |c.pointer| && at == c.pointer[..|at|] && c.pointer[|at|] in names
    && Describes(c, c.pointer[|at| + 1..], Get(base, c.pointer[|at|]), Get(ours, c.pointer[|at|]),
      Get(theirs, c.pointer[|at|]))
  }

  lemma {:induction false} ReportsGrow(
    before: seq<Conflict>, more: seq<Conflict>, at: Path, base: Option<Value>, ours: Option<Value>,
      theirs: Option<Value>,
    names: seq<string>, name: string)
    requires ReportsUnder(before, at, base, ours, theirs, names) && name !in names
    requires Reports(more, at + [name], Get(base, name), Get(ours, name), Get(theirs, name))
    ensures ReportsUnder(before + more, at, base, ours, theirs, names + [name])
  {
    hide Describes, Conflicting;
    var all := before + more;
    forall c | c in all ensures Under(c, at, base, ours, theirs, names + [name]) {
      if c in more {
        assert at + [name] <= c.pointer;
        assert c.pointer[..|at|] == at && c.pointer[|at|] == (at + [name])[|at|];
      } else {
        assert Under(c, at, base, ours, theirs, names);
      }
    }
    forall i, j | 0 <= i < j < |all| ensures all[i].pointer != all[j].pointer {
      if i < |before| && j >= |before| {
        assert Under(before[i], at, base, ours, theirs, names);
        assert at + [name] <= more[j - |before|].pointer;
        assert more[j - |before|].pointer[|at|] == (at + [name])[|at|];
      }
    }
    forall n, p | n in names + [name] && Conflicting(p, Get(base, n), Get(ours, n), Get(theirs, n))
      ensures exists c | c in all :: c.pointer == at + [n] + p
    {
      if n in names {
        var c :| c in before && c.pointer == at + [n] + p;
        assert c in all;
      } else {
        var c :| c in more && c.pointer == at + [name] + p;
        assert c in all;
      }
    }
  }

  lemma {:induction false} MembersGrow(
    members: seq<Entry>, name: string, value: Option<Tree>)
    requires DistinctNames(members) && !Has(members, name)
    ensures var grown := if value.Some? then members + [Entry(name, value.value)] else members;
      && DistinctNames(grown)
      && forall n :: Lookup(grown, n) == if n == name then value else Lookup(members, n)
  {
    var grown := if value.Some? then members + [Entry(name, value.value)] else members;
    HasIsNamed(members, name);
    assert DistinctNames(grown);
    forall n ensures Lookup(grown, n) == if n == name then value else Lookup(members, n) {
      HasIsNamed(grown, n);
      HasIsNamed(members, n);
      if value.Some? && n == name {
        IndexOfMember(grown, |members|);
        assert grown[|members|] == Entry(name, value.value);
      } else if Has(members, n) {
        assert grown[IndexOf(members, n)] == members[IndexOf(members, n)];
        IndexOfMember(grown, IndexOf(members, n));
      }
    }
  }

  lemma {:induction false} MergeMembersMeans(
    at: Path, base: Option<Tree>, ours: Option<Tree>, theirs: Option<Tree>, names: seq<string>)
    requires WellFormedOption(base) && WellFormedOption(ours) && WellFormedOption(theirs)
    requires ours.Some? && ours.value.Dict? && Unrepeated(names)
    ensures MembersMean(MergeMembers(at, MembersOf(base), MembersOf(ours), MembersOf(theirs), names),
                        at, ContentOf(base), ContentOf(ours), ContentOf(theirs), names)
    decreases HeightOf(ours), 0, |names|
  {
    hide Content, MergeValue, Describes, Conflicting, WellFormed, Lookup, Reports, ReportsUnder, Merged;
    if names == [] {
      NothingMeans(at, ContentOf(base), ContentOf(ours), ContentOf(theirs));
    } else {
      var front, name := names[..|names| - 1], names[|names| - 1];
      var (members, conflicts) := MergeMembers(at, MembersOf(base), MembersOf(ours), MembersOf(theirs), front);
      MergeMembersMeans(at, base, ours, theirs, front);
      LookupIsLower(MembersOf(ours), name);
      var b, o, h := Lookup(MembersOf(base), name), Lookup(MembersOf(ours), name), Lookup(MembersOf(theirs), name);
      LookupsWellFormed(base, name);
      LookupsWellFormed(ours, name);
      LookupsWellFormed(theirs, name);
      MergeValueMeans(at + [name], b, o, h);
      MembersOfContent(base, name);
      MembersOfContent(ours, name);
      MembersOfContent(theirs, name);
      var r := MergeValue(at + [name], b, o, h);
      assert names == front + [name] && name !in front;
      assert !Has(members, name) by { NotMerged(members, name); }
      MembersGrow(members, name, r.0);
      ReportsGrow(conflicts, r.1, at, ContentOf(base), ContentOf(ours), ContentOf(theirs), front, name);
    }
  }

  lemma {:induction false} NothingMeans(at: Path, base: Option<Value>, ours: Option<Value>, theirs: Option<Value>)
    ensures MembersMean(([], []), at, base, ours, theirs, [])
  {
    assert forall name :: !Has([], name);
  }

  lemma {:induction false} NotMerged(members: seq<Entry>, name: string)
    requires ContentOf(Lookup(members, name)) == None
    ensures !Has(members, name)
  {
  }

  lemma {:induction false} LookupsWellFormed(t: Option<Tree>, name: string)
    requires WellFormedOption(t)
    ensures WellFormedOption(Lookup(MembersOf(t), name))
  {
    if t.Some? && t.value.Dict? { LookupWellFormed(t.value.members, name); }
  }

  lemma {:induction false} MergeObjectsMeans(at: Path, base: Option<Tree>, ours: Option<Tree>, theirs: Option<Tree>)
    requires WellFormedOption(base) && WellFormedOption(ours) && WellFormedOption(theirs)
    requires Forked(ContentOf(base), ContentOf(ours), ContentOf(theirs))
    requires BothObjects(ContentOf(ours), ContentOf(theirs))
    ensures Means(MergeValue(at, base, ours, theirs), at, base, ours, theirs)
    decreases HeightOf(ours), 1
  {
    hide Content, Describes, Reports, ReportsUnder, Merged, Member, Lookup, MergeMembers;
    DictsAreObjects(ours);
    DictsAreObjects(theirs);
    var b, o, h := ContentOf(base), ContentOf(ours), ContentOf(theirs);
    var names := MergeOrder(MembersOf(base), MembersOf(ours), MembersOf(theirs));
    assert DistinctNames(MembersOf(base));
    MergeOrderIsComplete(MembersOf(base), MembersOf(ours), MembersOf(theirs));
    MergeMembersMeans(at, base, ours, theirs, names);
    var r := MergeMembers(at, MembersOf(base), MembersOf(ours), MembersOf(theirs), names);
    assert MergeValue(at, base, ours, theirs) == (Some(Dict(r.0)), r.1);
    MergedMembersMean(at, base, ours, theirs, names, r);
    assert WellFormed(Dict(r.0));
    forall name | name !in names ensures Get(o, name) == Get(h, name) == None {
      MembersOfContent(ours, name);
      MembersOfContent(theirs, name);
      LookupNone(MembersOf(ours), name);
      LookupNone(MembersOf(theirs), name);
    }
    ReportsOfMembers(r.1, at, b, o, h, names);
  }

  lemma {:induction false} LookupNone(members: seq<Entry>, name: string)
    ensures !Has(members, name) ==> ContentOf(Lookup(members, name)) == None
  {
  }

  lemma {:induction false} MergedMembersMean(
    at: Path, base: Option<Tree>, ours: Option<Tree>, theirs: Option<Tree>, names: seq<string>,
      r: (seq<Entry>, seq<Conflict>))
    requires MembersMean(r, at, ContentOf(base), ContentOf(ours), ContentOf(theirs), names)
    requires Forked(ContentOf(base), ContentOf(ours), ContentOf(theirs))
    requires BothObjects(ContentOf(ours), ContentOf(theirs))
    requires forall name | Has(MembersOf(ours), name) || Has(MembersOf(theirs), name) :: name in names
    ensures Merged(ContentOf(base), ContentOf(ours), ContentOf(theirs), iset{}) == Some(Content(Dict(r.0)))
  {
    var b, o, h := ContentOf(base), ContentOf(ours), ContentOf(theirs);
    var merged := Merged(b, o, h, iset{});
    assert merged.Some? && merged.value.Object?;
    DictsAreObjects(Some(Dict(r.0)));
    hide Content, Merged, Member, Lookup, ReportsUnder, WellFormed;
    forall name ensures Get(Some(Content(Dict(r.0))), name) == Get(merged, name) {
      ContentMember(r.0, name);
      MergedMember(b, o, h, iset{}, name);
      MemberIsMerged(b, o, h, name);
      if name !in names {
        MembersOfContent(ours, name);
        MembersOfContent(theirs, name);
        LookupNone(MembersOf(ours), name);
        LookupNone(MembersOf(theirs), name);
        NeitherMerged(Get(b, name));
      }
    }
    SameMembers(Content(Dict(r.0)), merged.value);
  }

  lemma {:induction false} NeitherMerged(base: Option<Value>)
    ensures Merged(base, None, None, iset{}) == None
  {
  }

  lemma {:induction false} ReportsOfMembers(
    conflicts: seq<Conflict>, at: Path, base: Option<Value>, ours: Option<Value>, theirs: Option<Value>,
      names: seq<string>)
    requires ReportsUnder(conflicts, at, base, ours, theirs, names)
    requires Forked(base, ours, theirs) && BothObjects(ours, theirs)
    requires forall name | name !in names :: Get(ours, name) == Get(theirs, name) == None
    ensures Reports(conflicts, at, base, ours, theirs)
  {
    forall c | c in conflicts ensures at <= c.pointer && Describes(c, c.pointer[|at|..], base, ours, theirs) {
      assert Under(c, at, base, ours, theirs, names);
      var p := c.pointer[|at|..];
      assert p[0] == c.pointer[|at|] && p[1..] == c.pointer[|at| + 1..];
    }
    forall p | Conflicting(p, base, ours, theirs) ensures exists c | c in conflicts :: c.pointer == at + p {
      assert Conflicting(p[1..], Get(base, p[0]), Get(ours, p[0]), Get(theirs, p[0]));
      assert Forked(Get(base, p[0]), Get(ours, p[0]), Get(theirs, p[0]));
      assert p[0] in names;
      var c :| c in conflicts && c.pointer == at + [p[0]] + p[1..];
      assert at + [p[0]] + p[1..] == at + p;
    }
  }
}
