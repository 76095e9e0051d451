/** What is left of a marked document once a side is kept of every block: always JSON, and whose. */
module MarkMeaning {
  import opened Json
  import opened Document
  import opened Merging
  import opened MergeDocuments
  import opened TheirsResolved
  import opened CanonicalForm
  import opened Sequences
  import opened MarkLayout
  import opened MarkSplice
  import opened MarkedDocument

  function Kept(item: Item, side: Side): seq<Token> {
    match item
    case Plain(token) => [token]
    case Block(_, ours, base, theirs) =>
      match side
      case Ours => ours
      case Base => base
      case Theirs => theirs
  }

  function AtOf(item: Item): Path {
    if item.Block? then item.at else []
  }

  /** The text left when one section of every block is kept and the markers are dropped. */
  function Resolve(items: seq<Item>, choice: Path -> Side): seq<Token> {
    if items == [] then [] else Kept(items[0], choice(AtOf(items[0]))) + Resolve(items[1..], choice)
  }

  lemma {:induction false} ResolveBoth(first: seq<Item>, second: seq<Item>, choice: Path -> Side)
    ensures Resolve(first + second, choice) == Resolve(first, choice) + Resolve(second, choice)
  {
    if first == [] {
      assert first + second == second;
    } else {
      assert (first + second)[1..] == first[1..] + second;
      ResolveBoth(first[1..], second, choice);
    }
  }

  lemma {:induction false} ResolvePlains(tokens: seq<Token>, choice: Path -> Side)
    ensures Resolve(Plains(tokens), choice) == tokens
  {
    if tokens != [] {
      assert Plains(tokens)[1..] == Plains(tokens[1..]);
      ResolvePlains(tokens[1..], choice);
    }
  }

  lemma ResolveOne(item: Item, choice: Path -> Side)
    ensures Resolve([item], choice) == Kept(item, choice(AtOf(item)))
  {
    assert [item][1..] == [];
  }

  // ----- the document a choice of sides picks ---------------------------------------------------------

  function SideOf(c: Conflict, side: Side): Option<Tree> {
    match side
    case Ours => c.ours
    case Base => c.base
    case Theirs => c.theirs
  }

  function PickOf(c: Conflict, choice: Path -> Side): seq<Entry> {
    var side := SideOf(c, choice(c.pointer));
    if side.Some? then [Entry(Last(c.pointer), Canonical(side.value))] else []
  }

  function Picked(v: Tree, p: Path, conflicts: seq<Conflict>, choice: Path -> Side): Tree
    decreases v, 0
  {
    if !v.Dict? then v
    else Dict(PickedFrom(v.members, p, conflicts, 0, choice) + PickedMissing(Missing(v.members, p, conflicts), choice))
  }

  function PickedMember(
    members: seq<Entry>, p: Path, conflicts: seq<Conflict>, k: nat, choice: Path -> Side): (picks: seq<Entry>)
    requires k < |members|
    ensures |picks| <= 1 && (picks != [] ==> picks[0].name == members[k].name)
    decreases members, 0
  {
    var at := p + [members[k].name];
    if Listed(conflicts, at) then PickOf(The(conflicts, at), choice)
    else [Entry(members[k].name, Picked(members[k].value, at, conflicts, choice))]
  }

  function PickedFrom(members: seq<Entry>, p: Path, conflicts: seq<Conflict>, k: nat, choice: Path -> Side): seq<Entry>
    decreases members, 1, |members| - k
  {
    if k >= |members| then []
    else PickedMember(members, p, conflicts, k, choice) + PickedFrom(members, p, conflicts, k + 1, choice)
  }

  function PickedMissing(missing: seq<Conflict>, choice: Path -> Side): seq<Entry> {
    if missing == [] then [] else PickedMissing(missing[1..], choice) + PickOf(missing[0], choice)
  }

  // ----- commas -------------------------------------------------------------------------------------------

  function Leading(members: seq<Entry>): seq<Token> {
    if members == [] then [] else EntryTokens(members[0]) + [COMMA] + Leading(members[1..])
  }

  lemma {:induction false} TrailingBoth(xs: seq<Entry>, ys: seq<Entry>)
    ensures Trailing(xs + ys) == Trailing(xs) + Trailing(ys)
  {
    hide EntryTokens;
    if xs == [] {
      assert xs + ys == ys;
    } else {
      assert (xs + ys)[1..] == xs[1..] + ys;
      TrailingBoth(xs[1..], ys);
    }
  }

  lemma {:induction false} TokensLead(first: seq<Entry>, rest: seq<Entry>)
    requires |first| <= 1 && rest != []
    ensures MemberTokens(first + rest) == Leading(first) + MemberTokens(rest)
  {
    hide EntryTokens;
    if first == [] {
      assert first + rest == rest;
    } else {
      assert first[1..] == [];
      assert (first + rest)[1..] == rest;
    }
  }

  lemma OneEntry(e: Entry)
    ensures Trailing([e]) == [COMMA] + EntryTokens(e)
    ensures Leading([e]) == EntryTokens(e) + [COMMA]
  {
    hide EntryTokens;
    assert [e][1..] == [];
  }

  lemma BlockKept(c: Conflict, choice: Path -> Side)
    ensures Kept(MemberBlock(c, [COMMA], []), choice(c.pointer)) == Trailing(PickOf(c, choice))
    ensures Kept(MemberBlock(c, [], [COMMA]), choice(c.pointer)) == Leading(PickOf(c, choice))
    ensures AtOf(MemberBlock(c, [COMMA], [])) == AtOf(MemberBlock(c, [], [COMMA])) == c.pointer
  {
    var side := SideOf(c, choice(c.pointer));
    assert Kept(MemberBlock(c, [COMMA], []), choice(c.pointer)) == MemberText(Last(c.pointer), side, [COMMA], []);
    assert Kept(MemberBlock(c, [], [COMMA]), choice(c.pointer)) == MemberText(Last(c.pointer), side, [], [COMMA]);
    hide EntryTokens, MemberBlock, Kept, Trailing, Leading;
    if side.Some? {
      OneEntry(Entry(Last(c.pointer), Canonical(side.value)));
    } else {
      assert PickOf(c, choice) == [];
      NoEntry();
    }
  }

  lemma NoEntry()
    ensures Trailing([]) == [] == Leading([])
  {
  }

  lemma {:induction false} ResolveInserted(missing: seq<Conflict>, choice: Path -> Side)
    ensures Resolve(InsertedBlocks(missing), choice) == Trailing(PickedMissing(missing, choice))
  {
    if missing != [] {
      var block := MemberBlock(missing[0], [COMMA], []);
      ResolveInserted(missing[1..], choice);
      ResolveBoth(InsertedBlocks(missing[1..]), [block], choice);
      ResolveOne(block, choice);
      BlockKept(missing[0], choice);
      TrailingBoth(PickedMissing(missing[1..], choice), PickOf(missing[0], choice));
    }
  }

  // ----- keeping a section of every block spells the picked document -------------------------------------------

  /** Every object a marked tree holds has an anchor, or nothing in it conflicts. */
  lemma {:induction false} AnchoredOrBare(v: Tree, p: Path, conflicts: seq<Conflict>)
    requires v.Dict? && Fits(v, p, conflicts) && Disjoint(conflicts)
    ensures Anchor(conflicts, p, v.members) < |v.members| || (v.members == [] && Missing(v.members, p, conflicts) == [])
  {
    if Anchor(conflicts, p, v.members) >= |v.members| {
      NothingUnder(v, p, conflicts);
      forall c | c in conflicts ensures !StrictlyUnder(p, c.pointer) {
        assert Below(p)(c) ==> c in Filter(Below(p), conflicts);
      }
      NothingListed(v, p, conflicts);
      FilterAgrees(Below(p), From(v.members, p, 0), conflicts);
    }
  }

  lemma {:induction false} ResolveMarked(v: Tree, p: Path, conflicts: seq<Conflict>, choice: Path -> Side)
    requires WellFormed(v) && Fits(v, p, conflicts) && Disjoint(conflicts)
    ensures Resolve(MarkedTree(v, p, conflicts), choice) == Tokens(Picked(v, p, conflicts, choice))
    decreases v, 2
  {
    if !v.Dict? {
      ResolvePlains(Tokens(v), choice);
    } else {
      AnchoredOrBare(v, p, conflicts);
      var anchor, missing := Anchor(conflicts, p, v.members), Missing(v.members, p, conflicts);
      var marked, inserted := MarkedFrom(v.members, p, conflicts, anchor, 0), InsertedBlocks(missing);
      var picks, more := PickedFrom(v.members, p, conflicts, 0, choice), PickedMissing(missing, choice);
      assert MarkedTree(v, p, conflicts) == [Plain(Mark('{'))] + marked + inserted + [Plain(Mark('}'))];
      assert Tokens(Picked(v, p, conflicts, choice)) == [Mark('{')] + MemberTokens(picks + more) + [Mark('}')];
      assert v.members == [] ==> marked == [] && picks == [] && more == [];
      NoEntry();
      hide Tokens, Picked, PickedFrom, MarkedTree, MarkedFrom, Fits, Disjoint, Anchor, Missing, WellFormed, Resolve,
        InsertedBlocks,
        PickedMissing, MemberTokens, Trailing;
      ResolveInserted(missing, choice);
      ResolveBraces(marked, inserted, choice);
      if v.members != [] {
        ResolveBefore(v, p, conflicts, 0, choice, more);
      } else {
        NoMembers(choice);
      }
    }
  }

  lemma NoMembers(choice: Path -> Side)
    ensures Resolve([], choice) == [] == MemberTokens([])
  {
  }

  lemma ResolveBraces(marked: seq<Item>, inserted: seq<Item>, choice: Path -> Side)
    ensures Resolve([Plain(Mark('{'))] + marked + inserted + [Plain(Mark('}'))], choice)
         == [Mark('{')] + (Resolve(marked, choice) + Resolve(inserted, choice)) + [Mark('}')]
  {
    var open, close := [Plain(Mark('{'))], [Plain(Mark('}'))];
    assert open[0] == Plain(Mark('{')) && close[0] == Plain(Mark('}'));
    assert Kept(open[0], choice(AtOf(open[0]))) == [Mark('{')] && Kept(close[0], choice(AtOf(close[0]))) == [Mark('}')];
    hide Resolve, Kept;
    ResolveOne(open[0], choice);
    ResolveOne(close[0], choice);
    ResolveBoth(open, marked, choice);
    ResolveBoth(open + marked, inserted, choice);
    ResolveBoth(open + marked + inserted, close, choice);
    assert open == [open[0]] && close == [close[0]];
    var before, after := Resolve(marked, choice), Resolve(inserted, choice);
    assert [Mark('{')] + before + after + [Mark('}')] == [Mark('{')] + (before + after) + [Mark('}')];
  }

  lemma {:induction false} ResolveSegment(v: Tree, p: Path, conflicts: seq<Conflict>, k: nat, choice: Path -> Side)
    requires v.Dict? && WellFormed(v) && Fits(v, p, conflicts) && Disjoint(conflicts) && k < |v.members|
    ensures var anchor := Anchor(conflicts, p, v.members);
      var text := Resolve(MarkedSegment(v.members, p, conflicts, anchor, k), choice);
      var picks := PickedMember(v.members, p, conflicts, k, choice);
      && (k < anchor ==> text == Leading(picks))
      && (k > anchor ==> text == Trailing(picks))
      && (k == anchor ==> |picks| == 1 && text == EntryTokens(picks[0]))
    decreases v, 0
  {
    var members, anchor := v.members, Anchor(conflicts, p, v.members);
    var at := p + [members[k].name];
    AnchorIsFirst(conflicts, p, members, k);
    if Listed(conflicts, at) {
      var c := The(conflicts, at);
      BlockKept(c, choice);
      ResolveOne(MemberBlock(c, [], [COMMA]), choice);
      ResolveOne(MemberBlock(c, [COMMA], []), choice);
    } else {
      IndexOfMember(members, k);
      FitsMember(v, p, conflicts, members[k].name);
      ResolveMarked(members[k].value, at, conflicts, choice);
      UnlistedText(members, p, conflicts, anchor, k, choice);
    }
  }

  lemma {:induction false} UnlistedText(
    members: seq<Entry>, p: Path, conflicts: seq<Conflict>, anchor: nat, k: nat, choice: Path -> Side)
    requires anchor <= k < |members| && !Listed(conflicts, p + [members[k].name])
    requires var at := p + [members[k].name];
      Resolve(MarkedTree(members[k].value, at, conflicts), choice)
        == Tokens(Picked(members[k].value, at, conflicts, choice))
    ensures Resolve(MarkedSegment(members, p, conflicts, anchor, k), choice)
         == (if k > anchor then [COMMA] else []) + EntryTokens(PickedMember(members, p, conflicts, k, choice)[0])
  {
    var at := p + [members[k].name];
    var tree := MarkedTree(members[k].value, at, conflicts);
    hide Tokens, MarkedTree, Resolve;
    var lead: seq<Token> := if k > anchor then [COMMA] else [];
    var name := [Atom(StringScalar(members[k].name)), Mark(':')];
    assert Plains(name) == [Plain(name[0]), Plain(name[1])];
    assert Plains(lead) + Plains(name) == Plains(lead + name);
    assert MarkedSegment(members, p, conflicts, anchor, k) == Plains(lead + name) + tree;
    ResolveBoth(Plains(lead + name), tree, choice);
    ResolvePlains(lead + name, choice);
  }

  lemma {:induction false} ResolveAfter(v: Tree, p: Path, conflicts: seq<Conflict>, k: nat, choice: Path -> Side)
    requires v.Dict? && WellFormed(v) && Fits(v, p, conflicts) && Disjoint(conflicts)
    requires Anchor(conflicts, p, v.members) < k <= |v.members|
    ensures Resolve(MarkedFrom(v.members, p, conflicts, Anchor(conflicts, p, v.members), k), choice)
         == Trailing(PickedFrom(v.members, p, conflicts, k, choice))
    decreases v, 1, |v.members| - k
  {
    hide *;
    var members, anchor := v.members, Anchor(conflicts, p, v.members);
    if k < |members| {
      ResolveSegment(v, p, conflicts, k, choice);
      ResolveAfter(v, p, conflicts, k + 1, choice);
    }
    AfterStep(members, p, conflicts, anchor, k, choice);
  }

  lemma {:induction false} AfterStep(
    members: seq<Entry>, p: Path, conflicts: seq<Conflict>, anchor: nat, k: nat, choice: Path -> Side)
    requires k <= |members|
    requires k < |members| ==>
      && Resolve(MarkedSegment(members, p, conflicts, anchor, k), choice)
        == Trailing(PickedMember(members, p, conflicts, k, choice))
      && Resolve(MarkedFrom(members, p, conflicts, anchor, k + 1), choice)
        == Trailing(PickedFrom(members, p, conflicts, k + 1, choice))
    ensures Resolve(MarkedFrom(members, p, conflicts, anchor, k), choice)
      == Trailing(PickedFrom(members, p, conflicts, k, choice))
  {
    hide MarkedSegment, PickedMember;
    if k < |members| {
      hide Resolve, Trailing;
      ResolveBoth(MarkedSegment(members, p, conflicts, anchor, k), MarkedFrom(members, p, conflicts, anchor, k + 1),
        choice);
      TrailingBoth(PickedMember(members, p, conflicts, k, choice), PickedFrom(members, p, conflicts, k + 1, choice));
    }
  }

  lemma {:induction false} Unfolded(
    members: seq<Entry>, p: Path, conflicts: seq<Conflict>, anchor: nat, k: nat, choice: Path -> Side)
    requires k <= |members|
    ensures MarkedFrom(members, p, conflicts, anchor, k) == if k == |members| then [] else
      MarkedSegment(members, p, conflicts, anchor, k) + MarkedFrom(members, p, conflicts, anchor, k + 1)
    ensures PickedFrom(members, p, conflicts, k, choice) == if k == |members| then [] else
      PickedMember(members, p, conflicts, k, choice) + PickedFrom(members, p, conflicts, k + 1, choice)
    ensures k < |members| ==> |PickedMember(members, p, conflicts, k, choice)| <= 1
  {
    hide MarkedSegment, PickedMember;
  }

  lemma {:induction false} ResolveBefore(
    v: Tree, p: Path, conflicts: seq<Conflict>, k: nat, choice: Path -> Side, more: seq<Entry>)
    requires v.Dict? && WellFormed(v) && Fits(v, p, conflicts) && Disjoint(conflicts)
    requires k <= Anchor(conflicts, p, v.members) < |v.members|
    ensures PickedFrom(v.members, p, conflicts, k, choice) != []
    ensures Resolve(MarkedFrom(v.members, p, conflicts, Anchor(conflicts, p, v.members), k), choice) + Trailing(more)
         == MemberTokens(PickedFrom(v.members, p, conflicts, k, choice) + more)
    decreases v, 1, |v.members| - k
  {
    hide *;
    var members, anchor := v.members, Anchor(conflicts, p, v.members);
    ResolveSegment(v, p, conflicts, k, choice);
    if k == anchor {
      ResolveAfter(v, p, conflicts, k + 1, choice);
      AnchorStep(members, p, conflicts, anchor, choice, more);
    } else {
      ResolveBefore(v, p, conflicts, k + 1, choice, more);
      BeforeStep(members, p, conflicts, anchor, k, choice, more);
    }
  }

  lemma {:induction false} AnchorStep(
    members: seq<Entry>, p: Path, conflicts: seq<Conflict>, k: nat, choice: Path -> Side, more: seq<Entry>)
    requires k < |members| && |PickedMember(members, p, conflicts, k, choice)| == 1
    requires Resolve(MarkedSegment(members, p, conflicts, k, k), choice)
      == EntryTokens(PickedMember(members, p, conflicts, k, choice)[0])
    requires Resolve(MarkedFrom(members, p, conflicts, k, k + 1), choice)
      == Trailing(PickedFrom(members, p, conflicts, k + 1, choice))
    ensures PickedFrom(members, p, conflicts, k, choice) != []
    ensures Resolve(MarkedFrom(members, p, conflicts, k, k), choice) + Trailing(more)
         == MemberTokens(PickedFrom(members, p, conflicts, k, choice) + more)
  {
    hide *;
    Unfolded(members, p, conflicts, k, k, choice);
    ResolveBoth(MarkedSegment(members, p, conflicts, k, k), MarkedFrom(members, p, conflicts, k, k + 1), choice);
    AnchorText(PickedMember(members, p, conflicts, k, choice), PickedFrom(members, p, conflicts, k + 1, choice), more);
  }

  lemma {:induction false} BeforeStep(
    members: seq<Entry>, p: Path, conflicts: seq<Conflict>, anchor: nat, k: nat, choice: Path -> Side, more: seq<Entry>)
    requires k < |members|
    requires Resolve(MarkedSegment(members, p, conflicts, anchor, k), choice)
      == Leading(PickedMember(members, p, conflicts, k, choice))
    requires PickedFrom(members, p, conflicts, k + 1, choice) != []
    requires Resolve(MarkedFrom(members, p, conflicts, anchor, k + 1), choice) + Trailing(more)
          == MemberTokens(PickedFrom(members, p, conflicts, k + 1, choice) + more)
    ensures PickedFrom(members, p, conflicts, k, choice) != []
    ensures Resolve(MarkedFrom(members, p, conflicts, anchor, k), choice) + Trailing(more)
         == MemberTokens(PickedFrom(members, p, conflicts, k, choice) + more)
  {
    hide *;
    Unfolded(members, p, conflicts, anchor, k, choice);
    ResolveBoth(MarkedSegment(members, p, conflicts, anchor, k), MarkedFrom(members, p, conflicts, anchor, k + 1),
      choice);
    LeadingText(PickedMember(members, p, conflicts, k, choice), PickedFrom(members, p, conflicts, k + 1, choice), more,
      Resolve(MarkedFrom(members, p, conflicts, anchor, k + 1), choice));
  }

  lemma AnchorText(pick: seq<Entry>, picks: seq<Entry>, more: seq<Entry>)
    requires |pick| == 1
    ensures EntryTokens(pick[0]) + Trailing(picks) + Trailing(more) == MemberTokens(pick + picks + more)
    ensures pick + picks != []
  {
    hide EntryTokens, Trailing, MemberTokens;
    var all := pick + picks + more;
    assert all[1..] == picks + more && all[0] == pick[0];
    TrailingBoth(picks, more);
    TokensTrail(all);
  }

  lemma LeadingText(pick: seq<Entry>, picks: seq<Entry>, more: seq<Entry>, text: seq<Token>)
    requires |pick| <= 1 && picks != [] && text + Trailing(more) == MemberTokens(picks + more)
    ensures Leading(pick) + text + Trailing(more) == MemberTokens(pick + picks + more)
    ensures pick + picks != []
  {
    hide EntryTokens, Trailing, MemberTokens, Leading;
    assert pick + picks + more == pick + (picks + more);
    TokensLead(pick, picks + more);
    assert Leading(pick) + text + Trailing(more) == Leading(pick) + (text + Trailing(more));
  }

  // ----- what the picked document holds ----------------------------------------------------------------------

  /** What a choice picks for one name: the chosen side where it conflicts, and otherwise what the document has. */
  function PickNamed(
    members: seq<Entry>, p: Path, conflicts: seq<Conflict>, choice: Path -> Side, name: string): Option<Tree>
  {
    var at := p + [name];
    if Listed(conflicts, at) then
      var side := SideOf(The(conflicts, at), choice(at));
      if side.Some? then Some(Canonical(side.value)) else None
    else if Has(members, name) then Some(Picked(Find(members, name), at, conflicts, choice))
    else None
  }

  lemma {:induction false} LookupIs(members: seq<Entry>, f: string -> Option<Tree>, name: string)
    requires DistinctNames(members)
    requires forall e :: e in members <==> f(e.name) == Some(e.value)
    ensures Lookup(members, name) == f(name)
  {
    hide Lookup;
    FoundSomewhere(members, name);
    if f(name).Some? {
      assert Entry(name, f(name).value) in members;
    }
    if Lookup(members, name).Some? {
      assert Entry(name, Lookup(members, name).value) in members;
    }
  }

  lemma {:induction false} BothDistinct(xs: seq<Entry>, ys: seq<Entry>)
    requires DistinctNames(xs) && DistinctNames(ys)
    requires forall x, y | x in xs && y in ys :: x.name != y.name
    ensures DistinctNames(xs + ys)
  {
    forall i, j | 0 <= i < j < |xs + ys| ensures (xs + ys)[i].name != (xs + ys)[j].name {
      if i < |xs| && j >= |xs| { assert xs[i] in xs && ys[j - |xs|] in ys; }
    }
  }

  /** The members picked from the k-th on: for each name there, what is picked for it. */
  lemma {:induction false} PickedFromHolds(
    members: seq<Entry>, p: Path, conflicts: seq<Conflict>, k: nat, choice: Path -> Side)
    requires DistinctNames(members) && k <= |members|
    ensures var picks := PickedFrom(members, p, conflicts, k, choice);
      && DistinctNames(picks)
      && forall e :: e in picks <==>
           Has(members, e.name) && IndexOf(members, e.name) >= k
             && PickNamed(members, p, conflicts, choice, e.name) == Some(e.value)
    decreases |members| - k
  {
    hide *;
    Unfolded(members, p, conflicts, 0, k, choice);
    if k < |members| {
      var pick, rest := PickedMember(members, p, conflicts, k, choice),
        PickedFrom(members, p, conflicts, k + 1, choice);
      IndexedOnce(members, k);
      PickedMemberHolds(members, p, conflicts, k, choice);
      PickedFromHolds(members, p, conflicts, k + 1, choice);
      OneIsDistinct(pick);
      BothDistinct(pick, rest);
    } else {
      OneIsDistinct([]);
      assert forall e: Entry ::
        Has(members, e.name) ==> IndexOf(members, e.name) < |members| by { HasIsIndexed(members); }
    }
  }

  lemma HasIsIndexed(members: seq<Entry>)
    ensures forall name :: Has(members, name) <==> IndexOf(members, name) < |members|
  {
  }

  lemma OneIsDistinct(pick: seq<Entry>)
    requires |pick| <= 1
    ensures DistinctNames(pick)
  {
  }

  lemma IndexedOnce(members: seq<Entry>, k: nat)
    requires DistinctNames(members) && k < |members|
    ensures Has(members, members[k].name) && IndexOf(members, members[k].name) == k
    ensures forall name | Has(members, name) && IndexOf(members, name) == k :: name == members[k].name
  {
    IndexOfMember(members, k);
  }

  lemma {:induction false} PickedMemberHolds(
    members: seq<Entry>, p: Path, conflicts: seq<Conflict>, k: nat, choice: Path -> Side)
    requires DistinctNames(members) && k < |members|
    ensures var pick := PickedMember(members, p, conflicts, k, choice);
      forall e ::
        e in pick <==> e.name == members[k].name && PickNamed(members, p, conflicts, choice, e.name) == Some(e.value)
  {
    IndexOfMember(members, k);
    assert Find(members, members[k].name) == members[k].value;
    hide Picked;
  }

  lemma {:induction false} PickedMissingHolds(missing: seq<Conflict>, choice: Path -> Side, p: Path)
    requires Disjoint(missing)
    requires forall c | c in missing :: c.pointer == p + [Last(c.pointer)]
    ensures DistinctNames(PickedMissing(missing, choice))
    ensures forall e :: e in PickedMissing(missing, choice) <==> exists c :: c in missing && PickOf(c, choice) == [e]
  {
    if missing != [] {
      var c, rest := missing[0], missing[1..];
      DisjointRest(missing, p);
      PickedMissingHolds(rest, choice, p);
      forall x, y | x in PickedMissing(rest, choice) && y in PickOf(c, choice) ensures x.name != y.name {
        var d :| d in rest && PickOf(d, choice) == [x];
      }
      BothDistinct(PickedMissing(rest, choice), PickOf(c, choice));
      forall e ensures e in PickedMissing(missing, choice) <==> exists c :: c in missing && PickOf(c, choice) == [e] {
        assert forall d :: d in missing <==> d == c || d in rest;
      }
    }
  }

  lemma {:induction false} DisjointRest(missing: seq<Conflict>, p: Path)
    requires missing != [] && Disjoint(missing)
    requires forall c | c in missing :: c.pointer == p + [Last(c.pointer)]
    ensures Disjoint(missing[1..])
    ensures forall d | d in missing[1..] :: Last(d.pointer) != Last(missing[0].pointer)
  {
    var rest := missing[1..];
    forall i, j | 0 <= i < |rest| && 0 <= j < |rest| && i != j ensures !(rest[i].pointer <= rest[j].pointer) {
      assert !(missing[i + 1].pointer <= missing[j + 1].pointer);
    }
    forall d | d in rest ensures Last(d.pointer) != Last(missing[0].pointer) {
      var i :| 0 <= i < |rest| && rest[i] == d;
      assert !(missing[0].pointer <= missing[i + 1].pointer);
    }
  }

  lemma {:induction false} MissingAreOwn(v: Tree, p: Path, conflicts: seq<Conflict>)
    requires v.Dict? && Fits(v, p, conflicts) && Disjoint(conflicts)
    ensures var missing := Missing(v.members, p, conflicts);
      && Disjoint(missing)
      && (forall c | c in missing :: c.pointer == p + [Last(c.pointer)] && !Has(v.members, Last(c.pointer)))
      && (forall c | c in conflicts && c.pointer == p + [Last(c.pointer)] && !Has(v.members, Last(c.pointer)) ::
        c in missing)
  {
    var missing := Missing(v.members, p, conflicts);
    FilterDisjoint(From(v.members, p, |v.members|), conflicts);
    forall c | c in missing ensures c.pointer == p + [Last(c.pointer)] && !Has(v.members, Last(c.pointer)) {
      assert From(v.members, p, |v.members|)(c);
      assert FitsAt(v, p, conflicts, c);
      MissingIsOwn(v, p, conflicts, c);
      assert c.pointer == c.pointer[..|p|] + [c.pointer[|p|]];
    }
    forall c | c in conflicts && c.pointer == p + [Last(c.pointer)] && !Has(v.members, Last(c.pointer))
      ensures c in missing
    {
      assert (p + [Last(c.pointer)])[..|p|] == p;
      assert From(v.members, p, |v.members|)(c);
    }
  }

  lemma {:induction false} FilterDisjoint(keep: Conflict -> bool, conflicts: seq<Conflict>)
    requires Disjoint(conflicts)
    ensures Disjoint(Filter(keep, conflicts))
  {
    if conflicts != [] {
      var front, last := conflicts[..|conflicts| - 1], conflicts[|conflicts| - 1];
      FilterDisjoint(keep, front);
      var some := Filter(keep, front);
      forall i | 0 <= i < |some| ensures !(some[i].pointer <= last.pointer) && !(last.pointer <= some[i].pointer) {
        assert some[i] in front;
        var j :| 0 <= j < |front| && front[j] == some[i];
        assert !(conflicts[j].pointer <= conflicts[|front|].pointer)
          && !(conflicts[|front|].pointer <= conflicts[j].pointer);
      }
    }
  }

  /** For every name, the picked object holds what is picked for it. */
  lemma {:induction false} PickedLookup(v: Tree, p: Path, conflicts: seq<Conflict>, choice: Path -> Side)
    requires v.Dict? && DistinctNames(v.members) && Fits(v, p, conflicts) && Disjoint(conflicts)
    ensures Picked(v, p, conflicts, choice).Dict?
    ensures DistinctNames(Picked(v, p, conflicts, choice).members)
    ensures forall name ::
      Lookup(Picked(v, p, conflicts, choice).members, name) == PickNamed(v.members, p, conflicts, choice, name)
    ensures forall e :: e in Picked(v, p, conflicts, choice).members <==>
      PickNamed(v.members, p, conflicts, choice, e.name) == Some(e.value)
  {
    hide *;
    var members := v.members;
    var picks, more := PickedFrom(members, p, conflicts, 0, choice),
      PickedMissing(Missing(members, p, conflicts), choice);
    PickedDict(v, p, conflicts, choice);
    PickedFromHolds(members, p, conflicts, 0, choice);
    MissingAreOwn(v, p, conflicts);
    PickedMissingHolds(Missing(members, p, conflicts), choice, p);
    forall e
      ensures e in more <==> !Has(members, e.name) && PickNamed(members, p, conflicts, choice, e.name) == Some(e.value)
    {
      MissingPick(v, p, conflicts, choice, e);
    }
    BothDistinct(picks, more);
    forall name ensures Lookup(picks + more, name) == PickNamed(members, p, conflicts, choice, name) {
      LookupIs(picks + more, n => PickNamed(members, p, conflicts, choice, n), name);
    }
  }

  lemma PickedDict(v: Tree, p: Path, conflicts: seq<Conflict>, choice: Path -> Side)
    requires v.Dict?
    ensures Picked(v, p, conflicts, choice)
         == Dict(PickedFrom(v.members, p, conflicts, 0, choice)
           + PickedMissing(Missing(v.members, p, conflicts), choice))
  {
  }

  lemma {:induction false} OneListed(conflicts: seq<Conflict>, c: Conflict)
    requires Disjoint(conflicts) && c in conflicts
    ensures Listed(conflicts, c.pointer) && The(conflicts, c.pointer) == c
  {
    var d := The(conflicts, c.pointer);
    var i :| 0 <= i < |conflicts| && conflicts[i] == c;
    var j :| 0 <= j < |conflicts| && conflicts[j] == d;
  }

  lemma {:induction false} MissingPick(v: Tree, p: Path, conflicts: seq<Conflict>, choice: Path -> Side, e: Entry)
    requires v.Dict? && Fits(v, p, conflicts) && Disjoint(conflicts)
    ensures (exists c :: c in Missing(v.members, p, conflicts) && PickOf(c, choice) == [e])
       <==> !Has(v.members, e.name) && PickNamed(v.members, p, conflicts, choice, e.name) == Some(e.value)
  {
    hide Fits, Missing, Has, Disjoint, Canonical, Picked;
    MissingAreOwn(v, p, conflicts);
    var missing := Missing(v.members, p, conflicts);
    if c :| c in missing && PickOf(c, choice) == [e] {
      assert c in conflicts by { MissingListed(v.members, p, conflicts, c); }
      OneListed(conflicts, c);
    }
    if !Has(v.members, e.name) && PickNamed(v.members, p, conflicts, choice, e.name) == Some(e.value) {
      var c := The(conflicts, p + [e.name]);
      assert Last(c.pointer) == e.name;
      assert PickOf(c, choice) == [e];
    }
  }

  lemma MissingListed(members: seq<Entry>, p: Path, conflicts: seq<Conflict>, c: Conflict)
    requires c in Missing(members, p, conflicts)
    ensures c in conflicts
  {
  }
}
