/**
 Where conflict markers go in a document: the stretch of text each conflicting
 member gives up, and the document as it reads once every stretch is replaced.
 */
module MarkLayout {
  import opened Json
  import opened Document
  import opened Merging
  import opened MergeDocuments
  import opened CanonicalForm
  import opened Sequences
  import opened Order

  datatype Side = Ours | Base | Theirs

  /** A piece of marked text: a token every resolution keeps, or a block of which one section is kept. */
  datatype Item = Plain(token: Token) | Block(at: Path, ours: seq<Token>, base: seq<Token>, theirs: seq<Token>)

  /** The text that goes from `start` to `end`. */
  datatype Replacement = Replacement(start: nat, end: nat, block: Item)

  function Plains(tokens: seq<Token>): (items: seq<Item>)
    ensures |items| == |tokens| && forall i | 0 <= i < |items| :: items[i] == Plain(tokens[i])
  {
    seq(|tokens|, i requires 0 <= i < |tokens| => Plain(tokens[i]))
  }

  function Parent(p: Path): Path {
    if p == [] then [] else p[..|p| - 1]
  }

  function Last(p: Path): string {
    if p == [] then "" else p[|p| - 1]
  }

  // ----- one side's text --------------------------------------------------------------------

  /** A side's section, with the comma the member carries before or after it; nothing where the side has no member. */
  function MemberText(name: string, side: Option<Tree>, lead: seq<Token>, trail: seq<Token>): seq<Token> {
    if side.None? then [] else lead + EntryTokens(Entry(name, Canonical(side.value))) + trail
  }

  function MemberBlock(c: Conflict, lead: seq<Token>, trail: seq<Token>): Item {
    var text := (side: Option<Tree>) => MemberText(Last(c.pointer), side, lead, trail);
    Block(c.pointer, text(c.ours), text(c.base), text(c.theirs))
  }

  const COMMA := Mark(',')

  // ----- which members conflict ------------------------------------------------------------------

  predicate Listed(conflicts: seq<Conflict>, at: Path) {
    exists i | 0 <= i < |conflicts| :: conflicts[i].pointer == at
  }

  function The(conflicts: seq<Conflict>, at: Path): (c: Conflict)
    requires Listed(conflicts, at)
    ensures c in conflicts && c.pointer == at
  {
    if conflicts[0].pointer == at then conflicts[0] else The(conflicts[1..], at)
  }

  /** The first member that does not conflict, or past the end. */
  function Anchor(conflicts: seq<Conflict>, at: Path, members: seq<Entry>): (a: nat)
    ensures a <= |members|
  {
    if members == [] || !Listed(conflicts, at + [members[0].name]) then 0 else 1 + Anchor(conflicts, at, members[1..])
  }

  lemma {:induction false} AnchorIsFirst(conflicts: seq<Conflict>, at: Path, members: seq<Entry>, i: nat)
    requires i < |members|
    ensures i < Anchor(conflicts, at, members) ==> Listed(conflicts, at + [members[i].name])
    ensures i == Anchor(conflicts, at, members) ==> !Listed(conflicts, at + [members[i].name])
  {
    hide Listed;
    if Listed(conflicts, at + [members[0].name]) && i > 0 { AnchorIsFirst(conflicts, at, members[1..], i - 1); }
  }

  // ----- positions --------------------------------------------------------------------------------

  /** Where a member's name starts, the first at `start`. */
  function NameStart(members: seq<Entry>, i: nat, start: nat): nat
    requires i < |members|
    decreases i, 0
  {
    if i == 0 then start else ValueEnd(members, i - 1, start) + 1
  }

  /** Where a member's value ends. */
  function ValueEnd(members: seq<Entry>, i: nat, start: nat): nat
    requires i < |members|
    decreases i, 1
  {
    NameStart(members, i, start) + |EntryTokens(members[i])|
  }

  predicate DictAt(v: Tree, p: Path)
    decreases p
  {
    v.Dict? && (p != [] ==> Has(v.members, p[0]) && DictAt(Find(v.members, p[0]), p[1..]))
  }

  /** The object at a path, and where it starts. */
  function Place(v: Tree, off: nat, p: Path): (r: (Tree, nat))
    requires DictAt(v, p)
    ensures r.0.Dict?
    decreases p
  {
    if p == [] then (v, off)
    else Place(Find(v.members, p[0]), NameStart(v.members, IndexOf(v.members, p[0]), off + 1) + 2, p[1..])
  }

  /**
   The stretch a conflict takes: members before the anchor carry the comma
   after them, members after it the comma before, and one that ours removed
   goes after the object's last member.
   */
  function Cut(conflicts: seq<Conflict>, members: seq<Entry>, start: nat, c: Conflict): Replacement
    requires c.pointer != [] && Listed(conflicts, c.pointer)
    requires Anchor(conflicts, Parent(c.pointer), members) < |members|
  {
    var i := IndexOf(members, Last(c.pointer));
    var anchor := Anchor(conflicts, Parent(c.pointer), members);
    assert Parent(c.pointer) + [Last(c.pointer)] == c.pointer;
    assert i < |members| ==> i != anchor by {
      if i < |members| { AnchorIsFirst(conflicts, Parent(c.pointer), members, i); }
    }
    if i < anchor then
      Replacement(NameStart(members, i, start), NameStart(members, i + 1, start), MemberBlock(c, [], [COMMA]))
    else if i < |members| then
      Replacement(ValueEnd(members, i - 1, start), ValueEnd(members, i, start), MemberBlock(c, [COMMA], []))
    else
      var end := ValueEnd(members, |members| - 1, start);
      Replacement(end, end, MemberBlock(c, [COMMA], []))
  }

  predicate StrictlyUnder(p: Path, q: Path) {
    |p| < |q| && p == q[..|p|]
  }

  /** Where a conflict's object lies, from the one at `p`. */
  function Inward(p: Path, c: Conflict): Path
    requires StrictlyUnder(p, c.pointer)
  {
    c.pointer[|p|..|c.pointer| - 1]
  }

  /** The conflict is of a member of some object of `v`, the one at `p`, and that object has an anchor. */
  ghost predicate FitsAt(v: Tree, p: Path, conflicts: seq<Conflict>, c: Conflict) {
    && StrictlyUnder(p, c.pointer) && Listed(conflicts, c.pointer)
    && DictAt(v, Inward(p, c))
    && Anchor(conflicts, Parent(c.pointer), Place(v, 0, Inward(p, c)).0.members) < |Place(v, 0, Inward(p, c)).0.members|
  }

  ghost predicate Fits(v: Tree, p: Path, conflicts: seq<Conflict>) {
    forall c | c in conflicts && StrictlyUnder(p, c.pointer) :: FitsAt(v, p, conflicts, c)
  }

  lemma {:induction false} PlaceAnywhere(v: Tree, off: nat, p: Path)
    requires DictAt(v, p)
    ensures Place(v, off, p).0 == Place(v, 0, p).0
    decreases p
  {
    if p != [] {
      var m := Find(v.members, p[0]);
      PlaceAnywhere(m, NameStart(v.members, IndexOf(v.members, p[0]), off + 1) + 2, p[1..]);
      PlaceAnywhere(m, NameStart(v.members, IndexOf(v.members, p[0]), 1) + 2, p[1..]);
    }
  }

  ghost function CutIn(v: Tree, off: nat, p: Path, conflicts: seq<Conflict>, c: Conflict): Replacement
    requires FitsAt(v, p, conflicts, c)
  {
    PlaceAnywhere(v, off, Inward(p, c));
    var (node, start) := Place(v, off, Inward(p, c));
    Cut(conflicts, node.members, start + 1, c)
  }

  ghost predicate Disjoint(conflicts: seq<Conflict>) {
    forall i, j | 0 <= i < |conflicts| && 0 <= j < |conflicts| && i != j ::
      !(conflicts[i].pointer <= conflicts[j].pointer)
  }

  // ----- splicing --------------------------------------------------------------------------------------

  function CompareCuts(left: Replacement, right: Replacement): Ordering {
    CompareInts(right.start, left.start).Then(CompareInts(right.end, left.end))
  }

  function Splice(items: seq<Item>, cuts: seq<Replacement>): seq<Item>
    decreases |cuts|
  {
    if cuts == [] then items
    else if cuts[0].start <= cuts[0].end <= |items| then
      Splice(items[..cuts[0].start] + [cuts[0].block] + items[cuts[0].end..], cuts[1..])
    else items
  }

  /** Every stretch lies within the text it is cut from, so no splice is out of range. */
  predicate InRange(items: seq<Item>, cuts: seq<Replacement>)
    decreases |cuts|
  {
    cuts != [] ==>
      && cuts[0].start <= cuts[0].end <= |items|
      && InRange(items[..cuts[0].start] + [cuts[0].block] + items[cuts[0].end..], cuts[1..])
  }

  // ----- the marked document ---------------------------------------------------------------------------

  /** The part of an object's text its k-th member owns, commas shared out around the anchor. */
  function Segment(members: seq<Entry>, anchor: nat, k: nat): (tokens: seq<Token>)
    requires k < |members|
    ensures |tokens| >= 3
  {
    (if k > anchor then [COMMA] else []) + EntryTokens(members[k]) + (if k < anchor then [COMMA] else [])
  }

  function MarkedTree(v: Tree, p: Path, conflicts: seq<Conflict>): seq<Item>
    decreases v, 0
  {
    if !v.Dict? then Plains(Tokens(v))
    else
      [Plain(Mark('{'))]
      + MarkedFrom(v.members, p, conflicts, Anchor(conflicts, p, v.members), 0)
      + InsertedBlocks(Missing(v.members, p, conflicts))
      + [Plain(Mark('}'))]
  }

  function MarkedSegment(members: seq<Entry>, p: Path, conflicts: seq<Conflict>, anchor: nat, k: nat): seq<Item>
    requires k < |members|
    decreases members, 0
  {
    var at := p + [members[k].name];
    var lead, trail := if k > anchor then [COMMA] else [], if k < anchor then [COMMA] else [];
    if Listed(conflicts, at) then [MemberBlock(The(conflicts, at), lead, trail)]
    else
      Plains(lead) + [Plain(Atom(StringScalar(members[k].name))), Plain(Mark(':'))]
      + MarkedTree(members[k].value, at, conflicts) + Plains(trail)
  }

  function MarkedFrom(members: seq<Entry>, p: Path, conflicts: seq<Conflict>, anchor: nat, k: nat): seq<Item>
    decreases members, 1, |members| - k
  {
    if k >= |members| then []
    else MarkedSegment(members, p, conflicts, anchor, k) + MarkedFrom(members, p, conflicts, anchor, k + 1)
  }

  /** The conflicts of members ours removed. */
  function Missing(members: seq<Entry>, p: Path, conflicts: seq<Conflict>): seq<Conflict> {
    Region(conflicts, p, members, |members|)
  }

  predicate InRegion(members: seq<Entry>, p: Path, k: nat, c: Conflict) {
    StrictlyUnder(p, c.pointer) && IndexOf(members, c.pointer[|p|]) >= k
  }

  function From(members: seq<Entry>, p: Path, k: nat): Conflict -> bool {
    c => InRegion(members, p, k, c)
  }

  /** The conflicts in an object's members from the k-th on, those ours removed among them. */
  function Region(conflicts: seq<Conflict>, p: Path, members: seq<Entry>, k: nat): seq<Conflict> {
    Filter(From(members, p, k), conflicts)
  }

  /** Blocks put in one place one after another end up last first. */
  function InsertedBlocks(conflicts: seq<Conflict>): seq<Item> {
    if conflicts == [] then [] else InsertedBlocks(conflicts[1..]) + [MemberBlock(conflicts[0], [COMMA], [])]
  }
}
