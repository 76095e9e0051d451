/** The scan as a whole: what is left of the document at each point, and what is left to record. */
module Locating {
  import opened Json
  import opened Utf8
  import opened Pointer
  import opened Layouts
  import opened Locator

  type Decoder = Bytes -> Option<string>

  /** A container not yet closed, as the scanner keeps it. */
  datatype Frame = ObjectFrame(pointer: string, named: bool) | ArrayFrame(pointer: string, index: nat, started: bool)

  /**
   The same container as the layout has it: whether its first part has been
   begun, what follows the part just read, and the parts still to come.
   */
  datatype Open =
    | InList(path: seq<string>, started: bool, tail: Bytes, index: nat, items: seq<Element>)
    | InBraces(path: seq<string>, started: bool, tail: Bytes, members: seq<Member>)

  predicate Ended(o: Open) {
    if o.InList? then o.items == [] else o.members == []
  }

  function LeftIn(o: Open): Bytes {
    match o
    case InList(_, started, tail, _, items) =>
      tail + (if started then MoreItems(items) else WrittenItems(items)) + [CLOSE_LIST]
    case InBraces(_, started, tail, members) =>
      tail + (if started then MoreMembers(members) else WrittenMembers(members)) + [CLOSE_BRACE]
  }

  function MarksIn(o: Open, decode: Decoder, at: nat): seq<Mark> {
    var begin := at + |o.tail| + if o.started then 1 else 0;
    match o
    case InList(path, started, _, index, items) => ItemMarks(items, decode, path, if started then index + 1
      else index, begin)
    case InBraces(path, _, _, members) => MemberMarks(members, decode, path, begin)
  }

  /** What is left of the document: of the innermost container first. */
  function Left(open: seq<Open>, trail: Bytes): Bytes {
    if open == [] then trail else LeftIn(open[|open| - 1]) + Left(open[..|open| - 1], trail)
  }

  function MarksLeft(open: seq<Open>, decode: Decoder, at: nat): seq<Mark> {
    if open == [] then []
    else
      var last := open[|open| - 1];
      MarksIn(last, decode, at) + MarksLeft(open[..|open| - 1], decode, at + |LeftIn(last)|)
  }

  ghost predicate ProperOpen(o: Open, decode: Decoder) {
    && Spaces(o.tail) && (!o.started && !Ended(o) ==> o.tail == [])
    && match o
       case InList(_, _, _, _, items) =>
         forall i | 0 <= i < |items| ::
           Spaces(items[i].before) && Spaces(items[i].after) && Proper(items[i].value, decode)
       case InBraces(_, _, _, members) =>
         forall i | 0 <= i < |members| :: ProperHead(members[i], decode) && Proper(members[i].value, decode)
  }

  ghost predicate AllProper(open: seq<Open>, decode: Decoder) {
    forall i | 0 <= i < |open| :: ProperOpen(open[i], decode)
  }

  predicate Stands(frame: Frame, o: Open) {
    match o
    case InList(path, started, _, index, _) => frame == ArrayFrame(Text(path), index, started)
    case InBraces(path, started, _, _) => frame == ObjectFrame(Text(path), started)
  }

  ghost predicate AllStand(frames: seq<Frame>, open: seq<Open>) {
    |frames| == |open| && forall i | 0 <= i < |frames| :: Stands(frames[i], open[i])
  }

  // ----- the first byte of a value -------------------------------------------------------------------

  lemma FirstByte(v: Layout, decode: Decoder)
    requires Proper(v, decode)
    ensures Written(v) != []
    ensures var b := Written(v)[0];
      && !Space(b) && b != CLOSE_LIST && b != CLOSE_BRACE && b != COMMA
      && (b == OPEN_LIST <==> v.Listed?) && (b == OPEN_BRACE <==> v.Braced?) && (b == QUOTE <==> v.Quoted?)
  {
  }

  lemma PutFront(front: seq<Open>, o: Open, trail: Bytes)
    ensures Left(front + [o], trail) == LeftIn(o) + Left(front, trail)
  {
    assert (front + [o])[..|front|] == front;
  }

  lemma MarksFront(front: seq<Open>, o: Open, decode: Decoder, at: nat)
    ensures MarksLeft(front + [o], decode, at) == MarksIn(o, decode, at) + MarksLeft(front, decode, at + |LeftIn(o)|)
  {
    hide MarksIn, LeftIn;
    assert (front + [o])[..|front|] == front;
  }

  // ----- a value begins --------------------------------------------------------------------------------

  /** A container just opened. */
  function Opened(v: Layout, path: seq<string>): Open
    requires v.Listed? || v.Braced?
  {
    match v
    case Listed(items, end) => InList(path, false, if items == [] then end else [], 0, items)
    case Braced(members, end) => InBraces(path, false, if members == [] then end else [], members)
  }

  lemma OpenedLeaves(v: Layout, path: seq<string>, decode: Decoder, at: nat)
    requires Proper(v, decode) && (v.Listed? || v.Braced?)
    ensures var o := Opened(v, path);
      && ProperOpen(o, decode)
      && Written(v) == [if v.Listed? then OPEN_LIST else OPEN_BRACE] + LeftIn(o)
      && Marks(v, decode, path, at) == [Mark(path, at, false)] + MarksIn(o, decode, at + 1)
  {
    match v
    case Listed(items, end) =>
      if items == [] {
        assert WrittenItems(items) == [];
      } else {
        assert WrittenItems(items) + end == WrittenItems(items) == [] + WrittenItems(items);
      }
    case Braced(members, end) =>
      if members == [] {
        assert WrittenMembers(members) == [];
      } else {
        assert WrittenMembers(members) + end == WrittenMembers(members) == [] + WrittenMembers(members);
      }
  }

  // ----- a container ends -----------------------------------------------------------------------------------

  function Closer(o: Open): Byte {
    if o.InList? then CLOSE_LIST else CLOSE_BRACE
  }

  lemma Closes(front: seq<Open>, o: Open, trail: Bytes, decode: Decoder, at: nat)
    requires ProperOpen(o, decode) && Ended(o)
    ensures var s := Left(front + [o], trail);
      && SpaceCount(s) == |o.tail| < |s| && s[|o.tail|] == Closer(o)
      && s[|o.tail| + 1..] == Left(front, trail)
      && MarksLeft(front + [o], decode, at) == MarksLeft(front, decode, at + |o.tail| + 1)
  {
    hide Left, MarksLeft, LeftIn, MarksIn, Proper, ProperHead;
    PutFront(front, o, trail);
    MarksFront(front, o, decode, at);
    EndedLeaves(o, decode, at);
    var outer := Left(front, trail);
    var rest := [Closer(o)] + outer;
    Joins(o.tail, [Closer(o)], outer);
    SpacesBefore(o);
    SkipsSpaces(o.tail, rest);
    assert rest[1..] == outer;
    Within(o.tail, rest);
    assert [] + MarksLeft(front, decode, at + |LeftIn(o)|) == MarksLeft(front, decode, at + |o.tail| + 1);
  }

  lemma Joins(a: Bytes, b: Bytes, c: Bytes)
    ensures a + b + c == a + (b + c)
  {
  }

  lemma Within(a: Bytes, b: Bytes)
    ensures forall i | 0 <= i < |b| :: (a + b)[|a| + i] == b[i]
    ensures forall i | 0 <= i <= |b| :: (a + b)[|a| + i..] == b[i..]
  {
  }

  lemma SpacesBefore(o: Open)
    ensures !Space(Closer(o))
  {
  }

  lemma EndedLeaves(o: Open, decode: Decoder, at: nat)
    requires Ended(o)
    ensures LeftIn(o) == o.tail + [Closer(o)] && MarksIn(o, decode, at) == []
  {
    NothingMore();
    assert o.tail + [] == o.tail;
  }

  lemma NothingMore()
    ensures MoreItems([]) == [] == WrittenItems([]) && MoreMembers([]) == [] == WrittenMembers([])
  {
  }

  // ----- the next element --------------------------------------------------------------------------------------

  /** The container once its next element has been begun. */
  function NextItem(o: Open): Open
    requires o.InList? && !Ended(o)
  {
    InList(o.path, true, o.items[0].after, if o.started then o.index + 1 else o.index, o.items[1..])
  }

  function ItemPath(o: Open): seq<string>
    requires o.InList?
  {
    o.path + [IndexText(if o.started then o.index + 1 else o.index)]
  }

  /** What precedes the next element: nothing, or what followed the last and a comma. */
  function ItemLead(o: Open): Bytes {
    if o.started then o.tail + [COMMA] else []
  }

  lemma {:induction false} BeginsItem(front: seq<Open>, o: Open, trail: Bytes, decode: Decoder, at: nat)
    requires ProperOpen(o, decode) && o.InList? && !Ended(o)
    ensures ProperOpen(NextItem(o), decode) && Proper(o.items[0].value, decode) && Spaces(o.items[0].before)
    ensures var e, lead, open := o.items[0], ItemLead(o), front + [NextItem(o)];
      && Left(front + [o], trail) == lead + e.before + Written(e.value) + Left(open, trail)
      && MarksLeft(front + [o], decode, at)
           == Marks(e.value, decode, ItemPath(o), at + |lead| + |e.before|)
              + MarksLeft(open, decode, at + |lead| + |e.before| + |Written(e.value)|)
  {
    hide Left, MarksLeft, LeftIn, MarksIn, Proper, ProperHead, Written, Marks;
    var e, next, lead := o.items[0], NextItem(o), ItemLead(o);
    PutFront(front, o, trail);
    PutFront(front, next, trail);
    MarksFront(front, o, decode, at);
    MarksFront(front, next, decode, at + |lead| + |e.before| + |Written(e.value)|);
    ItemText(o);
    ItemMarksSplit(o, decode, at);
    JoinsFour(lead, e.before, Written(e.value), LeftIn(next), Left(front, trail));
  }

  lemma JoinsFour(a: Bytes, b: Bytes, c: Bytes, d: Bytes, e: Bytes)
    ensures a + b + c + d + e == a + b + c + (d + e)
  {
  }

  lemma ItemMarksSplit(o: Open, decode: Decoder, at: nat)
    requires o.InList? && !Ended(o) && (!o.started ==> o.tail == [])
    ensures var e, lead := o.items[0], ItemLead(o);
      MarksIn(o, decode, at)
        == Marks(e.value, decode, ItemPath(o), at + |lead| + |e.before|)
           + MarksIn(NextItem(o), decode, at + |lead| + |e.before| + |Written(e.value)|)
  {
    hide Written, Marks;
    var e := o.items[0];
    assert |WrittenElement(e)| == |e.before| + |Written(e.value)| + |e.after|;
  }

  lemma ItemText(o: Open)
    requires o.InList? && !Ended(o) && (!o.started ==> o.tail == [])
    ensures LeftIn(o) == ItemLead(o) + o.items[0].before + Written(o.items[0].value) + LeftIn(NextItem(o))
  {
    hide Written, MoreItems, WrittenItems, LeftIn;
    var e := o.items[0];
    ListLeaves(o);
    ListLeaves(NextItem(o));
    FirstItems(o.items);
    Regroups(ItemLead(o), e.before, Written(e.value), e.after, MoreItems(o.items[1..]), [CLOSE_LIST]);
    if o.started {
      Joins(o.tail, [COMMA], WrittenElement(e));
      Joins(o.tail, [COMMA] + WrittenElement(e), MoreItems(o.items[1..]));
    } else {
      assert [] + (WrittenElement(e) + MoreItems(o.items[1..])) == WrittenElement(e) + MoreItems(o.items[1..]);
      assert [] + WrittenElement(e) == WrittenElement(e);
    }
  }

  lemma ListLeaves(o: Open)
    requires o.InList?
    ensures LeftIn(o) == o.tail + (if o.started then MoreItems(o.items) else WrittenItems(o.items)) + [CLOSE_LIST]
  {
  }

  lemma FirstItems(items: seq<Element>)
    requires items != []
    ensures WrittenItems(items) == WrittenElement(items[0]) + MoreItems(items[1..])
    ensures MoreItems(items) == [COMMA] + WrittenElement(items[0]) + MoreItems(items[1..])
    ensures WrittenElement(items[0]) == items[0].before + Written(items[0].value) + items[0].after
  {
  }

  lemma Regroups(lead: Bytes, before: Bytes, text: Bytes, after: Bytes, more: Bytes, close: Bytes)
    ensures lead + (before + text + after) + more + close == lead + before + text + (after + more + close)
  {
  }

  // ----- the next member ----------------------------------------------------------------------------------------

  function NextMember(o: Open): Open
    requires o.InBraces? && !Ended(o)
  {
    InBraces(o.path, true, o.members[0].after, o.members[1..])
  }

  lemma {:induction false} BeginsMember(front: seq<Open>, o: Open, trail: Bytes, decode: Decoder, at: nat)
    requires ProperOpen(o, decode) && o.InBraces? && !Ended(o)
    ensures ProperOpen(NextMember(o), decode) && Proper(o.members[0].value, decode) && ProperHead(o.members[0], decode)
    ensures var m, lead, open := o.members[0], ItemLead(o), front + [NextMember(o)];
      var child := o.path + [NameOf(m, decode)];
      && Left(front + [o], trail) == lead + Head(m) + Written(m.value) + Left(open, trail)
      && MarksLeft(front + [o], decode, at)
           == [Mark(child, at + |lead| + |m.before|, true)]
              + Marks(m.value, decode, child, at + |lead| + |Head(m)|)
              + MarksLeft(open, decode, at + |lead| + |Head(m)| + |Written(m.value)|)
  {
    hide Left, MarksLeft, LeftIn, MarksIn, Proper, ProperHead, Written, Marks, Head;
    var m, next, lead := o.members[0], NextMember(o), ItemLead(o);
    PutFront(front, o, trail);
    PutFront(front, next, trail);
    MarksFront(front, o, decode, at);
    MarksFront(front, next, decode, at + |lead| + |Head(m)| + |Written(m.value)|);
    MemberText(o);
    NextMemberIsProper(o, decode);
    MemberMarksSplit(o, decode, at);
    JoinsFour(lead, Head(m), Written(m.value), LeftIn(next), Left(front, trail));
  }

  lemma NextMemberIsProper(o: Open, decode: Decoder)
    requires ProperOpen(o, decode) && o.InBraces? && !Ended(o)
    ensures ProperOpen(NextMember(o), decode) && Proper(o.members[0].value, decode) && ProperHead(o.members[0], decode)
  {
    hide Proper;
    var m, rest := o.members[0], o.members[1..];
    assert Spaces(m.after);
    assert forall i | 0 <= i < |rest| :: rest[i] == o.members[i + 1];
  }

  lemma MemberMarksSplit(o: Open, decode: Decoder, at: nat)
    requires o.InBraces? && !Ended(o) && (!o.started ==> o.tail == [])
    ensures var m, lead := o.members[0], ItemLead(o);
      var child := o.path + [NameOf(m, decode)];
      MarksIn(o, decode, at)
        == [Mark(child, at + |lead| + |m.before|, true)]
           + Marks(m.value, decode, child, at + |lead| + |Head(m)|)
           + MarksIn(NextMember(o), decode, at + |lead| + |Head(m)| + |Written(m.value)|)
  {
    hide Written, Marks, Head;
    var m := o.members[0];
    assert |WrittenMember(m)| == |Head(m)| + |Written(m.value)| + |m.after|;
  }

  lemma MemberText(o: Open)
    requires o.InBraces? && !Ended(o) && (!o.started ==> o.tail == [])
    ensures LeftIn(o) == ItemLead(o) + Head(o.members[0]) + Written(o.members[0].value) + LeftIn(NextMember(o))
  {
    hide Written, Head, MoreMembers, WrittenMembers, LeftIn;
    var m := o.members[0];
    BracesLeave(o);
    BracesLeave(NextMember(o));
    FirstMembers(o.members);
    Regroups(ItemLead(o), Head(m), Written(m.value), m.after, MoreMembers(o.members[1..]), [CLOSE_BRACE]);
    if o.started {
      Joins(o.tail, [COMMA], WrittenMember(m));
      Joins(o.tail, [COMMA] + WrittenMember(m), MoreMembers(o.members[1..]));
    } else {
      assert [] + (WrittenMember(m) + MoreMembers(o.members[1..])) == WrittenMember(m) + MoreMembers(o.members[1..]);
      assert [] + WrittenMember(m) == WrittenMember(m);
    }
  }

  lemma BracesLeave(o: Open)
    requires o.InBraces?
    ensures LeftIn(o)
      == o.tail + (if o.started then MoreMembers(o.members) else WrittenMembers(o.members)) + [CLOSE_BRACE]
  {
  }

  lemma FirstMembers(members: seq<Member>)
    requires members != []
    ensures WrittenMembers(members) == WrittenMember(members[0]) + MoreMembers(members[1..])
    ensures MoreMembers(members) == [COMMA] + WrittenMember(members[0]) + MoreMembers(members[1..])
    ensures WrittenMember(members[0]) == Head(members[0]) + Written(members[0].value) + members[0].after
  {
  }
}
