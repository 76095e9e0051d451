/** Where, in a file's bytes, every value of a document begins. */
module Locate {
  import opened Json
  import opened Utf8
  import opened Pointer
  import opened Layouts
  import opened Locator
  import opened Locating

  /** Arrays whose first element has not been begun: what the scan has still to do before it must read on. */
  function Unstarted(stack: seq<Frame>): nat {
    if stack == [] then 0
    else Unstarted(stack[..|stack| - 1]) + if stack[|stack| - 1].ArrayFrame? && !stack[|stack| - 1].started then 1
      else 0
  }

  lemma StartsLast(stack: seq<Frame>, frame: Frame)
    requires stack != [] && stack[|stack| - 1].ArrayFrame? && !stack[|stack| - 1].started
    requires frame.ArrayFrame? && frame.started
    ensures Unstarted(stack[|stack| - 1 := frame]) < Unstarted(stack)
  {
    assert stack[|stack| - 1 := frame][..|stack| - 1] == stack[..|stack| - 1];
  }

  /** Every location recorded is one the bytes have. */
  ghost predicate InBounds(raw: Bytes, spans: Spans) {
    && (forall p | p in spans.values :: Somewhere(raw, spans.values[p]))
    && (forall p | p in spans.keys :: Somewhere(raw, spans.keys[p]))
  }

  ghost predicate Somewhere(raw: Bytes, here: Location) {
    exists k | 0 <= k <= |raw| :: LocationAt(raw, k) == here
  }

  // ----- what stands at a place --------------------------------------------------------------------------

  lemma Suffix(raw: Bytes, at: nat, part: Bytes, rest: Bytes)
    requires at <= |raw| && raw[at..] == part + rest
    ensures at + |part| <= |raw| && raw[at + |part|..] == rest && raw[at..at + |part|] == part
    ensures rest != [] ==> at + |part| < |raw| && raw[at + |part|] == rest[0]
    ensures part != [] ==> raw[at] == part[0] && raw[at + 1..] == part[1..] + rest
  {
    assert raw[at..][|part|..] == raw[at + |part|..] && raw[at..][..|part|] == raw[at..at + |part|];
  }

  lemma Spaced(raw: Bytes, at: nat, spaces: Bytes, rest: Bytes)
    requires at <= |raw| && raw[at..] == spaces + rest && Spaces(spaces) && rest != [] && !Space(rest[0])
    ensures SpaceCount(raw[at..]) == |spaces| && at + |spaces| < |raw|
    ensures raw[at + |spaces|..] == rest && raw[at + |spaces|] == rest[0]
  {
    Suffix(raw, at, spaces, rest);
    SkipsSpaces(spaces, rest);
  }

  // ----- the scan so far, of a document laid out ---------------------------------------------------------

  ghost predicate AllStarted(open: seq<Open>) {
    forall i | 0 <= i < |open| :: open[i].started
  }

  /** A value is to be read: the bytes left, the containers open, and the marks made and to make. */
  ghost predicate AtValue(
    raw: Bytes, at: nat, decode: Decoder, all: seq<Mark>, done: seq<Mark>,
    spaces: Bytes, v: Layout, path: seq<string>, open: seq<Open>, trail: Bytes)
  {
    && at <= |raw| && Spaces(spaces) && Spaces(trail) && Proper(v, decode) && AllProper(open, decode)
      && AllStarted(open)
    && raw[at..] == spaces + Written(v) + Left(open, trail)
    && all == done + Marks(v, decode, path, at + |spaces|) + MarksLeft(open, decode, at + |spaces| + |Written(v)|)
  }

  /** A value has just been read, or a container closed. */
  ghost predicate BetweenValues(
    raw: Bytes, at: nat, decode: Decoder, all: seq<Mark>, done: seq<Mark>, open: seq<Open>, trail: Bytes)
  {
    && at <= |raw| && Spaces(trail) && AllProper(open, decode) && (open != [] ==> AllStarted(open[..|open| - 1]))
    && raw[at..] == Left(open, trail)
    && all == done + MarksLeft(open, decode, at)
  }

  lemma SkipsToValue(
    raw: Bytes, at: nat, decode: Decoder, all: seq<Mark>, done: seq<Mark>,
    spaces: Bytes, v: Layout, path: seq<string>, open: seq<Open>, trail: Bytes)
    requires AtValue(raw, at, decode, all, done, spaces, v, path, open, trail)
    ensures SpaceCount(raw[at..]) == |spaces| && at + |spaces| < |raw|
    ensures AtValue(raw, at + |spaces|, decode, all, done, [], v, path, open, trail)
    ensures raw[at + |spaces|] == Written(v)[0]
  {
    hide Left, MarksLeft, Marks, Proper, AllProper;
    FirstByte(v, decode);
    hide Written;
    var rest := Written(v) + Left(open, trail);
    Joins(spaces, Written(v), Left(open, trail));
    SkipsSpaces(spaces, rest);
    Within(spaces, rest);
    assert raw[at..][|spaces|..] == raw[at + |spaces|..];
    assert [] + Written(v) + Left(open, trail) == rest;
  }

  /** A value that is no container is read whole. */
  lemma ReadsValue(
    raw: Bytes, at: nat, decode: Decoder, all: seq<Mark>, done: seq<Mark>, v: Layout, path: seq<string>,
      open: seq<Open>, trail: Bytes)
    requires AtValue(raw, at, decode, all, done, [], v, path, open, trail) && (v.Scalar? || v.Quoted?)
    ensures at + |v.text| <= |raw| && raw[at..at + |v.text|] == v.text
    ensures BetweenValues(raw, at + |v.text|, decode, all, done + [Mark(path, at, false)], open, trail)
    ensures v.Scalar? ==> ScalarCount(raw[at..]) == |v.text|
    ensures v.Quoted? ==>
      at < |raw| && var body := raw[at + 1..]; QuoteAt(body) == |v.text| - 2 < |body| && decode(v.text).Some?
  {
    hide Left, MarksLeft, AllProper;
    var left := Left(open, trail);
    assert raw[at..] == v.text + left;
    assert raw[at..][|v.text|..] == raw[at + |v.text|..] && raw[at..][..|v.text|] == raw[at..at + |v.text|];
    assert Marks(v, decode, path, at) == [Mark(path, at, false)] + [] == [Mark(path, at, false)];
    if v.Scalar? {
      LeftDelimits(open, trail, decode);
      SkipsScalar(v.text, left);
    } else {
      assert raw[at + 1..] == v.text[1..] + left;
      QuoteBefore(v.text[1..], left);
    }
  }

  lemma LeftDelimits(open: seq<Open>, trail: Bytes, decode: Decoder)
    requires AllProper(open, decode) && Spaces(trail) && AllStarted(open)
    ensures Left(open, trail) != [] ==> Delimits(Left(open, trail)[0])
  {
  }

  /** A container is opened. */
  lemma OpensValue(
    raw: Bytes, at: nat, decode: Decoder, all: seq<Mark>, done: seq<Mark>, v: Layout, path: seq<string>,
      open: seq<Open>, trail: Bytes)
    requires AtValue(raw, at, decode, all, done, [], v, path, open, trail) && (v.Listed? || v.Braced?)
    ensures at + 1 <= |raw|
    ensures BetweenValues(raw, at + 1, decode, all, done + [Mark(path, at, false)], open + [Opened(v, path)], trail)
  {
    hide Left, MarksLeft, Marks, Proper, Written, ProperOpen, LeftIn, MarksIn, Opened;
    var o := Opened(v, path);
    OpenedLeaves(v, path, decode, at);
    PutFront(open, o, trail);
    MarksFront(open, o, decode, at + 1);
    var left := Left(open, trail);
    OpensText(raw, at, [if v.Listed? then OPEN_LIST else OPEN_BRACE], LeftIn(o), left);
    OpensMarks(all, done, Mark(path, at, false), MarksIn(o, decode, at + 1),
      MarksLeft(open, decode, at + |Written(v)|));
    assert (open + [o])[..|open|] == open;
  }

  lemma OpensText(raw: Bytes, at: nat, first: Bytes, inside: Bytes, left: Bytes)
    requires at <= |raw| && |first| == 1 && raw[at..] == [] + (first + inside) + left
    ensures at + 1 <= |raw| && raw[at + 1..] == inside + left
  {
    assert [] + (first + inside) + left == first + (inside + left);
    Suffix(raw, at, first, inside + left);
  }

  lemma OpensMarks(all: seq<Mark>, done: seq<Mark>, m: Mark, inside: seq<Mark>, left: seq<Mark>)
    requires all == done + ([m] + inside) + left
    ensures all == done + [m] + (inside + left)
  {
  }

  /** The innermost container is ended. */
  lemma ClosesOne(
    raw: Bytes, at: nat, decode: Decoder, all: seq<Mark>, done: seq<Mark>, open: seq<Open>, trail: Bytes)
    requires BetweenValues(raw, at, decode, all, done, open, trail) && open != [] && Ended(open[|open| - 1])
    ensures var o := open[|open| - 1];
      && SpaceCount(raw[at..]) == |o.tail| && at + |o.tail| < |raw| && raw[at + |o.tail|] == Closer(o)
      && BetweenValues(raw, at + |o.tail| + 1, decode, all, done, open[..|open| - 1], trail)
  {
    hide Left, MarksLeft, ProperOpen;
    var front, o := open[..|open| - 1], open[|open| - 1];
    assert open == front + [o];
    Closes(front, o, trail, decode, at);
    assert raw[at..][|o.tail| + 1..] == raw[at + |o.tail| + 1..];
    if front != [] { assert AllStarted(front[..|front| - 1]); }
  }

  /** The next element of the innermost array is begun: after what followed the last and a comma, or directly. */
  lemma BeginsNextItem(
    raw: Bytes, at: nat, decode: Decoder, all: seq<Mark>, done: seq<Mark>, open: seq<Open>, trail: Bytes)
    requires BetweenValues(raw, at, decode, all, done, open, trail) && open != []
    requires open[|open| - 1].InList? && !Ended(open[|open| - 1])
    ensures var o := open[|open| - 1];
      var e, next := o.items[0], open[..|open| - 1] + [NextItem(o)];
      && SpaceCount(raw[at..]) == (if o.started then |o.tail| else |e.before|)
      && at + SpaceCount(raw[at..]) < |raw|
      && raw[at + SpaceCount(raw[at..])] == (if o.started then COMMA else Written(e.value)[0])
      && Written(e.value) != [] && Written(e.value)[0] != CLOSE_LIST
      && (o.started ==> AtValue(raw, at + |o.tail| + 1, decode, all, done, e.before, e.value, ItemPath(o), next, trail))
      && (!o.started ==> AtValue(raw, at + |e.before|, decode, all, done, [], e.value, ItemPath(o), next, trail))
  {
    hide Left, MarksLeft, Marks, Proper, Written, ProperOpen, AllProper, AllStarted, ItemPath;
    var front, o := open[..|open| - 1], open[|open| - 1];
    var e, next := o.items[0], open[..|open| - 1] + [NextItem(o)];
    assert open == front + [o];
    LastIsProper(open, decode);
    BeginsItem(front, o, trail, decode, at);
    FirstByte(e.value, decode);
    NextAreProper(front, o, NextItem(o), decode);
    LastSpaces(o, decode);
    var left := Left(next, trail);
    var rest := Written(e.value) + left;
    if o.started {
      ItemAfterComma(raw, at, o.tail, e.before, Written(e.value), left);
    } else {
      NoLead(e.before, Written(e.value), left);
      Spaced(raw, at, e.before, rest);
      assert [] + Written(e.value) + left == rest;
    }
  }

  lemma LastIsProper(open: seq<Open>, decode: Decoder)
    requires AllProper(open, decode) && open != []
    ensures ProperOpen(open[|open| - 1], decode)
  {
  }

  lemma LastSpaces(o: Open, decode: Decoder)
    requires ProperOpen(o, decode)
    ensures Spaces(o.tail)
  {
  }

  lemma NoLead(before: Bytes, text: Bytes, left: Bytes)
    ensures [] + before + text + left == before + (text + left)
  {
  }

  lemma ItemAfterComma(raw: Bytes, at: nat, tail: Bytes, before: Bytes, text: Bytes, left: Bytes)
    requires at <= |raw| && Spaces(tail) && raw[at..] == tail + [COMMA] + before + text + left
    ensures SpaceCount(raw[at..]) == |tail| && at + |tail| < |raw| && raw[at + |tail|] == COMMA
    ensures raw[at + |tail| + 1..] == before + text + left
  {
    var rest := before + text + left;
    assert tail + [COMMA] + before + text + left == tail + ([COMMA] + rest);
    Spaced(raw, at, tail, [COMMA] + rest);
    Suffix(raw, at + |tail|, [COMMA], rest);
  }

  lemma NextAreProper(front: seq<Open>, o: Open, next: Open, decode: Decoder)
    requires AllProper(front + [o], decode) && ProperOpen(next, decode) && AllStarted(front) && next.started
    ensures AllProper(front + [next], decode) && AllStarted(front + [next])
  {
    hide ProperOpen;
    forall i | 0 <= i < |front| ensures ProperOpen(front[i], decode) {
      assert (front + [o])[i] == front[i];
    }
  }

  /**
   The next member of the innermost object is begun: its name, after what followed the last and a
   comma, or directly.
   */
  lemma BeginsNextMember(
    raw: Bytes, at: nat, decode: Decoder, all: seq<Mark>, done: seq<Mark>, open: seq<Open>, trail: Bytes)
    requires BetweenValues(raw, at, decode, all, done, open, trail) && open != []
    requires open[|open| - 1].InBraces? && !Ended(open[|open| - 1])
    ensures var o := open[|open| - 1];
      var m, next := o.members[0], open[..|open| - 1] + [NextMember(o)];
      && ProperHead(m, decode)
      && (o.started ==> SpaceCount(raw[at..]) == |o.tail| && at + |o.tail| < |raw| && raw[at + |o.tail|] == COMMA)
      && at + |ItemLead(o)| <= |raw|
      && SpaceCount(raw[at + |ItemLead(o)|..]) == |m.before|
      && (var name := at + |ItemLead(o)| + |m.before|;
          && name < |raw| && AtName(raw, name, decode, all, done, m, o.path + [NameOf(m, decode)], next, trail))
  {
    hide Left, MarksLeft, Marks, Proper, Written, ProperOpen, AllProper, AllStarted, ProperHead, Head, AfterBefore,
      AtName, NextMember,
      NameOf, BetweenValues, ItemLead, SpaceCount, Spaces;
    var front, o := open[..|open| - 1], open[|open| - 1];
    var m, next := o.members[0], open[..|open| - 1] + [NextMember(o)];
    MemberFacts(raw, at, decode, all, done, open, trail);
    MemberPositions(raw, at, o, m, Written(m.value), Left(next, trail), decode);
    NameStands(raw, at + |ItemLead(o)| + |m.before|, decode, all, done, m, o.path + [NameOf(m, decode)], next, trail);
  }

  lemma MemberFacts(
    raw: Bytes, at: nat, decode: Decoder, all: seq<Mark>, done: seq<Mark>, open: seq<Open>, trail: Bytes)
    requires BetweenValues(raw, at, decode, all, done, open, trail) && open != []
    requires open[|open| - 1].InBraces? && !Ended(open[|open| - 1])
    ensures var o := open[|open| - 1];
      var m, next, lead := o.members[0], open[..|open| - 1] + [NextMember(o)], ItemLead(o);
      var child := o.path + [NameOf(m, decode)];
      && at <= |raw| && Spaces(trail) && Spaces(o.tail)
      && ProperHead(m, decode) && Proper(m.value, decode) && AllProper(next, decode) && AllStarted(next)
      && |Head(m)| == |m.before| + |AfterBefore(m)|
      && raw[at..] == lead + Head(m) + Written(m.value) + Left(next, trail)
      && all == done + ([Mark(child, at + |lead| + |m.before|, true)]
           + Marks(m.value, decode, child, at + |lead| + |m.before| + |AfterBefore(m)|)
           + MarksLeft(next, decode, at + |lead| + |m.before| + |AfterBefore(m)| + |Written(m.value)|))
  {
    hide Left, MarksLeft, Marks, Proper, Written, ProperOpen, AllProper, AllStarted, ProperHead, Head, AfterBefore,
      NextMember, NameOf;
    var front, o := open[..|open| - 1], open[|open| - 1];
    assert open == front + [o];
    LastIsProper(open, decode);
    BeginsMember(front, o, trail, decode, at);
    NextStarted(o);
    NextAreProper(front, o, NextMember(o), decode);
    LastSpaces(o, decode);
    HeadSplits(o.members[0]);
  }

  lemma MemberPositions(raw: Bytes, at: nat, o: Open, m: Member, text: Bytes, left: Bytes, decode: Decoder)
    requires at <= |raw| && Spaces(o.tail) && ProperHead(m, decode) && raw[at..] == ItemLead(o) + Head(m) + text + left
    ensures o.started ==> SpaceCount(raw[at..]) == |o.tail| && at + |o.tail| < |raw| && raw[at + |o.tail|] == COMMA
    ensures at + |ItemLead(o)| <= |raw| && SpaceCount(raw[at + |ItemLead(o)|..]) == |m.before|
    ensures var name := at + |ItemLead(o)| + |m.before|; name < |raw| && raw[name..] == AfterBefore(m) + (text + left)
  {
    hide ProperHead, Head, AfterBefore, ItemLead, SpaceCount, Space, Spaces;
    HeadSplits(m);
    NameFirst(m, decode);
    QuoteIsNoSpace();
    var lead, name := ItemLead(o), AfterBefore(m);
    MemberAfterLead(raw, at, lead, m.before, name, text, left);
    LeadIs(o);
    if o.started { LeadBegins(raw, at, o.tail, raw[at + |lead|..]); }
    assert (name + (text + left))[0] == name[0];
    Spaced(raw, at + |lead|, m.before, name + (text + left));
  }

  lemma QuoteIsNoSpace()
    ensures !Space(QUOTE)
  {
  }

  lemma LeadIs(o: Open)
    ensures o.started ==> ItemLead(o) == o.tail + [COMMA]
  {
  }

  lemma NextStarted(o: Open)
    requires o.InBraces? && !Ended(o)
    ensures NextMember(o).started
  {
  }

  lemma NameStands(
    raw: Bytes, at: nat, decode: Decoder, all: seq<Mark>, done: seq<Mark>,
    m: Member, child: seq<string>, open: seq<Open>, trail: Bytes)
    requires at <= |raw| && ProperHead(m, decode) && Proper(m.value, decode) && Spaces(trail) && AllProper(open, decode)
    requires AllStarted(open)
    requires raw[at..] == AfterBefore(m) + (Written(m.value) + Left(open, trail))
    requires all == done + ([Mark(child, at, true)] + Marks(m.value, decode, child, at + |AfterBefore(m)|)
      + MarksLeft(open, decode, at + |AfterBefore(m)| + |Written(m.value)|))
    ensures AtName(raw, at, decode, all, done, m, child, open, trail)
  {
  }

  lemma NameFirst(m: Member, decode: Decoder)
    requires ProperHead(m, decode)
    ensures Spaces(m.before) && AfterBefore(m) != [] && AfterBefore(m)[0] == QUOTE
  {
  }

  lemma LeadBegins(raw: Bytes, at: nat, tail: Bytes, rest: Bytes)
    requires at <= |raw| && Spaces(tail) && raw[at..] == tail + [COMMA] + rest
    ensures SpaceCount(raw[at..]) == |tail| && at + |tail| < |raw| && raw[at + |tail|] == COMMA
  {
    assert tail + [COMMA] + rest == tail + ([COMMA] + rest);
    Spaced(raw, at, tail, [COMMA] + rest);
  }

  lemma MemberAfterLead(raw: Bytes, at: nat, lead: Bytes, before: Bytes, name: Bytes, value: Bytes, left: Bytes)
    requires at <= |raw| && raw[at..] == lead + (before + name) + value + left
    ensures at + |lead| <= |raw| && raw[at + |lead|..] == before + (name + (value + left))
    ensures raw[at..] == lead + raw[at + |lead|..]
  {
    var rest := before + (name + (value + left));
    assert lead + (before + name) + value + left == lead + rest;
    Suffix(raw, at, lead, rest);
  }

  /** A member's head after the whitespace before its name. */
  function AfterBefore(m: Member): Bytes {
    m.name + m.beforeColon + [COLON] + m.afterColon
  }

  lemma HeadSplits(m: Member)
    ensures Head(m) == m.before + AfterBefore(m)
  {
  }

  /** A member's name is to be read, and then its value. */
  ghost predicate AtName(
    raw: Bytes, at: nat, decode: Decoder, all: seq<Mark>, done: seq<Mark>,
    m: Member, child: seq<string>, open: seq<Open>, trail: Bytes)
  {
    && at <= |raw| && ProperHead(m, decode) && Proper(m.value, decode) && Spaces(trail) && AllProper(open, decode)
      && AllStarted(open)
    && raw[at..] == AfterBefore(m) + (Written(m.value) + Left(open, trail))
    && all == done + ([Mark(child, at, true)] + Marks(m.value, decode, child, at + |AfterBefore(m)|)
         + MarksLeft(open, decode, at + |AfterBefore(m)| + |Written(m.value)|))
  }

  /** The name is read, and the colon after it. */
  lemma ReadsName(
    raw: Bytes, at: nat, decode: Decoder, all: seq<Mark>, done: seq<Mark>,
    m: Member, child: seq<string>, open: seq<Open>, trail: Bytes)
    requires AtName(raw, at, decode, all, done, m, child, open, trail)
    ensures at < |raw| && raw[at] == QUOTE && decode(m.name).Some?
    ensures var body := raw[at + 1..]; QuoteAt(body) == |m.name| - 2 < |body|
    ensures at + |m.name| <= |raw| && raw[at..at + |m.name|] == m.name
    ensures SpaceCount(raw[at + |m.name|..]) == |m.beforeColon|
    ensures var colon := at + |m.name| + |m.beforeColon|;
      && colon < |raw| && raw[colon] == COLON
      && AtValue(raw, colon + 1, decode, all, done + [Mark(child, at, true)], m.afterColon, m.value, child, open, trail)
  {
    hide Left, MarksLeft, Marks, Proper, Written, AllProper, AllStarted;
    var left := Left(open, trail);
    NameText(raw, at, m, Written(m.value), left, decode);
    NameMarks(all, done, Mark(child, at, true), Marks(m.value, decode, child, at + |AfterBefore(m)|),
      MarksLeft(open, decode, at + |AfterBefore(m)| + |Written(m.value)|));
  }

  lemma NameMarks(all: seq<Mark>, done: seq<Mark>, m: Mark, value: seq<Mark>, left: seq<Mark>)
    requires all == done + ([m] + value + left)
    ensures all == done + [m] + value + left
  {
  }

  lemma NameText(raw: Bytes, at: nat, m: Member, text: Bytes, left: Bytes, decode: Decoder)
    requires at <= |raw| && ProperHead(m, decode) && raw[at..] == AfterBefore(m) + (text + left)
    ensures at < |raw| && raw[at] == QUOTE
    ensures var body := raw[at + 1..]; QuoteAt(body) == |m.name| - 2 < |body|
    ensures at + |m.name| <= |raw| && raw[at..at + |m.name|] == m.name
    ensures SpaceCount(raw[at + |m.name|..]) == |m.beforeColon|
    ensures var colon := at + |m.name| + |m.beforeColon|;
      colon < |raw| && raw[colon] == COLON && raw[colon + 1..] == m.afterColon + text + left
    ensures |AfterBefore(m)| == |m.name| + |m.beforeColon| + 1 + |m.afterColon|
  {
    hide QuoteAt;
    var value := m.afterColon + text + left;
    var afterName := m.beforeColon + ([COLON] + value);
    NameRegroups(m, text, left);
    Suffix(raw, at, m.name, afterName);
    QuoteBefore(m.name[1..], afterName);
    Spaced(raw, at + |m.name|, m.beforeColon, [COLON] + value);
    Suffix(raw, at + |m.name| + |m.beforeColon|, [COLON], value);
  }

  lemma NameRegroups(m: Member, text: Bytes, left: Bytes)
    ensures AfterBefore(m) + (text + left) == m.name + (m.beforeColon + ([COLON] + (m.afterColon + text + left)))
  {
  }

  // ----- pointers ---------------------------------------------------------------------------------------------

  lemma {:induction false} PlainToken(s: string, c: char, with: string)
    requires c !in s
    ensures ReplaceChar(s, c, with) == s
  {
    if s != "" {
      PlainToken(s[1..], c, with);
      assert s == [s[0]] + s[1..];
    }
  }

  lemma {:induction false} IndexIsDigits(n: nat)
    ensures '~' !in IndexText(n) && '/' !in IndexText(n)
  {
    if n >= 10 { IndexIsDigits(n / 10); }
  }

  /** An element's pointer is its array's and its index. */
  lemma ElementPointer(path: seq<string>, index: nat)
    ensures Text(path + [IndexText(index)]) == Text(path) + "/" + IndexText(index)
  {
    var all := path + [IndexText(index)];
    IndexIsDigits(index);
    PlainToken(IndexText(index), '~', "~0");
    PlainToken(IndexText(index), '/', "~1");
    assert all[..|path|] == path && all[|path|] == IndexText(index);
  }

  lemma MemberPointer(path: seq<string>, name: string)
    ensures Text(path + [name]) == Child(Text(path), name)
  {
    assert (path + [name])[..|path|] == path;
  }

  // ----- the scan ------------------------------------------------------------------------------------------------

  /** What holds of a laid-out document when a value is to be read. */
  ghost predicate ReadyForValue(
    raw: Bytes, at: nat, decode: Decoder, all: seq<Mark>, done: seq<Mark>, v: Layout, path: seq<string>,
      open: seq<Open>, trail: Bytes,
    spaces: Bytes, pointer: string, stack: seq<Frame>, spans: Spans)
  {
    && AtValue(raw, at, decode, all, done, spaces, v, path, open, trail)
    && pointer == Text(path) && AllStand(stack, open) && spans == Recorded(raw, done)
  }

  ghost predicate ReadyBetween(
    raw: Bytes, at: nat, decode: Decoder, all: seq<Mark>, done: seq<Mark>, open: seq<Open>, trail: Bytes,
      stack: seq<Frame>, spans: Spans)
  {
    BetweenValues(raw, at, decode, all, done, open, trail) && AllStand(stack, open) && spans == Recorded(raw, done)
  }

  lemma LastStands(stack: seq<Frame>, open: seq<Open>)
    requires AllStand(stack, open)
    ensures |stack| == |open| && (open != [] ==> Stands(stack[|stack| - 1], open[|open| - 1]))
    ensures open != [] ==> AllStand(stack[..|stack| - 1], open[..|open| - 1])
  {
  }

  lemma NextStands(stack: seq<Frame>, open: seq<Open>, frame: Frame, o: Open)
    requires AllStand(stack, open) && open != [] && Stands(frame, o)
    ensures AllStand(stack[|stack| - 1 := frame], open[..|open| - 1] + [o])
  {
  }

  lemma OpenedStands(stack: seq<Frame>, open: seq<Open>, frame: Frame, o: Open)
    requires AllStand(stack, open) && Stands(frame, o)
    ensures AllStand(stack + [frame], open + [o])
  {
  }

  lemma BytesDiffer()
    ensures OPEN_BRACE != OPEN_LIST && OPEN_BRACE != QUOTE && OPEN_LIST != QUOTE
  {
  }

  /** The frame of a container just opened. */
  function Begun(v: Layout, pointer: string): Frame {
    if v.Braced? then ObjectFrame(pointer, false) else ArrayFrame(pointer, 0, false)
  }

  /** What the value that begins here is, and where it leaves the scan. */
  lemma ValueAhead(
    raw: Bytes, at: nat, decode: Decoder, all: seq<Mark>, done: seq<Mark>, v: Layout, path: seq<string>,
      open: seq<Open>, trail: Bytes,
    spaces: Bytes, pointer: string, stack: seq<Frame>, spans: Spans)
    requires ReadyForValue(raw, at, decode, all, done, v, path, open, trail, spaces, pointer, stack, spans)
    requires spaces == []
    ensures at < |raw| && (v.Listed? <==> raw[at] == OPEN_LIST) && (v.Braced? <==> raw[at] == OPEN_BRACE)
    ensures v.Quoted? <==> raw[at] == QUOTE
    ensures var more := done + [Mark(path, at, false)];
      match v
      case Scalar(_) =>
        at + ScalarCount(raw[at..]) <= |raw| && ScalarCount(raw[at..]) > 0
        && ReadyBetween(raw, at + ScalarCount(raw[at..]), decode, all, more, open, trail, stack, Recorded(raw, more))
      case Quoted(text) =>
        var n := QuoteAt(raw[at + 1..]);
        n < |raw[at + 1..]| && at + n + 2 <= |raw| && decode(raw[at..at + n + 2]).Some?
        && ReadyBetween(raw, at + n + 2, decode, all, more, open, trail, stack, Recorded(raw, more))
      case _ =>
        ReadyBetween(raw, at + 1, decode, all, more, open + [Opened(v, path)], trail,
          stack + [Begun(v, pointer)],
            Recorded(raw, more))
  {
    hide AtValue, Proper, Written, BetweenValues, AllStand, Recorded, QuoteAt, ScalarCount, Text;
    SkipsToValue(raw, at, decode, all, done, spaces, v, path, open, trail);
    ValueIsProper(raw, at, decode, all, done, spaces, v, path, open, trail);
    FirstByte(v, decode);
    if v.Listed? || v.Braced? {
      OpensValue(raw, at, decode, all, done, v, path, open, trail);
      OpenedIs(v, path);
      OpenedStands(stack, open, if v.Braced? then ObjectFrame(pointer, false)
        else ArrayFrame(pointer, 0, false), Opened(v, path));
    } else {
      ReadsValue(raw, at, decode, all, done, v, path, open, trail);
      if v.Scalar? { TextIsSome(v, decode); }
    }
  }

  lemma ValueIsProper(
    raw: Bytes, at: nat, decode: Decoder, all: seq<Mark>, done: seq<Mark>,
    spaces: Bytes, v: Layout, path: seq<string>, open: seq<Open>, trail: Bytes)
    requires AtValue(raw, at, decode, all, done, spaces, v, path, open, trail)
    ensures Proper(v, decode)
  {
  }

  lemma OpenedIs(v: Layout, path: seq<string>)
    requires v.Listed? || v.Braced?
    ensures Stands(if v.Braced? then ObjectFrame(Text(path), false)
      else ArrayFrame(Text(path), 0, false), Opened(v, path))
  {
    hide Text;
  }

  lemma TextIsSome(v: Layout, decode: Decoder)
    requires v.Scalar? && Proper(v, decode)
    ensures v.text != []
  {
  }

  /** What a container or a string begins with. */
  predicate Opens(b: Byte) {
    b == OPEN_BRACE || b == OPEN_LIST || b == QUOTE
  }

  /** The first byte that is no whitespace begins neither a container nor a string. */
  predicate Unopened(raw: Bytes) {
    SpaceCount(raw) < |raw| && !Opens(raw[SpaceCount(raw)])
  }

  lemma {:induction false} SpacesEnd(raw: Bytes)
    requires SpaceCount(raw) < |raw|
    ensures SpaceCount(raw[SpaceCount(raw)..]) == 0
  {
    if Space(raw[0]) {
      SpacesEnd(raw[1..]);
      assert raw[SpaceCount(raw)..] == raw[1..][SpaceCount(raw[1..])..];
    } else {
      assert raw[0..] == raw;
    }
  }

  /** Read the value that begins here: its first byte if it is a container, and otherwise the whole of it. */
  method ReadValue(s: Scanner, decode: Decoder, pointer: string, stack: seq<Frame>,
    ghost laid: bool, ghost all: seq<Mark>, ghost done: seq<Mark>, ghost v: Layout, ghost path: seq<string>,
      ghost open: seq<Open>,
    ghost trail: Bytes, ghost spans: Spans)
    returns (ok: bool, later: seq<Frame>, ghost within: seq<Open>)
    requires s.Valid()
    requires laid ==> ReadyForValue(s.raw, s.at, decode, all, done, v, path, open, trail, [], pointer, stack, spans)
    modifies s
    ensures s.Valid() && old(s.at) <= s.at
    ensures ok && s.at == old(s.at) ==> later == stack && s.at < |s.raw|
    ensures old(s.at) < |s.raw| && !Opens(s.raw[old(s.at)]) ==> later == stack
    ensures laid ==>
      ok && old(s.at) < s.at
        && ReadyBetween(s.raw, s.at, decode, all, done + [Mark(path, old(s.at), false)], within, trail,
      later, Recorded(s.raw, done + [Mark(path, old(s.at), false)]))
  {
    ok, later, within := true, stack, open;
    hide ReadyForValue, ReadyBetween, Recorded, ScalarCount, QuoteAt, Opened, LocationAt;
    BytesDiffer();
    if laid { ValueAhead(s.raw, s.at, decode, all, done, v, path, open, trail, [], pointer, stack, spans); }
    if s.at == |s.raw| { return false, later, within; }
    var byte := s.raw[s.at];
    if byte == OPEN_BRACE || byte == OPEN_LIST {
      s.Bump();
      var frame := if byte == OPEN_BRACE then ObjectFrame(pointer, false) else ArrayFrame(pointer, 0, false);
      later := stack + [frame];
      if laid { within := open + [Opened(v, path)]; }
    } else if byte == QUOTE {
      var text := s.ReadString(decode);
      ok := text.Some?;
    } else {
      s.ReadScalar();
    }
  }

  /** Where the next value of a laid-out document begins. */
  datatype Ahead = Ahead(done: seq<Mark>, v: Layout, path: seq<string>, open: seq<Open>, spaces: Bytes)

  ghost predicate ReadyAhead(
    raw: Bytes, at: nat, decode: Decoder, all: seq<Mark>, trail: Bytes, a: Ahead, pointer: string, stack: seq<Frame>,
      spans: Spans)
  {
    ReadyForValue(raw, at, decode, all, a.done, a.v, a.path, a.open, trail, a.spaces, pointer, stack, spans)
  }

  /** Read a member's name, and the colon after it. */
  method ReadName(s: Scanner, decode: Decoder, parent: string, spans: Spans,
    ghost laid: bool, ghost all: seq<Mark>, ghost done: seq<Mark>, ghost m: Member, ghost path: seq<string>,
      ghost open: seq<Open>,
    ghost trail: Bytes)
    returns (ok: bool, pointer: string, later: Spans)
    requires s.Valid() && InBounds(s.raw, spans)
    requires laid ==> AtName(s.raw, s.at, decode, all, done, m, path + [NameOf(m, decode)], open, trail)
    requires laid ==> parent == Text(path) && spans == Recorded(s.raw, done)
    modifies s
    ensures s.Valid() && old(s.at) <= s.at && InBounds(s.raw, later)
    ensures ok ==> old(s.at) < s.at
    ensures laid ==> ok && pointer == Text(path + [NameOf(m, decode)])
    ensures laid ==> later == Recorded(s.raw, done + [Mark(path + [NameOf(m, decode)], old(s.at), true)])
    ensures laid ==>
      AtValue(s.raw, s.at, decode, all, done + [Mark(path + [NameOf(m, decode)], old(s.at), true)], m.afterColon,
        m.value,
           path + [NameOf(m, decode)], open, trail)
  {
    hide AtValue, AtName, Recorded, InBounds, QuoteAt, SpaceCount, Text, Child, NameOf, LocationAt;
    ok, pointer, later := false, "", spans;
    DecodedName(m, decode);
    if laid { ReadsName(s.raw, s.at, decode, all, done, m, path + [NameOf(m, decode)], open, trail); }
    if s.at == |s.raw| || s.raw[s.at] != QUOTE { return; }
    var nameAt := s.here;
    ghost var start := s.at;
    var name := s.ReadString(decode);
    if name.None? { return; }
    pointer := Child(parent, name.value);
    later := spans.(keys := spans.keys[pointer := nameAt]);
    KeyInBounds(s.raw, spans, pointer, start);
    if laid {
      MemberPointer(path, name.value);
      RecordedOneMore(s.raw, done, Mark(path + [NameOf(m, decode)], start, true));
    }
    s.Whitespace();
    if s.at == |s.raw| || s.raw[s.at] != COLON { return; }
    s.Bump();
    ok := true;
  }

  lemma DecodedName(m: Member, decode: Decoder)
    ensures decode(m.name).Some? ==> decode(m.name).value == NameOf(m, decode)
  {
  }

  lemma KeyInBounds(raw: Bytes, spans: Spans, pointer: string, at: nat)
    requires InBounds(raw, spans) && at <= |raw|
    ensures InBounds(raw, spans.(keys := spans.keys[pointer := LocationAt(raw, at)]))
  {
    assert Somewhere(raw, LocationAt(raw, at));
  }

  lemma ValueInBounds(raw: Bytes, spans: Spans, pointer: string, at: nat)
    requires InBounds(raw, spans) && at <= |raw|
    ensures InBounds(raw, spans.(values := spans.values[pointer := LocationAt(raw, at)]))
  {
    assert Somewhere(raw, LocationAt(raw, at));
  }

  /** What the innermost container says of the bytes ahead. */
  lemma LooksAhead(
    raw: Bytes, at: nat, decode: Decoder, all: seq<Mark>, done: seq<Mark>, open: seq<Open>, trail: Bytes)
    requires BetweenValues(raw, at, decode, all, done, open, trail) && open != []
    ensures var o, skipped := open[|open| - 1], at + SpaceCount(raw[at..]);
      && skipped < |raw|
      && (Ended(o) ==>
            raw[skipped] == Closer(o)
            && BetweenValues(raw, skipped + 1, decode, all, done, open[..|open| - 1], trail))
      && (!Ended(o) ==> raw[skipped] != Closer(o))
      && (!Ended(o) && o.started ==> raw[skipped] == COMMA)
      && (!Ended(o) && !o.started && o.InBraces? ==> raw[skipped] == QUOTE)
  {
    hide BetweenValues, Left, MarksLeft, Marks, Proper, Written, AtValue, AllProper, AllStarted;
    var o := open[|open| - 1];
    if Ended(o) {
      ClosesOne(raw, at, decode, all, done, open, trail);
    } else if o.InList? {
      BeginsNextItem(raw, at, decode, all, done, open, trail);
    } else {
      BeginsNextMember(raw, at, decode, all, done, open, trail);
      var next := open[..|open| - 1] + [NextMember(o)];
      var name := at + |ItemLead(o)| + |o.members[0].before|;
      ReadsName(raw, name, decode, all, done, o.members[0], o.path + [NameOf(o.members[0], decode)], next, trail);
    }
  }

  /**
   The document stands between values at `start`; the scan is past the whitespace there, at a
   container not yet ended.
   */
  ghost predicate AtPart(
    raw: Bytes, at: nat, decode: Decoder, all: seq<Mark>, done: seq<Mark>, open: seq<Open>, trail: Bytes,
    stack: seq<Frame>, spans: Spans, start: nat)
  {
    && ReadyBetween(raw, start, decode, all, done, open, trail, stack, spans) && open != [] && !Ended(open[|open| - 1])
    && at == start + SpaceCount(raw[start..])
  }

  /** What begins the next member: a comma if there was one before, and then its name. */
  lemma MemberAhead(
    raw: Bytes, at: nat, decode: Decoder, all: seq<Mark>, done: seq<Mark>, open: seq<Open>, trail: Bytes,
    stack: seq<Frame>, spans: Spans, start: nat)
    requires AtPart(raw, at, decode, all, done, open, trail, stack, spans, start)
    requires stack != [] && stack[|stack| - 1].ObjectFrame?
    ensures open != [] && at < |raw|
    ensures var o, frame := open[|open| - 1], stack[|stack| - 1];
      && o.InBraces? && !Ended(o) && o.members != [] && frame == ObjectFrame(Text(o.path), o.started)
      && raw[at] == (if o.started then COMMA else QUOTE) && spans == Recorded(raw, done)
      && var next, name := open[..|open| - 1] + [NextMember(o)], if o.started then at + 1 + SpaceCount(raw[at + 1..])
        else at;
        && name <= |raw|
          && AtName(raw, name, decode, all, done, o.members[0], o.path + [NameOf(o.members[0], decode)], next, trail)
        && AllStand(stack[|stack| - 1 := ObjectFrame(frame.pointer, true)], next)
  {
    hide BetweenValues, AtName, Recorded, AllStand, Text, NextMember, NameOf;
    LastStands(stack, open);
    var o := open[|open| - 1];
    LooksAhead(raw, start, decode, all, done, open, trail);
    BeginsNextMember(raw, start, decode, all, done, open, trail);
    NextStarts(o);
    NextStands(stack, open, ObjectFrame(Text(o.path), true), NextMember(o));
    LeadIs(o);
  }

  lemma NextStarts(o: Open)
    requires o.InBraces? && !Ended(o)
    ensures Stands(ObjectFrame(Text(o.path), true), NextMember(o))
  {
    hide Text;
  }

  /** A value is ahead once its pointer and the containers it lies in are as they should be. */
  lemma ThenAhead(
    raw: Bytes, at: nat, decode: Decoder, all: seq<Mark>, trail: Bytes, a: Ahead, pointer: string, stack: seq<Frame>,
      spans: Spans)
    requires AtValue(raw, at, decode, all, a.done, a.spaces, a.v, a.path, a.open, trail)
    requires pointer == Text(a.path) && AllStand(stack, a.open) && spans == Recorded(raw, a.done)
    ensures ReadyAhead(raw, at, decode, all, trail, a, pointer, stack, spans)
  {
    hide AtValue, AllStand, Recorded, Text;
  }

  /** Begin the next member of the innermost object. */
  method BeginMember(s: Scanner, decode: Decoder, frames: seq<Frame>, spans: Spans,
    ghost laid: bool, ghost all: seq<Mark>, ghost done: seq<Mark>, ghost open: seq<Open>, ghost trail: Bytes,
      ghost start: nat)
    returns (ok: bool, pointer: string, stack: seq<Frame>, later: Spans, ghost a: Ahead)
    requires s.Valid() && InBounds(s.raw, spans) && s.at < |s.raw|
    requires frames != [] && frames[|frames| - 1].ObjectFrame?
    requires laid ==> AtPart(s.raw, s.at, decode, all, done, open, trail, frames, spans, start)
    modifies s
    ensures s.Valid() && old(s.at) <= s.at && InBounds(s.raw, later)
    ensures ok ==> old(s.at) < s.at
    ensures laid ==> ok && ReadyAhead(s.raw, s.at, decode, all, trail, a, pointer, stack, later)
  {
    hide *;
    ok, pointer, stack, later := false, "", frames, spans;
    a := Ahead(done, Scalar([]), [], open, []);
    var parent, named := frames[|frames| - 1].pointer, frames[|frames| - 1].named;
    ghost var m, path, next := Member([], [], [], [], Scalar([]), []), [], [];
    if laid {
      MemberAhead(s.raw, s.at, decode, all, done, open, trail, frames, spans, start);
      var o := open[|open| - 1];
      m, path, next := o.members[0], o.path, open[..|open| - 1] + [NextMember(o)];
    }
    var byte := s.raw[s.at];
    CommaIsNoQuote();
    if byte == COMMA {
      s.Bump();
      s.Whitespace();
    } else if byte != QUOTE || named {
      return;
    }
    ghost var name := Mark(path + [NameOf(m, decode)], s.at, true);
    ok, pointer, later := ReadName(s, decode, parent, spans, laid, all, done, m, path, next, trail);
    stack := frames[|frames| - 1 := ObjectFrame(parent, true)];
    if laid {
      a := Ahead(done + [name], m.value, path + [NameOf(m, decode)], next, m.afterColon);
      ThenAhead(s.raw, s.at, decode, all, trail, a, pointer, stack, later);
    }
  }

  lemma CommaIsNoQuote()
    ensures COMMA != QUOTE
  {
  }

  /** What begins the next element: a comma if there was one before, and then its value. */
  lemma ElementAhead(
    raw: Bytes, at: nat, decode: Decoder, all: seq<Mark>, done: seq<Mark>, open: seq<Open>, trail: Bytes,
    stack: seq<Frame>, spans: Spans, start: nat)
    requires AtPart(raw, at, decode, all, done, open, trail, stack, spans, start)
    requires stack != [] && stack[|stack| - 1].ArrayFrame?
    ensures open != [] && at < |raw|
    ensures var o, frame := open[|open| - 1], stack[|stack| - 1];
      && o.InList? && !Ended(o) && o.items != []
      && frame == ArrayFrame(Text(o.path), o.index, o.started) && (o.started ==> raw[at] == COMMA)
      && var e, next, index := o.items[0], open[..|open| - 1] + [NextItem(o)], if o.started then o.index + 1
        else o.index;
        ReadyAhead(raw, if o.started then at + 1 else at, decode, all, trail,
          Ahead(done, e.value, ItemPath(o), next, if o.started then e.before else []),
          Text(o.path) + "/" + IndexText(index), stack[|stack| - 1 := ArrayFrame(frame.pointer, index, true)], spans)
  {
    hide BetweenValues, AtValue, Recorded, AllStand, Written, Text, IndexText;
    LastStands(stack, open);
    var o := open[|open| - 1];
    BeginsNextItem(raw, start, decode, all, done, open, trail);
    var index := if o.started then o.index + 1 else o.index;
    NextStands(stack, open, ArrayFrame(Text(o.path), index, true), NextItem(o));
    ElementPointer(o.path, index);
  }

  /** Begin the next element of the innermost array. */
  method BeginElement(s: Scanner, decode: Decoder, frames: seq<Frame>, spans: Spans,
    ghost laid: bool, ghost all: seq<Mark>, ghost done: seq<Mark>, ghost open: seq<Open>, ghost trail: Bytes,
      ghost start: nat)
    returns (ok: bool, pointer: string, stack: seq<Frame>, ghost a: Ahead)
    requires s.Valid() && s.at < |s.raw|
    requires frames != [] && frames[|frames| - 1].ArrayFrame?
    requires laid ==> AtPart(s.raw, s.at, decode, all, done, open, trail, frames, spans, start)
    modifies s
    ensures s.Valid() && old(s.at) <= s.at
    ensures ok ==> old(s.at) < s.at || Unstarted(stack) < Unstarted(frames)
    ensures laid ==> ok && ReadyAhead(s.raw, s.at, decode, all, trail, a, pointer, stack, spans)
  {
    hide *;
    ok, pointer, stack := false, "", frames;
    a := Ahead(done, Scalar([]), [], open, []);
    var parent, index, started := frames[|frames| - 1].pointer, frames[|frames| - 1].index,
      frames[|frames| - 1].started;
    if laid {
      ElementAhead(s.raw, s.at, decode, all, done, open, trail, frames, spans, start);
      var o := open[|open| - 1];
      a :=
        Ahead(done, o.items[0].value, ItemPath(o), open[..|open| - 1] + [NextItem(o)], if o.started
          then o.items[0].before else []);
    }
    var at := index;
    if s.raw[s.at] == COMMA && started {
      s.Bump();
      at := index + 1;
    } else if started {
      return;
    }
    if !started { StartsLast(frames, ArrayFrame(parent, at, true)); }
    stack := frames[|frames| - 1 := ArrayFrame(parent, at, true)];
    pointer := parent + "/" + IndexText(at);
    ok := true;
  }

  /** Find where the next value begins, closing containers on the way. */
  method FindNext(s: Scanner, decode: Decoder, frames: seq<Frame>, spans: Spans,
    ghost laid: bool, ghost all: seq<Mark>, ghost done: seq<Mark>, ghost open: seq<Open>, ghost trail: Bytes)
    returns (ok: bool, pointer: string, stack: seq<Frame>, later: Spans, ghost a: Ahead)
    requires s.Valid() && InBounds(s.raw, spans)
    requires laid ==> ReadyBetween(s.raw, s.at, decode, all, done, open, trail, frames, spans)
    modifies s
    ensures s.Valid() && old(s.at) <= s.at && InBounds(s.raw, later)
    ensures ok ==> old(s.at) < s.at || Unstarted(stack) < Unstarted(frames)
    ensures laid && ok ==> ReadyAhead(s.raw, s.at, decode, all, trail, a, pointer, stack, later)
    ensures laid && !ok ==> later == Recorded(s.raw, all)
    ensures frames == [] ==> !ok && later == spans
  {
    hide BetweenValues, InBounds, AtValue, Recorded, AllStand, Unstarted, ReadyForValue;
    ok, pointer, stack, later := false, "", frames, spans;
    a := Ahead(done, Scalar([]), [], open, []);
    ghost var within := open;
    while true
      invariant s.Valid() && old(s.at) <= s.at && later == spans && !ok
      invariant s.at == old(s.at) ==> stack == frames
      invariant frames == [] ==> stack == []
      invariant laid ==> ReadyBetween(s.raw, s.at, decode, all, done, within, trail, stack, later)
      decreases |s.raw| - s.at
    {
      ghost var start := s.at;
      if laid {
        LastStands(stack, within);
        if within == [] {
          NothingLeft(s.raw, s.at, decode, all, done, trail);
        } else {
          LooksAhead(s.raw, s.at, decode, all, done, within, trail);
        }
      }
      s.Whitespace();
      if stack == [] || s.at == |s.raw| { return; }
      var frame := stack[|stack| - 1];
      if s.raw[s.at] == (if frame.ObjectFrame? then CLOSE_BRACE else CLOSE_LIST) {
        s.Bump();
        stack := stack[..|stack| - 1];
        if laid { within := within[..|within| - 1]; }
      } else if frame.ObjectFrame? {
        ok, pointer, stack, later, a := BeginMember(s, decode, stack, later, laid, all, done, within, trail, start);
        return;
      } else {
        ok, pointer, stack, a := BeginElement(s, decode, stack, later, laid, all, done, within, trail, start);
        return;
      }
    }
  }

  lemma NothingLeft(raw: Bytes, at: nat, decode: Decoder, all: seq<Mark>, done: seq<Mark>, trail: Bytes)
    requires BetweenValues(raw, at, decode, all, done, [], trail)
    ensures all == done
  {
    assert done + [] == done;
  }

  /** The root alone, where the first byte that is no whitespace stands. */
  function RootAlone(raw: Bytes): Spans {
    Spans(map["" := LocationOf(raw, SpaceCount(raw))], map[])
  }

  /** Where nothing is opened, the scan is still at its first value. */
  ghost predicate Alone(raw: Bytes, at: nat, stack: seq<Frame>, pointer: string, spans: Spans) {
    Unopened(raw) ==> at == SpaceCount(raw) && stack == [] && pointer == "" && spans == Spans(map[], map[])
  }

  lemma BeginsAlone(raw: Bytes, at: nat)
    requires at == SpaceCount(raw[0..])
    ensures Alone(raw, at, [], "", Spans(map[], map[]))
  {
    assert raw[0..] == raw;
  }

  lemma RootIsAlone(raw: Bytes, at: nat, stack: seq<Frame>, pointer: string, spans: Spans)
    requires Alone(raw, at, stack, pointer, spans) && at <= |raw|
    ensures Unopened(raw) ==>
      && SpaceCount(raw[at..]) == 0 && at < |raw| && !Opens(raw[at]) && stack == []
      && spans.(values := spans.values[pointer := LocationAt(raw, at)]) == RootAlone(raw)
  {
    if Unopened(raw) { SpacesEnd(raw); }
  }

  lemma StaysAlone(raw: Bytes, at: nat, stack: seq<Frame>, pointer: string, spans: Spans)
    requires !Unopened(raw)
    ensures Alone(raw, at, stack, pointer, spans)
  {
  }

  /** The pointers of a document's values and member names, and where each begins. */
  method LocateAll(raw: Bytes, decode: Decoder, ghost lead: Bytes, ghost document: Layout, ghost trail: Bytes)
    returns (spans: Spans)
    ensures InBounds(raw, spans)
    ensures raw == lead + Written(document) + trail && Spaces(lead) && Spaces(trail) && Proper(document, decode) ==>
      spans == Recorded(raw, Marks(document, decode, [], |lead|))
    ensures Unopened(raw) ==> spans == RootAlone(raw)
  {
    hide AtValue, BetweenValues, InBounds, Left, MarksLeft, Marks, Proper, Written, AllProper, AllStarted, AllStand,
      Recorded, Spaces, Unstarted, Alone, Unopened, RootAlone, SpaceCount, Opens;
    var s := new Scanner(raw);
    spans := Spans(map[], map[]);
    var pointer, stack: seq<Frame> := "", [];
    ghost var laid := raw == lead + Written(document) + trail && Spaces(lead) && Spaces(trail)
      && Proper(document, decode);
    ghost var all := Marks(document, decode, [], |lead|);
    ghost var a := Ahead([], document, [], [], lead);
    BeginsEmpty(raw, []);
    if laid { BeginsDocument(raw, decode, lead, document, trail); }
    s.Whitespace();
    BeginsAlone(raw, s.at);
    if laid {
      SkipsToValue(raw, 0, decode, all, [], lead, document, [], [], trail);
      a := a.(spaces := []);
    }
    while true
      invariant s.Valid() && s.raw == raw && InBounds(raw, spans)
      invariant laid ==> ReadyAhead(raw, s.at, decode, all, trail, a, pointer, stack, spans)
      invariant Alone(raw, s.at, stack, pointer, spans)
      decreases |raw| - s.at, Unstarted(stack)
    {
      RootIsAlone(raw, s.at, stack, pointer, spans);
      ghost var start := s.at;
      if laid { SkipsToValue(raw, s.at, decode, all, a.done, a.spaces, a.v, a.path, a.open, trail); }
      s.Whitespace();
      ghost var at := s.at;
      ValueInBounds(raw, spans, pointer, at);
      ghost var before := spans;
      spans := spans.(values := spans.values[pointer := s.here]);
      ghost var done := a.done + [Mark(a.path, at, false)];
      RecordedOneMore(raw, a.done, Mark(a.path, at, false));
      ghost var within: seq<Open>;
      var ok, frames: seq<Frame>;
      ok, frames, within := ReadValue(s, decode, pointer, stack, laid, all, a.done, a.v, a.path, a.open, trail, before);
      if !ok { return; }
      var found: bool;
      found, pointer, stack, spans, a := FindNext(s, decode, frames, spans, laid, all, done, within, trail);
      if !found { return; }
      StaysAlone(raw, s.at, stack, pointer, spans);
    }
  }

  lemma BeginsEmpty(raw: Bytes, done: seq<Mark>)
    requires done == []
    ensures InBounds(raw, Spans(map[], map[])) && Recorded(raw, done) == Spans(map[], map[])
  {
  }

  lemma BeginsDocument(raw: Bytes, decode: Decoder, lead: Bytes, document: Layout, trail: Bytes)
    requires raw == lead + Written(document) + trail && Spaces(lead) && Spaces(trail) && Proper(document, decode)
    ensures ReadyForValue(raw, 0, decode, Marks(document, decode, [], |lead|), [], document, [], [], trail, lead, "",
      [],
      Spans(map[], map[]))
  {
    hide *;
    BeginsAtStart(raw, decode, lead, document, trail, 0, [], [], [], []);
  }

  lemma BeginsAtStart(
    raw: Bytes, decode: Decoder, lead: Bytes, document: Layout, trail: Bytes,
    at: nat, done: seq<Mark>, path: seq<string>, open: seq<Open>, stack: seq<Frame>)
    requires raw == lead + Written(document) + trail && Spaces(lead) && Spaces(trail) && Proper(document, decode)
    requires at == 0 && done == [] && path == [] && open == [] && stack == []
    ensures ReadyForValue(raw, at, decode, Marks(document, decode, path, |lead|), done, document, path, open, trail,
      lead, "", stack,
      Spans(map[], map[]))
  {
    hide *;
    BeginsEmpty(raw, done);
    NoneOpen(open, stack, path, trail, decode, at + |lead| + |Written(document)|);
    assert raw[at..] == raw;
    var marks := Marks(document, decode, path, |lead|);
    NothingElse(done, marks, MarksLeft(open, decode, at + |lead| + |Written(document)|));
    ThenReady(raw, at, decode, marks, done, document, path, open, trail, lead, "", stack, Spans(map[], map[]));
  }

  lemma NothingElse(before: seq<Mark>, marks: seq<Mark>, after: seq<Mark>)
    requires before == [] && after == []
    ensures before + marks + after == marks
  {
  }

  lemma ThenReady(
    raw: Bytes, at: nat, decode: Decoder, all: seq<Mark>, done: seq<Mark>, v: Layout, path: seq<string>,
      open: seq<Open>, trail: Bytes,
    spaces: Bytes, pointer: string, stack: seq<Frame>, spans: Spans)
    requires at <= |raw| && Spaces(spaces) && Spaces(trail) && Proper(v, decode) && AllProper(open, decode)
    requires AllStarted(open)
    requires raw[at..] == spaces + Written(v) + Left(open, trail)
    requires all == done + Marks(v, decode, path, at + |spaces|) + MarksLeft(open, decode, at + |spaces| + |Written(v)|)
    requires pointer == Text(path) && AllStand(stack, open) && spans == Recorded(raw, done)
    ensures ReadyForValue(raw, at, decode, all, done, v, path, open, trail, spaces, pointer, stack, spans)
  {
    hide Marks, Written, Proper, AllProper, AllStarted, AllStand, Left, MarksLeft, Recorded, Spaces, Text;
  }

  lemma NoneOpen(open: seq<Open>, stack: seq<Frame>, path: seq<string>, trail: Bytes, decode: Decoder, at: nat)
    requires open == [] && stack == [] && path == []
    ensures AllProper(open, decode) && AllStarted(open) && AllStand(stack, open)
    ensures Left(open, trail) == trail && MarksLeft(open, decode, at) == [] && Text(path) == ""
  {
  }
}
