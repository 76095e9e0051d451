/** JSON documents as laid out in bytes, and where each of their values begins: what the locator has to find. */
module Layouts {
  import opened Json
  import opened Lexical
  import opened Utf8

  type Bytes = seq<Byte>

  // ----- the grammar, with its whitespace ------------------------------------------------------

  /**
   A value as written: a number or a literal, a string with its quotes, or a container with what
   stands before its end.
   */
  datatype Layout =
    | Scalar(text: Bytes)
    | Quoted(text: Bytes)
    | Listed(items: seq<Element>, end: Bytes)
    | Braced(members: seq<Member>, end: Bytes)

  /** An element, and the whitespace around it. */
  datatype Element = Element(before: Bytes, value: Layout, after: Bytes)

  /** A member: its name's literal, and the whitespace around its name and its value. */
  datatype Member = Member(before: Bytes, name: Bytes, beforeColon: Bytes, afterColon: Bytes, value: Layout,
    after: Bytes)

  predicate Space(b: Byte) {
    b == 32 || b == 9 || b == 10 || b == 13
  }

  predicate Spaces(bytes: Bytes) {
    forall i | 0 <= i < |bytes| :: Space(bytes[i])
  }

  const QUOTE: Byte := 34
  const BACKSLASH: Byte := 92
  const COMMA: Byte := 44
  const COLON: Byte := 58
  const OPEN_LIST: Byte := 91
  const CLOSE_LIST: Byte := 93
  const OPEN_BRACE: Byte := 123
  const CLOSE_BRACE: Byte := 125

  /** What ends a number or a literal. */
  predicate Delimits(b: Byte) {
    b == COMMA || b == CLOSE_LIST || b == CLOSE_BRACE || Space(b)
  }

  predicate ScalarText(text: Bytes) {
    && text != [] && text[0] != QUOTE && text[0] != OPEN_LIST && text[0] != OPEN_BRACE
    && forall i | 0 <= i < |text| :: !Delimits(text[i])
  }

  /**
   How much of a string's body, after its opening quote, runs to the quote that ends it; past the
   end if none does.
   */
  function QuoteAt(body: Bytes): (n: nat)
    ensures n <= |body| + 1
    decreases |body|
  {
    if body == [] then 1
    else if body[0] == QUOTE then 0
    else if body[0] == BACKSLASH then (if |body| == 1 then 2 else 2 + QuoteAt(body[2..]))
    else 1 + QuoteAt(body[1..])
  }

  /** A string literal: a quote, and a body that its last byte is the first to end. */
  predicate Literal(text: Bytes) {
    |text| >= 2 && text[0] == QUOTE && QuoteAt(text[1..]) == |text| - 2
  }

  /** Well laid out: whitespace is whitespace, and strings decode. */
  predicate Proper(v: Layout, decode: Bytes -> Option<string>) {
    match v
    case Scalar(text) => ScalarText(text)
    case Quoted(text) => Literal(text) && decode(text).Some?
    case Listed(items, end) =>
      && Spaces(end) && (items != [] ==> end == [])
      && forall i | 0 <= i < |items| ::
        Spaces(items[i].before) && Spaces(items[i].after) && Proper(items[i].value, decode)
    case Braced(members, end) =>
      && Spaces(end) && (members != [] ==> end == [])
      && forall i | 0 <= i < |members| :: ProperHead(members[i], decode) && Proper(members[i].value, decode)
  }

  predicate ProperHead(m: Member, decode: Bytes -> Option<string>) {
    && Spaces(m.before) && Spaces(m.beforeColon) && Spaces(m.afterColon) && Spaces(m.after)
    && Literal(m.name) && decode(m.name).Some?
  }

  // ----- as bytes ----------------------------------------------------------------------------------

  function Written(v: Layout): (bytes: Bytes)
    decreases v, 2
  {
    match v
    case Scalar(text) => text
    case Quoted(text) => text
    case Listed(items, end) => [OPEN_LIST] + WrittenItems(items) + end + [CLOSE_LIST]
    case Braced(members, end) => [OPEN_BRACE] + WrittenMembers(members) + end + [CLOSE_BRACE]
  }

  function WrittenElement(e: Element): Bytes
    decreases e, 3
  {
    e.before + Written(e.value) + e.after
  }

  function WrittenItems(items: seq<Element>): Bytes
    decreases items, 0
  {
    if items == [] then [] else WrittenElement(items[0]) + MoreItems(items[1..])
  }

  /** The elements after the first, each after a comma. */
  function MoreItems(items: seq<Element>): Bytes
    decreases items, 0
  {
    if items == [] then [] else [COMMA] + WrittenElement(items[0]) + MoreItems(items[1..])
  }

  function Head(m: Member): Bytes {
    m.before + m.name + m.beforeColon + [COLON] + m.afterColon
  }

  function WrittenMember(m: Member): Bytes
    decreases m, 3
  {
    Head(m) + Written(m.value) + m.after
  }

  function WrittenMembers(members: seq<Member>): Bytes
    decreases members, 0
  {
    if members == [] then [] else WrittenMember(members[0]) + MoreMembers(members[1..])
  }

  function MoreMembers(members: seq<Member>): Bytes
    decreases members, 0
  {
    if members == [] then [] else [COMMA] + WrittenMember(members[0]) + MoreMembers(members[1..])
  }

  // ----- where values begin ------------------------------------------------------------------------------

  /** That something of a value's begins at a byte: the value, or the name that introduces it. */
  datatype Mark = Mark(path: seq<string>, at: nat, name: bool)

  function IndexText(n: nat): string {
    if n < 10 then [('0' as int + n) as char] else IndexText(n / 10) + [('0' as int + n % 10) as char]
  }

  /** Every value within one, in document order, the value itself first. */
  function Marks(v: Layout, decode: Bytes -> Option<string>, path: seq<string>, at: nat): seq<Mark>
    decreases v, 2
  {
    [Mark(path, at, false)] +
    match v
    case Listed(items, _) => ItemMarks(items, decode, path, 0, at + 1)
    case Braced(members, _) => MemberMarks(members, decode, path, at + 1)
    case _ => []
  }

  /** The marks of elements from the one at `index`, which begins -- whitespace and all -- at `at`. */
  function ItemMarks(
    items: seq<Element>, decode: Bytes -> Option<string>, path: seq<string>, index: nat, at: nat): seq<Mark>
    decreases items, 0
  {
    if items == [] then []
    else
      Marks(items[0].value, decode, path + [IndexText(index)], at + |items[0].before|)
      + ItemMarks(items[1..], decode, path, index + 1, at + |WrittenElement(items[0])| + 1)
  }

  function NameOf(m: Member, decode: Bytes -> Option<string>): string {
    var name := decode(m.name);
    if name.Some? then name.value else ""
  }

  function MemberMarks(members: seq<Member>, decode: Bytes -> Option<string>, path: seq<string>, at: nat): seq<Mark>
    decreases members, 0
  {
    if members == [] then []
    else
      var child := path + [NameOf(members[0], decode)];
      [Mark(child, at + |members[0].before|, true)]
      + Marks(members[0].value, decode, child, at + |Head(members[0])|)
      + MemberMarks(members[1..], decode, path, at + |WrittenMember(members[0])| + 1)
  }

  // ----- lines and columns --------------------------------------------------------------------------------

  /** A line and a column, both from one; columns count characters. */
  datatype Location = Location(line: nat, column: nat)

  function After(here: Location, b: Byte): Location {
    if b == 10 then Location(here.line + 1, 1)
    else if 0x80 <= b < 0xC0 then here
    else Location(here.line, here.column + 1)
  }

  function LocationAt(raw: Bytes, at: nat): Location
    requires at <= |raw|
  {
    if at == 0 then Location(1, 1) else After(LocationAt(raw, at - 1), raw[at - 1])
  }
}
