/** The iterative scan of a document's bytes, and that it finds every value where the layout says it begins. */
module Locator {
  import opened Json
  import opened Utf8
  import opened Pointer
  import opened Layouts

  /** Pointer to location: of values, and of the names that introduce members. */
  datatype Spans = Spans(values: map<string, Location>, keys: map<string, Location>)

  function LocationOf(raw: Bytes, at: nat): Location {
    LocationAt(raw, if at <= |raw| then at else |raw|)
  }

  function Noted(raw: Bytes, spans: Spans, m: Mark): Spans {
    if m.name then spans.(keys := spans.keys[Text(m.path) := LocationOf(raw, m.at)])
    else spans.(values := spans.values[Text(m.path) := LocationOf(raw, m.at)])
  }

  /** The spans some marks leave, in order. */
  function Recorded(raw: Bytes, marks: seq<Mark>): Spans {
    if marks == [] then Spans(map[], map[]) else Noted(raw, Recorded(raw, marks[..|marks| - 1]), marks[|marks| - 1])
  }

  lemma RecordedOneMore(raw: Bytes, marks: seq<Mark>, m: Mark)
    ensures Recorded(raw, marks + [m]) == Noted(raw, Recorded(raw, marks), m)
  {
    assert (marks + [m])[..|marks|] == marks;
  }

  // ----- reading forward ----------------------------------------------------------------------------

  function SpaceCount(bytes: Bytes): (n: nat)
    ensures n <= |bytes|
  {
    if bytes != [] && Space(bytes[0]) then 1 + SpaceCount(bytes[1..]) else 0
  }

  function ScalarCount(bytes: Bytes): (n: nat)
    ensures n <= |bytes|
  {
    if bytes != [] && !Delimits(bytes[0]) then 1 + ScalarCount(bytes[1..]) else 0
  }

  lemma {:induction false} SkipsSpaces(spaces: Bytes, rest: Bytes)
    requires Spaces(spaces) && (rest != [] ==> !Space(rest[0]))
    ensures SpaceCount(spaces + rest) == |spaces|
  {
    if spaces == [] {
      assert spaces + rest == rest;
    } else {
      SkipsSpaces(spaces[1..], rest);
      assert (spaces + rest)[1..] == spaces[1..] + rest;
    }
  }

  lemma {:induction false} SkipsScalar(text: Bytes, rest: Bytes)
    requires (forall i | 0 <= i < |text| :: !Delimits(text[i])) && (rest != [] ==> Delimits(rest[0]))
    ensures ScalarCount(text + rest) == |text|
  {
    if text == [] {
      assert text + rest == rest;
    } else {
      SkipsScalar(text[1..], rest);
      assert (text + rest)[1..] == text[1..] + rest;
    }
  }

  lemma {:induction false} QuoteBefore(body: Bytes, rest: Bytes)
    requires QuoteAt(body) < |body|
    ensures QuoteAt(body + rest) == QuoteAt(body)
    decreases |body|
  {
    if body[0] == QUOTE {
    } else if body[0] == BACKSLASH {
      assert (body + rest)[2..] == body[2..] + rest;
      QuoteBefore(body[2..], rest);
    } else {
      assert (body + rest)[1..] == body[1..] + rest;
      QuoteBefore(body[1..], rest);
    }
  }

  class Scanner {
    const raw: Bytes
    var at: nat
    var here: Location

    ghost predicate Valid()
      reads this
    {
      at <= |raw| && here == LocationAt(raw, at)
    }

    constructor (bytes: Bytes)
      ensures Valid() && raw == bytes && at == 0
    {
      raw := bytes;
      at := 0;
      here := Location(1, 1);
    }

    method Bump()
      requires Valid()
      modifies this
      ensures Valid() && at == if old(at) < |raw| then old(at) + 1 else old(at)
    {
      if at == |raw| { return; }
      here := After(here, raw[at]);
      at := at + 1;
    }

    method Whitespace()
      requires Valid()
      modifies this
      ensures Valid() && at == old(at) + SpaceCount(raw[old(at)..])
    {
      ghost var start := at;
      while at < |raw| && Space(raw[at])
        invariant Valid() && start <= at
        invariant at + SpaceCount(raw[at..]) == start + SpaceCount(raw[start..])
        decreases |raw| - at
      {
        assert raw[at..][1..] == raw[at + 1..];
        Bump();
      }
    }

    /** Consume a number or a literal. */
    method ReadScalar()
      requires Valid()
      modifies this
      ensures Valid() && at == old(at) + ScalarCount(raw[old(at)..])
    {
      ghost var start := at;
      while at < |raw| && !Delimits(raw[at])
        invariant Valid() && start <= at
        invariant at + ScalarCount(raw[at..]) == start + ScalarCount(raw[start..])
        decreases |raw| - at
      {
        assert raw[at..][1..] == raw[at + 1..];
        Bump();
      }
    }

    /** Consume a string and return its decoded text. */
    method ReadString(decode: Bytes -> Option<string>) returns (text: Option<string>)
      requires Valid() && at < |raw|
      modifies this
      ensures Valid() && old(at) < at
      ensures var body := raw[old(at) + 1..];
        var n := QuoteAt(body);
        if n < |body| then at == old(at) + n + 2 && text == decode(raw[old(at)..old(at) + n + 2]) else text == None
    {
      ghost var start := at;
      var first := at;
      Bump();
      ghost var body := raw[at..];
      var escaped := false;
      while at < |raw|
        invariant Valid() && start < at
        invariant escaped ==> start + 1 < at
        invariant QuoteAt(body) < |body| <==>
          (if escaped then at < |raw| && QuoteAt(raw[at + 1..]) < |raw[at + 1..]| else QuoteAt(raw[at..]) < |raw[at..]|)
        invariant QuoteAt(body) < |body| ==>
          start + 1 + QuoteAt(body) == if escaped then at + 1 + QuoteAt(raw[at + 1..]) else at + QuoteAt(raw[at..])
        decreases |raw| - at
      {
        var byte := raw[at];
        assert raw[at..][1..] == raw[at + 1..];
        if at + 2 <= |raw| { assert raw[at..][2..] == raw[at + 2..]; }
        Bump();
        if escaped {
          escaped := false;
        } else if byte == BACKSLASH {
          escaped := true;
        } else if byte == QUOTE {
          return decode(raw[first..at]);
        }
      }
      text := None;
    }
  }
}
