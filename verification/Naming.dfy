/** How a row's key names its file, and a file's name its key. */
module Naming {
  import opened Json
  import opened Texts
  import opened Utf8
  import opened Alphabets
  import opened Percent

  const EXTENSION := ".json"
  const MAX_FILENAME_BYTES := 255

  datatype Rule =
    | Reldir
    | Verbatim(alphabet: Alphabet)
    | Template(prefix: string, suffix: string, inner: Rule)

  datatype NamingError =
    | OutsideAlphabet(text: string, c: char)
    | TooLong(bytes: nat)
    | DeviceNamed(stem: string)
    | Empty
    | ContainsSeparator(text: string)
    | Hidden(stem: string)
    | Arity(expected: nat, got: nat)
    | NotThisRule(stem: string)

  datatype Named<+T> = Named(value: T) | Refused(error: NamingError)

  function RuleArity(rule: Rule): Option<nat> {
    match rule
    case Reldir => None
    case Verbatim(_) => Some(1)
    case Template(_, _, inner) => RuleArity(inner)
  }

  function Components(values: seq<string>, single: bool): seq<string> {
    seq(|values|, i requires 0 <= i < |values| => ReldirEncoded(values[i], single))
  }

  function FirstOutside(text: string, alphabet: Alphabet): (i: nat)
    ensures i <= |text|
    ensures i < |text| ==> !In(text[i], alphabet.ranges)
    ensures forall j | 0 <= j < i :: In(text[j], alphabet.ranges)
  {
    if text == "" || !In(text[0], alphabet.ranges) then 0 else 1 + FirstOutside(text[1..], alphabet)
  }

  /** The stem before the checks that apply to a whole file name. */
  function RenderPart(rule: Rule, values: seq<string>): Named<string> {
    match rule
    case Reldir =>
      if values == [] then Refused(Arity(1, 0)) else Named(Joined(Components(values, |values| == 1)))
    case Verbatim(alphabet) =>
      if |values| != 1 then Refused(Arity(1, |values|))
      else if '/' in values[0] || '\0' in values[0] then Refused(ContainsSeparator(values[0]))
      else
        var i := FirstOutside(values[0], alphabet);
        if i < |values[0]| then Refused(OutsideAlphabet(values[0], values[0][i])) else Named(values[0])
    case Template(prefix, suffix, inner) =>
      var middle := RenderPart(inner, values);
      if middle.Refused? then middle else Named(prefix + middle.value + suffix)
  }

  /** What every stem is held to, whatever the rule. */
  function Checked(stem: string): Named<string> {
    if stem == "" then Refused(Empty)
    else if stem[0] == '.' then Refused(Hidden(stem))
    else if DeviceName(stem) then Refused(DeviceNamed(stem))
    else if |Encode(stem + EXTENSION)| > MAX_FILENAME_BYTES then Refused(TooLong(|Encode(stem)| + |EXTENSION|))
    else Named(stem)
  }

  /** The file stem the key values name under a rule. */
  function Render(rule: Rule, values: seq<string>): Named<string> {
    var arity := RuleArity(rule);
    if arity.Some? && arity.value != |values| then Refused(Arity(arity.value, |values|))
    else
      var stem := RenderPart(rule, values);
      if stem.Refused? then stem else Checked(stem.value)
  }

  function DecodedAll(components: seq<string>): Option<seq<string>> {
    if components == [] then Some([])
    else
      var first, rest := PercentDecoded(components[0]), DecodedAll(components[1..]);
      if first.None? || rest.None? then None else Some([first.value] + rest.value)
  }

  /** The key values a stem spells, before checking that they spell it back. */
  function ParsePart(rule: Rule, stem: string): Option<seq<string>>
    decreases rule
  {
    match rule
    case Reldir => DecodedAll(Split(stem))
    case Verbatim(_) => Some([stem])
    case Template(prefix, suffix, inner) =>
      if !(prefix <= stem) then None
      else
        var rest := stem[|prefix|..];
        if |suffix| > |rest| || rest[|rest| - |suffix|..] != suffix then None
        else ParsePart(inner, rest[..|rest| - |suffix|])
  }

  /** The key values a file stem spells under a rule: exactly those that render as it. */
  function Parse(rule: Rule, stem: string): Named<seq<string>> {
    if stem == "" then Refused(Empty)
    else
      var values := ParsePart(rule, stem);
      if values.None? then Refused(NotThisRule(stem))
      else
        var rendered := Render(rule, values.value);
        if rendered.Refused? then Refused(rendered.error)
        else if rendered.value != stem then Refused(NotThisRule(stem))
        else Named(values.value)
  }

  // ----- names and keys are one to one ------------------------------------------------------------------

  lemma {:induction false} ComponentsReadBack(values: seq<string>, single: bool)
    ensures DecodedAll(Components(values, single)) == Some(values)
    ensures forall c | c in Components(values, single) :: ',' !in c
  {
    hide ReldirEncoded, PercentDecoded;
    forall v: string ensures ',' !in ReldirEncoded(v, single) { PercentReadsBack(v, single); }
    if values != [] {
      PercentReadsBack(values[0], single);
      ComponentsReadBack(values[1..], single);
      assert Components(values, single)[1..] == Components(values[1..], single);
      assert values == [values[0]] + values[1..];
    }
  }

  lemma {:induction false} PartReadsBack(rule: Rule, values: seq<string>)
    requires RenderPart(rule, values).Named?
    ensures ParsePart(rule, RenderPart(rule, values).value) == Some(values)
  {
    hide DecodedAll, Joined, Split, Components, FirstOutside, In;
    match rule
    case Reldir =>
      var single := |values| == 1;
      ComponentsReadBack(values, single);
      ComponentsAreSome(values, single);
      JoinedSplits(Components(values, single));
    case Verbatim(_) =>
      assert values == [values[0]];
    case Template(prefix, suffix, inner) =>
      PartReadsBack(inner, values);
      Unwraps(prefix, RenderPart(inner, values).value, suffix);
  }

  lemma ComponentsAreSome(values: seq<string>, single: bool)
    ensures values != [] ==> Components(values, single) != []
  {
    hide ReldirEncoded;
  }

  lemma Unwraps(prefix: string, middle: string, suffix: string)
    ensures var stem := prefix + middle + suffix;
      prefix <= stem && stem[|prefix|..] == middle + suffix
    ensures (middle + suffix)[|middle|..] == suffix && (middle + suffix)[..|middle|] == middle
  {
    var stem := prefix + middle + suffix;
    assert stem[|prefix|..] == middle + suffix;
  }

  /** A stem spells some key values exactly when they render as it. */
  lemma ParseInvertsRender(rule: Rule, values: seq<string>, stem: string)
    ensures Render(rule, values) == Named(stem) <==> Parse(rule, stem) == Named(values)
  {
    hide Checked, RenderPart, ParsePart;
    if Render(rule, values) == Named(stem) {
      CheckedKeeps(RenderPart(rule, values).value);
      PartReadsBack(rule, values);
    }
  }

  lemma CheckedKeeps(stem: string)
    ensures Checked(stem).Named? ==> Checked(stem).value == stem && stem != ""
  {
  }

  /** No two keys name one file. */
  lemma RenderIsInjective(rule: Rule, values: seq<string>, others: seq<string>)
    requires Render(rule, values).Named? && Render(rule, values) == Render(rule, others)
    ensures values == others
  {
    hide Render, Parse;
    var stem := Render(rule, values).value;
    ParseInvertsRender(rule, values, stem);
    ParseInvertsRender(rule, others, stem);
  }

  // ----- what reldir's own rule refuses ---------------------------------------------------------------------

  /** A key alone never encodes as a hidden file. */
  lemma {:induction false} EncodedStarts(bytes: seq<Byte>, n: nat)
    requires 1 <= n <= |bytes|
    ensures EncodedTo(bytes, n) != "" && EncodedTo(bytes, n)[0] == EncodedByte(bytes, 0)[0]
  {
    if n == 1 {
      assert EncodedTo(bytes, 0) == "";
    } else {
      EncodedStarts(bytes, n - 1);
    }
  }

  /**
   Up to its first escape an encoding is the text itself; and up to there, both have their dots in
   the same places.
   */
  lemma {:induction false} EncodedPrefix(text: string, bytes: seq<Byte>, n: nat, k: nat)
    requires bytes == Encode(text) && n <= |bytes| && k <= |EncodedTo(bytes, n)|
    requires '%' !in EncodedTo(bytes, n)[..k]
    ensures k <= n && k <= |text| && EncodedTo(bytes, n)[..k] == text[..k]
    ensures forall j | 0 <= j < k :: bytes[j] == text[j] as int && Literal(bytes, j)
    decreases n
  {
    hide Encode;
    if k > 0 {
      var before, last := EncodedTo(bytes, n - 1), EncodedByte(bytes, n - 1);
      var m := if k <= |before| then k else |before|;
      assert EncodedTo(bytes, n)[..m] == before[..m];
      assert before[..m] == EncodedTo(bytes, n)[..k][..m];
      EncodedPrefix(text, bytes, n - 1, m);
      if k > |before| {
        assert EncodedTo(bytes, n)[|before|] == last[0] && last[0] == EncodedTo(bytes, n)[..k][|before|];
        WholePrefix(bytes, n - 1, m);
        NextChar(text, bytes, n - 1);
      }
    }
  }

  /** An encoding of as many characters as bytes has escaped none of them. */
  lemma {:induction false} WholePrefix(bytes: seq<Byte>, n: nat, m: nat)
    requires n <= |bytes| && m == |EncodedTo(bytes, n)| && m <= n
    ensures m == n
  {
    EncodedIsSome(bytes, n);
  }

  /** After ASCII alone, the next byte below 0x80 is the next character. */
  lemma {:induction false} NextChar(text: string, bytes: seq<Byte>, n: nat)
    requires bytes == Encode(text) && n < |bytes| && n <= |text|
    requires forall j | 0 <= j < n :: bytes[j] == text[j] as int && bytes[j] < 0x80
    ensures n < |text|
    ensures bytes[n] < 0x80 ==> bytes[n] == text[n] as int
    decreases |text|
  {
    if n > 0 {
      assert EncodeChar(text[0]) == [text[0] as int];
      assert bytes[1..] == Encode(text[1..]);
      forall j | 0 <= j < n - 1 ensures bytes[1..][j] == text[1..][j] as int && bytes[1..][j] < 0x80 {
        assert bytes[1..][j] == bytes[j + 1];
      }
      NextChar(text[1..], bytes[1..], n - 1);
      assert bytes[1..][n - 1] == bytes[n];
    }
  }

  lemma {:induction false} NotADevice(text: string)
    requires text != ""
    ensures !DeviceName(ReldirEncoded(text, true))
  {
    hide Encode, EncodedTo;
    var bytes := Encode(text);
    var out := EncodedTo(bytes, |bytes|);
    if DeviceName(text) {
      DeviceStartsLiteral(text);
      EncodedIsSome(bytes, |bytes|);
      EscapedIsNoDevice(bytes[0], out[1..]);
    } else if DeviceName(out) {
      var k := DotAt(out);
      DeviceIsPlain(out);
      EncodedPrefix(text, bytes, |bytes|, k);
      if k < |text| { DotsAgree(text, bytes, out, k); }
      SameBase(text, out, k);
    }
  }

  lemma SameBase(text: string, out: string, k: nat)
    requires k == DotAt(out) && k <= |text| && out[..k] == text[..k] && (k < |text| ==> DotAt(text) == k)
    ensures DeviceName(text) == DeviceName(out)
  {
    assert forall j | 0 <= j < k :: text[j] == text[..k][j] && out[j] == out[..k][j];
    assert DotAt(text) == k;
  }

  lemma EscapedIsNoDevice(b: Byte, rest: string)
    ensures !DeviceName(Escaped(b) + rest)
  {
    var name := Escaped(b) + rest;
    var base := name[..DotAt(name)];
    assert base != "" ==> Lower(base)[0] == Lowered(base[0]);
  }

  lemma DeviceIsPlain(name: string)
    requires DeviceName(name)
    ensures '%' !in name[..DotAt(name)]
  {
    var base := name[..DotAt(name)];
    assert forall i | 0 <= i < |base| :: Lower(base)[i] == Lowered(base[i]);
  }

  /** After bytes written as they are, the next byte's spelling. */
  lemma {:induction false} EncodedAt(bytes: seq<Byte>, n: nat, k: nat)
    requires k < n <= |bytes| && forall j | 0 <= j < k :: Literal(bytes, j)
    ensures k < |EncodedTo(bytes, n)| && EncodedTo(bytes, n)[k] == EncodedByte(bytes, k)[0]
    decreases n
  {
    if n == k + 1 {
      LiteralsAreShort(bytes, k);
    } else {
      EncodedAt(bytes, n - 1, k);
    }
  }

  lemma {:induction false} LiteralsAreShort(bytes: seq<Byte>, k: nat)
    requires k <= |bytes| && forall j | 0 <= j < k :: Literal(bytes, j)
    ensures |EncodedTo(bytes, k)| == k
  {
    if k > 0 { LiteralsAreShort(bytes, k - 1); }
  }

  /** Where the encoding has its first dot, so has the text. */
  lemma {:induction false} DotsAgree(text: string, bytes: seq<Byte>, out: string, k: nat)
    requires bytes == Encode(text) && out == EncodedTo(bytes, |bytes|) && k == DotAt(out) && k < |text|
    requires out[..k] == text[..k]
    requires forall j | 0 <= j < k :: bytes[j] == text[j] as int && Literal(bytes, j)
    ensures DotAt(text) == k
  {
    hide Encode, EncodedTo;
    EncodedAt(bytes, |bytes|, k);
    NextChar(text, bytes, k);
    assert out[k] == '.';
    assert Literal(bytes, k) && bytes[k] == '.' as int;
    assert forall j | 0 <= j < k :: text[j] == out[j];
  }

  /** One key that is not empty is refused under reldir's rule only for its length. */
  lemma {:induction false} ReldirRefusesLengthAlone(key: string)
    requires key != ""
    ensures var stem := ReldirEncoded(key, true);
      Render(Reldir, [key]) ==
        if |Encode(stem + EXTENSION)| > MAX_FILENAME_BYTES then Refused(TooLong(|Encode(stem)| + |EXTENSION|))
          else Named(stem)
  {
    hide ReldirEncoded, DeviceName, Encode;
    var stem := ReldirEncoded(key, true);
    assert Components([key], true) == [stem];
    NotADevice(key);
    NotHidden(key);
  }

  lemma NotHidden(key: string)
    requires key != ""
    ensures ReldirEncoded(key, true) != "" && ReldirEncoded(key, true)[0] != '.'
  {
    hide DeviceName, EncodedTo;
    var bytes := Encode(key);
    EncodedStarts(bytes, |bytes|);
    EncodedIsSome(bytes, |bytes|);
  }
}
