/** Numbers by exact value: the canonical decimal text comparisons and conflict sides are written in. */
module Numbers {
  import opened Json
  import opened Lexical

  /** Sign, significant digits, and the power of ten the last of them sits at. */
  datatype Exact = Exact(negative: bool, digits: string, exponent: int)

  const MAX_POWER := 100000

  predicate AllDigits(s: string) {
    forall i | 0 <= i < |s| :: Digit(s[i])
  }

  /** The first place one of two characters stands, or past the end. */
  function FirstOf(s: string, a: char, b: char): (i: nat)
    ensures i <= |s|
    ensures i < |s| ==> s[i] == a || s[i] == b
    ensures forall j | 0 <= j < i :: s[j] != a && s[j] != b
  {
    if s == "" || s[0] == a || s[0] == b then 0 else 1 + FirstOf(s[1..], a, b)
  }

  function TrimStart(s: string, c: char): (t: string)
    ensures t == "" || t[0] != c
    ensures |t| <= |s| && t == s[|s| - |t|..] && forall i | 0 <= i < |s| - |t| :: s[i] == c
  {
    if s != "" && s[0] == c then TrimStart(s[1..], c) else s
  }

  function TrimEnd(s: string, c: char): (t: string)
    ensures t == "" || t[|t| - 1] != c
    ensures t <= s && forall i | |t| <= i < |s| :: s[i] == c
  {
    if s != "" && s[|s| - 1] == c then TrimEnd(s[..|s| - 1], c) else s
  }

  function ParsePower(text: string): Option<int> {
    var signed := if text != "" && text[0] == '+' then text[1..] else text;
    var digits := TrimStart(signed, '-');
    if digits == "" || !AllDigits(digits) || |signed| - |digits| > 1 then None
    else
      var magnitude: int := DecimalValue(digits);
      if magnitude > MAX_POWER then None
      else Some(if |signed| > |digits| then -magnitude else magnitude)
  }

  /** The number some digits spell, with their zeros stripped. */
  function Stripped(negative: bool, all: string, exponent: int): Exact {
    var trimmed := TrimStart(all, '0');
    var digits := TrimEnd(trimmed, '0');
    if digits == "" then Exact(false, "", 0)
    else Exact(negative, digits, exponent + |trimmed| - |digits|)
  }

  function ParseUnsigned(negative: bool, text: string): Option<Exact> {
    var at := FirstOf(text, 'e', 'E');
    var power := if at < |text| then ParsePower(text[at + 1..]) else Some(0);
    var mantissa := text[..at];
    var dot := FirstOf(mantissa, '.', '.');
    var whole := mantissa[..dot];
    var fraction := if dot < |mantissa| then mantissa[dot + 1..] else "";
    if power.None? || (dot < |mantissa| && fraction == "") then None
    else if whole == "" || !AllDigits(whole) || !AllDigits(fraction) then None
    else Some(Stripped(negative, whole + fraction, power.value - |fraction|))
  }

  function ParseExact(text: string): Option<Exact> {
    if text != "" && text[0] == '-' then ParseUnsigned(true, text[1..]) else ParseUnsigned(false, text)
  }

  function Zeros(n: nat): (s: string)
    ensures |s| == n && forall i | 0 <= i < n :: s[i] == '0'
  {
    seq(n, _ => '0')
  }

  function PlainUnsigned(digits: string, exponent: int): string {
    var point := |digits| + exponent;
    if exponent >= 0 then digits + Zeros(exponent)
    else if point > 0 then digits[..point] + ['.'] + digits[point..]
    else ['0', '.'] + Zeros(-point) + digits
  }

  /** Plain decimal text, with no exponent. */
  function PlainText(e: Exact): string {
    if e.digits == "" then "0"
    else (if e.negative then ['-'] else []) + PlainUnsigned(e.digits, e.exponent)
  }

  /** A number's canonical text; a text that is no number is left as it is. */
  function CanonicalNumber(lexeme: string): string {
    var e := ParseExact(lexeme);
    if e.Some? then PlainText(e.value) else lexeme
  }

  predicate Reduced(e: Exact) {
    && AllDigits(e.digits)
    && (e.digits == "" ==> !e.negative && e.exponent == 0)
    && (e.digits != "" ==> e.digits[0] != '0' && e.digits[|e.digits| - 1] != '0')
  }

  lemma StrippedIsReduced(negative: bool, all: string, exponent: int)
    requires AllDigits(all)
    ensures Reduced(Stripped(negative, all, exponent))
  {
  }

  lemma ParsedIsReduced(text: string)
    ensures ParseExact(text).Some? ==> Reduced(ParseExact(text).value)
  {
    var negative := text != "" && text[0] == '-';
    var unsigned := if negative then text[1..] else text;
    assert ParseExact(text) == ParseUnsigned(negative, unsigned);
    if ParseUnsigned(negative, unsigned).Some? { UnsignedIsReduced(negative, unsigned); }
  }

  lemma UnsignedIsReduced(negative: bool, text: string)
    requires ParseUnsigned(negative, text).Some?
    ensures Reduced(ParseUnsigned(negative, text).value)
  {
    hide Stripped, Reduced, ParsePower;
    var mantissa := text[..FirstOf(text, 'e', 'E')];
    var dot := FirstOf(mantissa, '.', '.');
    var fraction := if dot < |mantissa| then mantissa[dot + 1..] else "";
    forall exponent { StrippedIsReduced(negative, mantissa[..dot] + fraction, exponent); }
  }

  lemma SuffixTrimmed(prefix: nat, s: string)
    requires s == "" || s[0] != '0'
    ensures TrimStart(Zeros(prefix) + s, '0') == s
  {
    hide TrimStart, Zeros;
    var all := Zeros(prefix) + s;
    var t := TrimStart(all, '0');
    assert t != "" ==> t[0] == all[|all| - |t|];
    assert s != "" ==> all[|all| - |s|] == s[0];
  }

  lemma PrefixTrimmed(s: string, suffix: nat)
    requires s == "" || s[|s| - 1] != '0'
    ensures TrimEnd(s + Zeros(suffix), '0') == s
  {
    var all := s + Zeros(suffix);
    var t := TrimEnd(all, '0');
    assert t != "" ==> t[|t| - 1] == all[|t| - 1];
    assert s != "" ==> all[|s| - 1] == s[|s| - 1];
  }

  lemma WholeParses(negative: bool, whole: string)
    requires whole != "" && AllDigits(whole)
    ensures ParseUnsigned(negative, whole) == Some(Stripped(negative, whole, 0))
  {
    hide Stripped;
    assert FirstOf(whole, 'e', 'E') == |whole| == FirstOf(whole, '.', '.');
    assert whole[..|whole|] == whole;
    assert whole + "" == whole;
  }

  lemma PointParses(negative: bool, whole: string, fraction: string)
    requires whole != "" && fraction != "" && AllDigits(whole) && AllDigits(fraction)
    ensures ParseUnsigned(negative, whole + ['.'] + fraction) == Some(Stripped(negative, whole + fraction, -|fraction|))
  {
    hide Stripped;
    var text := whole + ['.'] + fraction;
    assert forall i | 0 <= i < |text| :: text[i] == '.' || Digit(text[i]);
    assert FirstOf(text, 'e', 'E') == |text|;
    assert text[..|text|] == text;
    assert text[|whole|] == '.';
    assert FirstOf(text, '.', '.') == |whole|;
    assert text[..|whole|] == whole && text[|whole| + 1..] == fraction;
  }

  lemma StrippedWhole(negative: bool, digits: string, exponent: int, lead: nat, trail: nat)
    requires digits != "" && digits[0] != '0' && digits[|digits| - 1] != '0'
    ensures Stripped(negative, Zeros(lead) + (digits + Zeros(trail)), exponent)
      == Exact(negative, digits, exponent + trail)
  {
    SuffixTrimmed(lead, digits + Zeros(trail));
    PrefixTrimmed(digits, trail);
  }

  lemma ZeroStrips()
    ensures Stripped(false, "0", 0) == Exact(false, "", 0)
  {
    SuffixTrimmed(1, "");
    assert Zeros(1) + "" == "0";
  }

  predicate Significant(digits: string) {
    AllDigits(digits) && digits != "" && digits[0] != '0' && digits[|digits| - 1] != '0'
  }

  lemma IntegerReadsBack(negative: bool, digits: string, exponent: nat)
    requires Significant(digits)
    ensures ParseUnsigned(negative, digits + Zeros(exponent)) == Some(Exact(negative, digits, exponent))
  {
    hide ParseUnsigned, Stripped;
    WholeParses(negative, digits + Zeros(exponent));
    StrippedWhole(negative, digits, 0, 0, exponent);
    assert Zeros(0) + (digits + Zeros(exponent)) == digits + Zeros(exponent);
  }

  lemma DecimalReadsBack(negative: bool, digits: string, point: nat)
    requires Significant(digits) && 0 < point < |digits|
    ensures ParseUnsigned(negative, digits[..point] + ['.'] + digits[point..])
      == Some(Exact(negative, digits, point - |digits|))
  {
    hide ParseUnsigned, Stripped;
    PointParses(negative, digits[..point], digits[point..]);
    StrippedWhole(negative, digits, point - |digits|, 0, 0);
    assert digits[..point] + digits[point..] == digits;
    assert Zeros(0) + (digits + Zeros(0)) == digits;
  }

  lemma FractionReadsBack(negative: bool, digits: string, zeros: nat)
    requires Significant(digits)
    ensures ParseUnsigned(negative, ['0', '.'] + Zeros(zeros) + digits)
      == Some(Exact(negative, digits, -(zeros + |digits|)))
  {
    hide ParseUnsigned, Stripped;
    var fraction := Zeros(zeros) + digits;
    PointParses(negative, ['0'], fraction);
    StrippedWhole(negative, digits, -(zeros + |digits|), 1 + zeros, 0);
    assert ['0'] + fraction == Zeros(1 + zeros) + (digits + Zeros(0));
    assert ['0'] + ['.'] + fraction == ['0', '.'] + Zeros(zeros) + digits;
  }

  lemma PlainUnsignedReadsBack(negative: bool, digits: string, exponent: int)
    requires Significant(digits)
    ensures ParseUnsigned(negative, PlainUnsigned(digits, exponent)) == Some(Exact(negative, digits, exponent))
    ensures PlainUnsigned(digits, exponent) != "" && PlainUnsigned(digits, exponent)[0] != '-'
  {
    hide ParseUnsigned, Stripped;
    assert Digit(digits[0]);
    var point := |digits| + exponent;
    if exponent >= 0 { IntegerReadsBack(negative, digits, exponent); }
    else if point > 0 { DecimalReadsBack(negative, digits, point); }
    else { FractionReadsBack(negative, digits, -point); }
  }

  /** The canonical text of a number reads back as that number, so each value has one canonical text. */
  lemma PlainReadsBack(e: Exact)
    requires Reduced(e)
    ensures ParseExact(PlainText(e)) == Some(e)
  {
    hide ParseUnsigned, Stripped, PlainUnsigned;
    if e.digits == "" {
      WholeParses(false, "0");
      assert Stripped(false, "0", 0) == e by {
        ZeroStrips();
      }
    } else {
      PlainUnsignedReadsBack(e.negative, e.digits, e.exponent);
      var unsigned := PlainUnsigned(e.digits, e.exponent);
      assert (['-'] + unsigned)[1..] == unsigned;
      assert [] + unsigned == unsigned;
    }
  }

  lemma CanonicalIsStable(lexeme: string)
    ensures CanonicalNumber(CanonicalNumber(lexeme)) == CanonicalNumber(lexeme)
  {
    ParsedIsReduced(lexeme);
    hide ParseExact, PlainText;
    if ParseExact(lexeme).Some? { PlainReadsBack(ParseExact(lexeme).value); }
  }

  /** A trailing zero is one thing canonical text leaves out. */
  lemma TrailingZeroGoes()
    ensures CanonicalNumber("1.50") == "1.5"
  {
    hide ParseUnsigned, Stripped;
    PointParses(false, "1", "50");
    assert "1" + ['.'] + "50" == "1.50";
    StrippedWhole(false, "15", -2, 0, 1);
    assert Zeros(0) + ("15" + Zeros(1)) == "1" + "50";
    assert PlainUnsigned("15", -1) == "1.5";
  }
}
