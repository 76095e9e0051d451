/**
 How scalars are spelled: the number classes and the strong string forms a
 contract records, each a small join-semilattice.
 */
module Lexical {

  datatype NumberClass = Int | BigInt | Float | Number

  datatype UuidCase = Lower | Upper | Mixed

  datatype StringForm = Plain | Date | DateTime | Uuid(letters: UuidCase) | Ulid

  // ----- characters ---------------------------------------------------------

  predicate Digit(c: char) { '0' <= c <= '9' }

  predicate LowerHex(c: char) { 'a' <= c <= 'f' }

  predicate UpperHex(c: char) { 'A' <= c <= 'F' }

  predicate Digits(text: string) {
    text != "" && forall i | 0 <= i < |text| :: Digit(text[i])
  }

  function DecimalValue(text: string): (n: nat)
    requires forall i | 0 <= i < |text| :: Digit(text[i])
  {
    if text == "" then 0
    else
      assert Digit(text[|text| - 1]);
      10 * DecimalValue(text[..|text| - 1]) + (text[|text| - 1] as int - '0' as int)
  }

  // ----- numbers --------------------------------------------------------------

  const MIN_I64: int := -0x8000_0000_0000_0000
  const MAX_I64: int := 0x7fff_ffff_ffff_ffff

  predicate HasFractionOrExponent(lexeme: string) {
    '.' in lexeme || 'e' in lexeme || 'E' in lexeme
  }

  /** Whether the text reads as a signed 64-bit integer. */
  predicate ParsesAsI64(text: string) {
    var negative := text != "" && text[0] == '-';
    var digits := if text != "" && text[0] in "+-" then text[1..] else text;
    Digits(digits) &&
    var magnitude: int := DecimalValue(digits);
    MIN_I64 <= (if negative then -magnitude else magnitude) <= MAX_I64
  }

  function NumberClassOf(lexeme: string): NumberClass {
    if HasFractionOrExponent(lexeme) then Float
    else if ParsesAsI64(lexeme) then Int
    else BigInt
  }

  function JoinNumbers(a: NumberClass, b: NumberClass): NumberClass {
    if a == b then a
    else if (a == Int && b == BigInt) || (a == BigInt && b == Int) then BigInt
    else Number
  }

  /** The order the class diagram draws: integers below big integers, all below `Number`. */
  predicate NumberBelow(a: NumberClass, b: NumberClass) {
    a == b || (a == Int && b == BigInt) || b == Number
  }

  // ----- strings --------------------------------------------------------------

  predicate LeapYear(year: nat) {
    year % 4 == 0 && (year % 100 != 0 || year % 400 == 0)
  }

  function DaysIn(year: nat, month: nat): nat {
    if month in {1, 3, 5, 7, 8, 10, 12} then 31
    else if month in {4, 6, 9, 11} then 30
    else if month == 2 then (if LeapYear(year) then 29 else 28)
    else 0
  }

  /** RFC 3339 section 5.6 `full-date`, with the calendar checked. */
  predicate IsDate(text: string) {
    && |text| == 10 && text[4] == '-' && text[7] == '-'
    && Digits(text[0..4]) && Digits(text[5..7]) && Digits(text[8..10])
    && 1 <= DecimalValue(text[8..10]) <= DaysIn(DecimalValue(text[0..4]), DecimalValue(text[5..7]))
  }

  function SkipDigits(text: string, at: nat): (end: nat)
    requires at <= |text|
    ensures at <= end <= |text|
    decreases |text| - at
  {
    if at < |text| && Digit(text[at]) then SkipDigits(text, at + 1) else at
  }

  predicate IsOffset(text: string) {
    || text in ["Z", "z"]
    || (&& |text| == 6 && text[0] in "+-" && text[3] == ':'
        && Digits(text[1..3]) && Digits(text[4..6])
        && DecimalValue(text[1..3]) <= 23 && DecimalValue(text[4..6]) <= 59)
  }

  /** RFC 3339 section 5.6 `date-time` with an explicit offset and no leap second. */
  predicate IsDateTime(text: string) {
    && |text| >= 20 && IsDate(text[..10])
    && text[10] in "Tt" && text[13] == ':' && text[16] == ':'
    && Digits(text[11..13]) && Digits(text[14..16]) && Digits(text[17..19])
    && DecimalValue(text[11..13]) <= 23
    && DecimalValue(text[14..16]) <= 59
    && DecimalValue(text[17..19]) <= 59
    && (if text[19] == '.'
        then SkipDigits(text, 20) > 20 && IsOffset(text[SkipDigits(text, 20)..])
        else IsOffset(text[19..]))
  }

  predicate UuidDash(i: nat) { i in {8, 13, 18, 23} }

  predicate UuidShaped(text: string) {
    |text| == 36 &&
    forall i | 0 <= i < 36 ::
      if UuidDash(i) then text[i] == '-'
      else Digit(text[i]) || LowerHex(text[i]) || UpperHex(text[i])
  }

  function UuidCaseOf(text: string): UuidCase
    requires UuidShaped(text)
  {
    var lower := exists i | 0 <= i < 36 :: LowerHex(text[i]);
    var upper := exists i | 0 <= i < 36 :: UpperHex(text[i]);
    if lower && upper then Mixed else if upper then Upper else Lower
  }

  /** The base32 alphabet of Crockford: no `I`, `L`, `O` or `U`. */
  predicate Crockford(c: char) {
    Digit(c) || ('A' <= c <= 'Z' && c != 'I' && c != 'L' && c != 'O' && c != 'U')
  }

  predicate IsUlid(text: string) {
    |text| == 26 && '0' <= text[0] <= '7' && forall i | 0 <= i < 26 :: Crockford(text[i])
  }

  function StringFormOf(text: string): StringForm {
    if IsDateTime(text) then DateTime
    else if IsDate(text) then Date
    else if UuidShaped(text) then Uuid(UuidCaseOf(text))
    else if IsUlid(text) then Ulid
    else Plain
  }

  function JoinForms(a: StringForm, b: StringForm): StringForm {
    if a == b then a
    else if a.Uuid? && b.Uuid? then Uuid(Mixed)
    else Plain
  }

  predicate FormBelow(a: StringForm, b: StringForm) {
    a == b || (a.Uuid? && b == Uuid(Mixed)) || b == Plain
  }

  lemma JoinFormsIsLeast(a: StringForm, b: StringForm, c: StringForm)
    ensures FormBelow(JoinForms(a, b), c) <==> FormBelow(a, c) && FormBelow(b, c)
  {
  }
}
