/** Percent-encoding: reldir's own spelling of a key component, and reading it back. */
module Percent {
  import opened Json
  import opened Lexical
  import opened Utf8
  import opened AlphabetText

  predicate LetterOrDigit(c: char) {
    Digit(c) || 'a' <= c <= 'z' || 'A' <= c <= 'Z'
  }

  /** Whether a byte is written as it is: a dot only inside. */
  predicate Literal(bytes: seq<Byte>, i: nat)
    requires i < |bytes|
  {
    bytes[i] < 0x80 &&
    var c := bytes[i] as char;
    LetterOrDigit(c) || c == '_' || c == '-' || (c == '.' && i != 0 && i + 1 < |bytes|)
  }

  function Escaped(b: Byte): (s: string)
    ensures |s| == 3
  {
    ['%', HexChar(b / 16), HexChar(b % 16)]
  }

  function EncodedByte(bytes: seq<Byte>, i: nat): (s: string)
    requires i < |bytes|
    ensures |s| >= 1
  {
    if Literal(bytes, i) then [bytes[i] as char] else Escaped(bytes[i])
  }

  function EncodedTo(bytes: seq<Byte>, n: nat): string
    requires n <= |bytes|
  {
    if n == 0 then "" else EncodedTo(bytes, n - 1) + EncodedByte(bytes, n - 1)
  }

  // ----- device names -------------------------------------------------------------------------------

  function DotAt(s: string): (i: nat)
    ensures i <= |s|
    ensures i < |s| ==> s[i] == '.'
    ensures forall j | 0 <= j < i :: s[j] != '.'
  {
    if s == "" || s[0] == '.' then 0 else 1 + DotAt(s[1..])
  }

  function Lowered(c: char): char {
    if 'A' <= c <= 'Z' then (c as int + 32) as char else c
  }

  function Lower(s: string): (t: string)
    ensures |t| == |s| && forall i | 0 <= i < |s| :: t[i] == Lowered(s[i])
  {
    seq(|s|, i requires 0 <= i < |s| => Lowered(s[i]))
  }

  predicate DeviceBase(base: string) {
    || base == "con" || base == "prn" || base == "aux" || base == "nul"
    || (|base| == 4 && (base[..3] == "com" || base[..3] == "lpt") && '1' <= base[3] <= '9')
  }

  /** Whether a name is a Windows device name, in any case, before its first dot. */
  predicate DeviceName(name: string) {
    DeviceBase(Lower(name[..DotAt(name)]))
  }

  // ----- encoding --------------------------------------------------------------------------------------

  /** A key component as reldir spells it. Alone, a device name has its first byte encoded. */
  function ReldirEncoded(text: string, single: bool): string {
    var bytes := Encode(text);
    var out := EncodedTo(bytes, |bytes|);
    if single && DeviceName(text) && bytes != [] then Escaped(bytes[0]) + out[1..] else out
  }

  /** Encode a key component. */
  method ReldirEncode(text: string, single: bool) returns (out: string)
    ensures out == ReldirEncoded(text, single)
  {
    var bytes := Encode(text);
    out := "";
    for index := 0 to |bytes|
      invariant out == EncodedTo(bytes, index)
    {
      if Literal(bytes, index) {
        out := out + [bytes[index] as char];
      } else {
        out := out + Escaped(bytes[index]);
      }
    }
    if single && DeviceName(text) {
      DeviceIsSome(text);
      EncodedIsSome(bytes, |bytes|);
      out := Escaped(bytes[0]) + out[1..];
    }
  }

  lemma DeviceIsSome(text: string)
    requires DeviceName(text)
    ensures Encode(text) != []
  {
  }

  lemma {:induction false} EncodedIsSome(bytes: seq<Byte>, n: nat)
    requires n <= |bytes|
    ensures |EncodedTo(bytes, n)| >= n
  {
    if n > 0 { EncodedIsSome(bytes, n - 1); }
  }

  // ----- decoding -----------------------------------------------------------------------------------------

  /** A byte of a text read as hexadecimal: two digits, or a plus sign and one. */
  function HexByte(a: Byte, b: Byte): Option<Byte> {
    if b >= 0x80 || !HexDigit(b as char) then None
    else if a == '+' as int then Some(HexDigitValue(b as char))
    else if a >= 0x80 || !HexDigit(a as char) then None
    else Some(HexDigitValue(a as char) * 16 + HexDigitValue(b as char))
  }

  function Unescaped(bytes: seq<Byte>): Option<seq<Byte>>
    decreases |bytes|
  {
    if bytes == [] then Some([])
    else if bytes[0] != '%' as int then
      var rest := Unescaped(bytes[1..]);
      if rest.None? then None else Some([bytes[0]] + rest.value)
    else if |bytes| < 3 then None
    else
      var b := HexByte(bytes[1], bytes[2]);
      if b.None? then None
      else
        var rest := Unescaped(bytes[3..]);
        if rest.None? then None else Some([b.value] + rest.value)
  }

  /** The text a percent-encoded component encodes, if it is valid. */
  function PercentDecoded(component: string): Option<string> {
    var bytes := Unescaped(Encode(component));
    if bytes.None? then None else Decode(bytes.value)
  }

  lemma UnescapedStep(bytes: seq<Byte>, out: seq<Byte>, b: Byte, rest: Option<seq<Byte>>)
    ensures (if rest.None? then None else Some(out + ([b] + rest.value)))
      == (if rest.None? then None else Some((out + [b]) + rest.value))
  {
    if rest.Some? { assert out + ([b] + rest.value) == (out + [b]) + rest.value; }
  }

  /** Decode a component. */
  method PercentDecode(component: string) returns (text: Option<string>)
    ensures text == PercentDecoded(component)
  {
    hide Encode, Decode, HexByte;
    var bytes := Encode(component);
    var out: seq<Byte> := [];
    var index := 0;
    assert bytes[0..] == bytes;
    assert Unescaped(bytes).Some? ==> out + Unescaped(bytes).value == Unescaped(bytes).value;
    while index < |bytes|
      invariant 0 <= index <= |bytes|
      invariant Unescaped(bytes) ==
        var rest := Unescaped(bytes[index..]); if rest.None? then None else Some(out + rest.value)
    {
      var left := bytes[index..];
      if bytes[index] == '%' as int {
        if index + 3 > |bytes| { return None; }
        var b := HexByte(bytes[index + 1], bytes[index + 2]);
        if b.None? { return None; }
        assert left[3..] == bytes[index + 3..];
        UnescapedStep(bytes, out, b.value, Unescaped(bytes[index + 3..]));
        out := out + [b.value];
        index := index + 3;
      } else {
        assert left[1..] == bytes[index + 1..];
        UnescapedStep(bytes, out, bytes[index], Unescaped(bytes[index + 1..]));
        out := out + [bytes[index]];
        index := index + 1;
      }
    }
    assert bytes[|bytes|..] == [];
    assert Unescaped(bytes) == Some(out + []) && out + [] == out;
    text := Decode(out);
  }

  // ----- what is encoded reads back ---------------------------------------------------------------------------

  /** A text in ASCII, as bytes. */
  function Bytes(s: string): seq<Byte>
    requires Ascii(s)
  {
    seq(|s|, i requires 0 <= i < |s| => s[i] as int)
  }

  lemma BytesAre(s: string)
    requires Ascii(s)
    ensures Encode(s) == Bytes(s)
  {
    AsciiBytes(s);
  }

  predicate Plain(c: char) {
    c as int < 0x80 && c != ','
  }

  predicate AllPlain(s: string) {
    forall i | 0 <= i < |s| :: Plain(s[i])
  }

  lemma EscapedReadsBack(b: Byte, rest: seq<Byte>, more: seq<Byte>)
    requires Unescaped(rest) == Some(more)
    ensures AllPlain(Escaped(b)) && Unescaped(Bytes(Escaped(b)) + rest) == Some([b] + more)
  {
    var s := Bytes(Escaped(b)) + rest;
    assert s[3..] == rest;
    assert HexByte(s[1], s[2]) == Some(b);
  }

  lemma ByteReadsBack(bytes: seq<Byte>, i: nat, rest: seq<Byte>, more: seq<Byte>)
    requires i < |bytes| && Unescaped(rest) == Some(more)
    ensures AllPlain(EncodedByte(bytes, i)) && Unescaped(Bytes(EncodedByte(bytes, i)) + rest) == Some([bytes[i]] + more)
  {
    hide Unescaped, Escaped;
    if Literal(bytes, i) {
      LiteralReadsBack(bytes[i], rest, more);
    } else {
      EscapedReadsBack(bytes[i], rest, more);
    }
  }

  lemma LiteralReadsBack(b: Byte, rest: seq<Byte>, more: seq<Byte>)
    requires Unescaped(rest) == Some(more) && b < 0x80 && b != '%' as int && b != ',' as int
    ensures AllPlain([b as char]) && Unescaped(Bytes([b as char]) + rest) == Some([b] + more)
  {
    assert (Bytes([b as char]) + rest)[1..] == rest;
  }

  lemma {:induction false} EncodedReadsBack(bytes: seq<Byte>, n: nat, rest: seq<Byte>, more: seq<Byte>)
    requires n <= |bytes| && Unescaped(rest) == Some(more)
    ensures AllPlain(EncodedTo(bytes, n))
    ensures Unescaped(Bytes(EncodedTo(bytes, n)) + rest) == Some(bytes[..n] + more)
  {
    hide Unescaped, EncodedByte;
    if n == 0 {
      assert Bytes("") + rest == rest && bytes[..0] + more == more;
    } else {
      var before, last := EncodedTo(bytes, n - 1), EncodedByte(bytes, n - 1);
      ByteReadsBack(bytes, n - 1, rest, more);
      EncodedReadsBack(bytes, n - 1, Bytes(last) + rest, [bytes[n - 1]] + more);
      assert Bytes(before + last) + rest == Bytes(before) + (Bytes(last) + rest);
      assert bytes[..n - 1] + ([bytes[n - 1]] + more) == bytes[..n] + more;
    }
  }

  /** The encoding without its first character, when that stands for the first byte as it is. */
  lemma {:induction false} TailReadsBack(bytes: seq<Byte>, n: nat, rest: seq<Byte>, more: seq<Byte>)
    requires 1 <= n <= |bytes| && Literal(bytes, 0) && Unescaped(rest) == Some(more)
    ensures |EncodedTo(bytes, n)| >= 1 && EncodedTo(bytes, n)[0] == bytes[0] as char
    ensures AllPlain(EncodedTo(bytes, n)[1..])
    ensures Unescaped(Bytes(EncodedTo(bytes, n)[1..]) + rest) == Some(bytes[1..n] + more)
  {
    hide Unescaped, EncodedByte;
    if n == 1 {
      FirstLiteral(bytes);
      assert Bytes("") + rest == rest && bytes[1..1] + more == more;
    } else {
      var before, last := EncodedTo(bytes, n - 1), EncodedByte(bytes, n - 1);
      ByteReadsBack(bytes, n - 1, rest, more);
      TailReadsBack(bytes, n - 1, Bytes(last) + rest, [bytes[n - 1]] + more);
      assert (before + last)[1..] == before[1..] + last;
      assert Bytes(before[1..] + last) + rest == Bytes(before[1..]) + (Bytes(last) + rest);
      assert bytes[1..n - 1] + ([bytes[n - 1]] + more) == bytes[1..n] + more;
    }
  }

  lemma FirstLiteral(bytes: seq<Byte>)
    requires bytes != [] && Literal(bytes, 0)
    ensures EncodedTo(bytes, 1) == [bytes[0] as char]
  {
    assert EncodedTo(bytes, 0) == "";
  }

  lemma DeviceStartsLiteral(text: string)
    requires DeviceName(text)
    ensures Encode(text) != [] && Literal(Encode(text), 0) && Encode(text)[0] == text[0] as int
    ensures LetterOrDigit(text[0])
  {
    var base := text[..DotAt(text)];
    assert Lower(base)[0] == Lowered(text[0]);
  }

  /** A component reads back from its encoding, and the encoding holds no comma. */
  lemma PercentReadsBack(text: string, single: bool)
    ensures AllPlain(ReldirEncoded(text, single))
    ensures PercentDecoded(ReldirEncoded(text, single)) == Some(text)
  {
    hide Encode, Unescaped, EncodedTo, Decode, DeviceName, Literal, Escaped;
    var bytes := Encode(text);
    NothingUnescaped();
    TextReadsBack(text);
    if single && DeviceName(text) {
      DeviceStartsLiteral(text);
      TailReadsBack(bytes, |bytes|, [], []);
      var tail := EncodedTo(bytes, |bytes|)[1..];
      assert Bytes(tail) + [] == Bytes(tail) && bytes[1..|bytes|] + [] == bytes[1..];
      EscapedReadsBack(bytes[0], Bytes(tail), bytes[1..]);
      var out := Escaped(bytes[0]) + tail;
      assert Bytes(out) == Bytes(Escaped(bytes[0])) + Bytes(tail);
      assert [bytes[0]] + bytes[1..] == bytes;
      BytesAre(out);
    } else {
      EncodedReadsBack(bytes, |bytes|, [], []);
      var out := EncodedTo(bytes, |bytes|);
      assert Bytes(out) + [] == Bytes(out) && bytes[..|bytes|] + [] == bytes;
      BytesAre(out);
    }
  }

  lemma NothingUnescaped()
    ensures Unescaped([]) == Some([])
  {
  }
}
