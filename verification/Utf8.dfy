/** Text as bytes, and back: UTF-8 as RFC 3629 section 3 lays it out. */
module Utf8 {
  import opened Json

  type Byte = b: int | 0 <= b < 256

  function EncodeChar(c: char): (bytes: seq<Byte>)
    ensures 1 <= |bytes| <= 4
  {
    var n := c as int;
    if n < 0x80 then [n]
    else if n < 0x800 then [0xC0 + n / 64, 0x80 + n % 64]
    else if n < 0x10000 then [0xE0 + n / 4096, 0x80 + n / 64 % 64, 0x80 + n % 64]
    else [0xF0 + n / 262144, 0x80 + n / 4096 % 64, 0x80 + n / 64 % 64, 0x80 + n % 64]
  }

  function Encode(text: string): (bytes: seq<Byte>)
    ensures |text| <= |bytes|
  {
    if text == "" then [] else EncodeChar(text[0]) + Encode(text[1..])
  }

  predicate Continues(b: Byte) { 0x80 <= b < 0xC0 }

  predicate IsScalar(n: int) {
    0 <= n < 0xD800 || 0xE000 <= n < 0x11_0000
  }

  function Low(b: Byte): int { b - 0x80 }

  function Two(a: int, b: int): int { a * 64 + b }

  function Three(a: int, b: int, c: int): int { a * 4096 + b * 64 + c }

  function Four(a: int, b: int, c: int, d: int): int { a * 262144 + b * 4096 + c * 64 + d }

  /** The first character of some bytes, and how many it takes; nothing for bytes no character starts with. */
  function DecodeChar(bytes: seq<Byte>): (r: Option<(char, nat)>)
    ensures r.Some? ==> 1 <= r.value.1 <= |bytes|
  {
    if bytes == [] then None
    else
      var b: int := bytes[0];
      if b < 0x80 then Some((b as char, 1))
      else if 0xC2 <= b < 0xE0 && |bytes| >= 2 && Continues(bytes[1]) then
        Some((Two(b - 0xC0, Low(bytes[1])) as char, 2))
      else if 0xE0 <= b < 0xF0 && |bytes| >= 3 && Continues(bytes[1]) && Continues(bytes[2]) then
        var n := Three(b - 0xE0, Low(bytes[1]), Low(bytes[2]));
        if n >= 0x800 && IsScalar(n) then Some((n as char, 3)) else None
      else if 0xF0 <= b < 0xF5 && |bytes| >= 4 && Continues(bytes[1]) && Continues(bytes[2]) && Continues(bytes[3]) then
        var n := Four(b - 0xF0, Low(bytes[1]), Low(bytes[2]), Low(bytes[3]));
        if n >= 0x10000 && IsScalar(n) then Some((n as char, 4)) else None
      else None
  }

  function Decode(bytes: seq<Byte>): Option<string>
    decreases |bytes|
  {
    if bytes == [] then Some("")
    else
      var first := DecodeChar(bytes);
      if first.None? then None
      else
        var rest := Decode(bytes[first.value.1..]);
        if rest.None? then None else Some([first.value.0] + rest.value)
  }

  lemma SixBits(n: nat)
    ensures n == Two(n / 64, n % 64)
    ensures n == Three(n / 4096, n / 64 % 64, n % 64)
    ensures n == Four(n / 262144, n / 4096 % 64, n / 64 % 64, n % 64)
  {
    assert n / 4096 == n / 64 / 64 && n / 262144 == n / 4096 / 64;
  }

  lemma CharReadsBack(c: char, rest: seq<Byte>)
    ensures DecodeChar(EncodeChar(c) + rest) == Some((c, |EncodeChar(c)|))
  {
    hide Two, Three, Four;
    SixBits(c as int);
  }

  /** Text reads back from its bytes. */
  lemma {:induction false} TextReadsBack(text: string)
    ensures Decode(Encode(text)) == Some(text)
  {
    if text != "" {
      hide DecodeChar, EncodeChar;
      CharReadsBack(text[0], Encode(text[1..]));
      TextReadsBack(text[1..]);
      var bytes := Encode(text);
      assert bytes[|EncodeChar(text[0])|..] == Encode(text[1..]);
      assert text == [text[0]] + text[1..];
    }
  }

  lemma Quotients(a: nat, b: nat, c: nat, d: nat)
    requires b < 64 && c < 64 && d < 64
    ensures Two(a, b) / 64 == a && Two(a, b) % 64 == b
    ensures Three(a, b, c) / 4096 == a && Three(a, b, c) / 64 % 64 == b && Three(a, b, c) % 64 == c
    ensures Four(a, b, c, d) / 262144 == a && Four(a, b, c, d) / 4096 % 64 == b
         && Four(a, b, c, d) / 64 % 64 == c && Four(a, b, c, d) % 64 == d
  {
    assert Three(a, b, c) / 64 == Two(a, b);
    assert Four(a, b, c, d) / 64 == Three(a, b, c);
    assert Four(a, b, c, d) / 4096 == Two(a, b);
  }

  lemma CharWritesBack(bytes: seq<Byte>)
    requires DecodeChar(bytes).Some?
    ensures EncodeChar(DecodeChar(bytes).value.0) == bytes[..DecodeChar(bytes).value.1]
  {
    var b: int := bytes[0];
    if b >= 0xF0 {
      FourWriteBack(bytes);
    } else if b >= 0xE0 {
      ThreeWriteBack(bytes);
    } else if b >= 0xC0 {
      Quotients(b - 0xC0, Low(bytes[1]), 0, 0);
    }
  }

  lemma ThreeWriteBack(bytes: seq<Byte>)
    requires DecodeChar(bytes).Some? && 0xE0 <= bytes[0] < 0xF0
    ensures EncodeChar(DecodeChar(bytes).value.0) == bytes[..DecodeChar(bytes).value.1]
  {
    hide Three;
    var b: int := bytes[0];
    Quotients(b - 0xE0, Low(bytes[1]), Low(bytes[2]), 0);
    ThreeBound(b - 0xE0, Low(bytes[1]), Low(bytes[2]));
  }

  lemma ThreeBound(a: nat, b: nat, c: nat)
    requires a < 16 && b < 64 && c < 64
    ensures Three(a, b, c) < 0x10000
  {
  }

  lemma FourWriteBack(bytes: seq<Byte>)
    requires DecodeChar(bytes).Some? && 0xF0 <= bytes[0]
    ensures EncodeChar(DecodeChar(bytes).value.0) == bytes[..DecodeChar(bytes).value.1]
  {
    hide Four;
    var b: int := bytes[0];
    Quotients(b - 0xF0, Low(bytes[1]), Low(bytes[2]), Low(bytes[3]));
  }

  /** And only the bytes of a text read as it. */
  lemma {:induction false} TextIsItsBytes(bytes: seq<Byte>)
    requires Decode(bytes).Some?
    ensures Encode(Decode(bytes).value) == bytes
    decreases |bytes|
  {
    if bytes != [] {
      hide DecodeChar, EncodeChar;
      var n := DecodeChar(bytes).value.1;
      CharWritesBack(bytes);
      TextIsItsBytes(bytes[n..]);
      var text := Decode(bytes).value;
      assert text[1..] == Decode(bytes[n..]).value;
      assert bytes == bytes[..n] + bytes[n..];
    }
  }

  /** A text in ASCII is its own bytes. */
  predicate Ascii(text: string) {
    forall i | 0 <= i < |text| :: text[i] as int < 0x80
  }

  lemma {:induction false} AsciiBytes(text: string)
    requires Ascii(text)
    ensures |Encode(text)| == |text| && forall i | 0 <= i < |text| :: Encode(text)[i] == text[i] as int
  {
    if text != "" { AsciiBytes(text[1..]); }
  }
}
