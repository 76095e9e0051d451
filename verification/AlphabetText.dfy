/** A character class as text: what it is described as reads back as the same alphabet. */
module AlphabetText {
  import opened Json
  import opened Lexical
  import opened Order
  import opened Sequences
  import opened Utf8
  import opened Alphabets

  datatype Atom = Char(c: char) | Dash

  // ----- hexadecimal ------------------------------------------------------------------------------

  predicate HexDigit(c: char) {
    Digit(c) || LowerHex(c) || UpperHex(c)
  }

  function HexDigitValue(c: char): (n: nat)
    requires HexDigit(c)
    ensures n < 16
  {
    if Digit(c) then c as int - '0' as int
    else if LowerHex(c) then c as int - 'a' as int + 10
    else c as int - 'A' as int + 10
  }

  function HexChar(n: nat): (c: char)
    requires n < 16
    ensures HexDigit(c) && HexDigitValue(c) == n && c != '}'
  {
    if n < 10 then ('0' as int + n) as char else ('A' as int + n - 10) as char
  }

  predicate HexDigits(s: string) {
    forall i | 0 <= i < |s| :: HexDigit(s[i])
  }

  function HexValue(s: string): nat
    requires HexDigits(s)
  {
    if s == "" then 0
    else assert HexDigit(s[|s| - 1]); HexValue(s[..|s| - 1]) * 16 + HexDigitValue(s[|s| - 1])
  }

  /** Upper-case hexadecimal, with no leading zero. */
  function HexText(n: nat): (s: string)
    ensures s != "" && HexDigits(s) && '}' !in s
  {
    if n < 16 then [HexChar(n)] else HexText(n / 16) + [HexChar(n % 16)]
  }

  lemma {:induction false} HexReadsBack(n: nat)
    ensures HexValue(HexText(n)) == n
    ensures n < 16 ==> |HexText(n)| <= 1
    ensures n < 256 ==> |HexText(n)| <= 2
    ensures n < 4096 ==> |HexText(n)| <= 3
    ensures n < 65536 ==> |HexText(n)| <= 4
    ensures n < 1048576 ==> |HexText(n)| <= 5
    ensures n < 16777216 ==> |HexText(n)| <= 6
  {
    var s := HexText(n);
    if n < 16 {
      assert s[..0] == "";
    } else {
      HexReadsBack(n / 16);
      assert s[..|s| - 1] == HexText(n / 16);
    }
  }

  // ----- writing --------------------------------------------------------------------------------------

  /**
   A character as written. Control characters, whitespace and combining marks -- the special ones
   -- by code point.
   */
  function Escape(special: char -> bool, c: char): string {
    if c == '\\' then ['\\', '\\']
    else if c == '-' then ['\\', '-']
    else if special(c) then ['\\', 'u', '{'] + HexText(c as int) + ['}']
    else [c]
  }

  /** Two characters in a row are written without a hyphen between them. */
  function DescribeRange(special: char -> bool): Range -> string {
    (r: Range) =>
      if r.lo == r.hi then Escape(special, r.lo)
      else if Follows(r.lo, r.hi) then Escape(special, r.lo) + Escape(special, r.hi)
      else Escape(special, r.lo) + ['-'] + Escape(special, r.hi)
  }

  function Describe(special: char -> bool, a: Alphabet): string {
    Flat(DescribeRange(special), a.ranges)
  }

  // ----- reading ---------------------------------------------------------------------------------------

  function Ahead<T>(x: T, rest: Result<seq<T>>): Result<seq<T>> {
    if rest.Ok? then Ok([x] + rest.value) else rest
  }

  /** Where the brace that ends an escape stands, or past the end. */
  function BraceAt(s: string): (i: nat)
    ensures i <= |s|
  {
    if s == "" || s[0] == '}' then 0 else 1 + BraceAt(s[1..])
  }

  /** A code point in hexadecimal, and the brace after it. */
  function CodePoint(s: string): (r: Result<(char, nat)>)
    ensures r.Ok? ==> r.value.1 <= |s|
  {
    var end := BraceAt(s);
    var hex := s[..end];
    if hex == "" || |hex| > 6 || !HexDigits(hex) then Err("not a code point")
    else if !IsScalar(HexValue(hex)) then Err("not a character")
    else Ok((HexValue(hex) as char, if end < |s| then end + 1 else end))
  }

  /** The first atom of a description, and how much of it that takes. */
  function FirstAtom(s: string): (r: Result<(Atom, nat)>)
    requires s != ""
    ensures r.Ok? ==> 1 <= r.value.1 <= |s|
  {
    if s[0] == '-' then Ok((Dash, 1))
    else if s[0] != '\\' then Ok((Char(s[0]), 1))
    else if |s| == 1 then Err("a description cannot end in a lone \\")
    else if s[1] == '\\' || s[1] == '-' then Ok((Char(s[1]), 2))
    else if s[1] != 'u' then Err("not an escape")
    else if |s| == 2 || s[2] != '{' then Err("\\u is written \\u{HEX}")
    else
      var point := CodePoint(s[3..]);
      if point.Err? then Err(point.reason) else Ok((Char(point.value.0), 3 + point.value.1))
  }

  function Atoms(s: string): Result<seq<Atom>>
    decreases |s|
  {
    if s == "" then Ok([])
    else
      var first := FirstAtom(s);
      if first.Err? then Err(first.reason) else Ahead(first.value.0, Atoms(s[first.value.1..]))
  }

  function RangesOf(atoms: seq<Atom>): (r: Result<seq<Range>>)
    ensures r.Ok? ==> forall x | x in r.value :: x.lo <= x.hi
    decreases |atoms|
  {
    if atoms == [] then Ok([])
    else if atoms[0].Dash? then Err("a '-' must join two characters")
    else if |atoms| >= 2 && atoms[1].Dash? then
      if |atoms| == 2 || atoms[2].Dash? then Err("a '-' must join two characters")
      else if atoms[2].c < atoms[0].c then Err("the range is reversed")
      else Ahead(Range(atoms[0].c, atoms[2].c), RangesOf(atoms[3..]))
    else Ahead(Range(atoms[0].c, atoms[0].c), RangesOf(atoms[1..]))
  }

  function Parse(description: string): Result<Alphabet> {
    var atoms := Atoms(description);
    if atoms.Err? then Err(atoms.reason)
    else
      var ranges := RangesOf(atoms.value);
      if ranges.Err? then Err(ranges.reason) else FromRanges(ranges.value)
  }

  // ----- what is written reads back ----------------------------------------------------------------------

  lemma {:induction false} BraceAfter(s: string, rest: string)
    requires '}' !in s
    ensures BraceAt(s + ['}'] + rest) == |s|
  {
    if s != "" {
      BraceAfter(s[1..], rest);
      assert (s + ['}'] + rest)[1..] == s[1..] + ['}'] + rest;
    }
  }

  lemma CodePointReadsBack(c: char, rest: string)
    ensures CodePoint(HexText(c as int) + ['}'] + rest) == Ok((c, |HexText(c as int)| + 1))
  {
    hide HexText, HexValue;
    var hex := HexText(c as int);
    HexReadsBack(c as int);
    BraceAfter(hex, rest);
    assert (hex + ['}'] + rest)[..|hex|] == hex;
  }

  lemma EscapeReadsBack(special: char -> bool, c: char, rest: string)
    ensures FirstAtom(Escape(special, c) + rest) == Ok((Char(c), |Escape(special, c)|))
  {
    hide CodePoint, HexText;
    var s := Escape(special, c) + rest;
    if c != '\\' && c != '-' && special(c) {
      CodePointReadsBack(c, rest);
      assert s[3..] == HexText(c as int) + ['}'] + rest;
    }
  }

  lemma AtomsAhead(special: char -> bool, c: char, rest: string)
    ensures Escape(special, c) + rest != ""
    ensures Atoms(Escape(special, c) + rest) == Ahead(Char(c), Atoms(rest))
  {
    hide Escape, FirstAtom;
    EscapeReadsBack(special, c, rest);
    var s, n := Escape(special, c) + rest, |Escape(special, c)|;
    EscapeIsSome(special, c);
    assert s[n..] == rest;
  }

  lemma EscapeIsSome(special: char -> bool, c: char)
    ensures Escape(special, c) != ""
  {
  }

  lemma DashAhead(rest: string)
    ensures Atoms(['-'] + rest) == Ahead(Dash, Atoms(rest))
  {
    assert (['-'] + rest)[1..] == rest;
  }

  function AtomsOf(): Range -> seq<Atom> {
    (r: Range) =>
      if r.lo == r.hi then [Char(r.lo)]
      else if Follows(r.lo, r.hi) then [Char(r.lo), Char(r.hi)]
      else [Char(r.lo), Dash, Char(r.hi)]
  }

  function Pieces(): Range -> seq<Range> {
    (r: Range) => if r.lo != r.hi && Follows(r.lo, r.hi) then [Range(r.lo, r.lo), Range(r.hi, r.hi)] else [r]
  }

  lemma {:induction false} RangeReadsBack(special: char -> bool, r: Range, rest: string, atoms: seq<Atom>)
    requires Atoms(rest) == Ok(atoms)
    ensures Atoms(DescribeRange(special)(r) + rest) == Ok(AtomsOf()(r) + atoms)
  {
    hide Escape, Atoms;
    var lo, hi := Escape(special, r.lo), Escape(special, r.hi);
    if r.lo == r.hi {
      AtomsAhead(special, r.lo, rest);
    } else if Follows(r.lo, r.hi) {
      AtomsAhead(special, r.hi, rest);
      AtomsAhead(special, r.lo, hi + rest);
      assert lo + hi + rest == lo + (hi + rest);
      assert [Char(r.lo)] + ([Char(r.hi)] + atoms) == [Char(r.lo), Char(r.hi)] + atoms;
    } else {
      AtomsAhead(special, r.hi, rest);
      DashAhead(hi + rest);
      AtomsAhead(special, r.lo, ['-'] + (hi + rest));
      assert lo + ['-'] + hi + rest == lo + (['-'] + (hi + rest));
      assert [Char(r.lo)] + ([Dash] + ([Char(r.hi)] + atoms)) == [Char(r.lo), Dash, Char(r.hi)] + atoms;
    }
  }

  lemma {:induction false} DescriptionReadsBack(special: char -> bool, ranges: seq<Range>)
    ensures Atoms(Flat(DescribeRange(special), ranges)) == Ok(Flat(AtomsOf(), ranges))
  {
    hide DescribeRange, AtomsOf, Atoms;
    if ranges == [] {
      NothingReadsBack(special);
    } else {
      DescriptionReadsBack(special, ranges[1..]);
      RangeReadsBack(special, ranges[0], Flat(DescribeRange(special), ranges[1..]), Flat(AtomsOf(), ranges[1..]));
      FlatFirst(DescribeRange(special), ranges);
      FlatFirst(AtomsOf(), ranges);
    }
  }

  lemma NothingReadsBack(special: char -> bool)
    ensures Atoms(Flat(DescribeRange(special), [])) == Ok(Flat(AtomsOf(), []))
  {
  }

  lemma FlatFirst<T, U>(f: T -> seq<U>, xs: seq<T>)
    requires xs != []
    ensures Flat(f, xs) == f(xs[0]) + Flat(f, xs[1..])
  {
    assert xs == [xs[0]] + xs[1..];
    FlatBoth(f, [xs[0]], xs[1..]);
    FlatOne(f, xs[0]);
  }

  lemma {:induction false} AtomsReadBack(ranges: seq<Range>)
    requires forall r | r in ranges :: r.lo <= r.hi
    ensures RangesOf(Flat(AtomsOf(), ranges)) == Ok(Flat(Pieces(), ranges))
    ensures Flat(AtomsOf(), ranges) != [] ==> Flat(AtomsOf(), ranges)[0].Char?
  {
    if ranges != [] {
      var r, rest := ranges[0], ranges[1..];
      AtomsReadBack(rest);
      FlatFirst(AtomsOf(), ranges);
      FlatFirst(Pieces(), ranges);
      assert r in ranges;
      hide Flat;
      RangeAtoms(r, Flat(AtomsOf(), rest), Flat(Pieces(), rest));
    }
  }

  lemma RangeAtoms(r: Range, atoms: seq<Atom>, pieces: seq<Range>)
    requires r.lo <= r.hi && RangesOf(atoms) == Ok(pieces) && (atoms != [] ==> atoms[0].Char?)
    ensures RangesOf(AtomsOf()(r) + atoms) == Ok(Pieces()(r) + pieces)
    ensures AtomsOf()(r) + atoms != [] && (AtomsOf()(r) + atoms)[0].Char?
  {
    var all := AtomsOf()(r) + atoms;
    if r.lo == r.hi {
      assert all[1..] == atoms;
    } else if Follows(r.lo, r.hi) {
      var second := [Char(r.hi)] + atoms;
      assert all[1..] == second && second[1..] == atoms;
      assert RangesOf(second) == Ok([Range(r.hi, r.hi)] + pieces);
      assert [Range(r.lo, r.lo)] + ([Range(r.hi, r.hi)] + pieces) == [Range(r.lo, r.lo), Range(r.hi, r.hi)] + pieces;
    } else {
      assert all[3..] == atoms;
    }
  }

  /** The pieces are in order, and merge into the ranges they came from. */
  lemma {:induction false} PiecesMerge(ranges: seq<Range>)
    requires Normal(ranges)
    ensures SortedBy(CompareRanges, Flat(Pieces(), ranges))
    ensures Merged(Flat(Pieces(), ranges)) == ranges
    ensures ranges != [] ==> forall p | p in Flat(Pieces(), ranges) :: p.lo <= ranges[|ranges| - 1].hi
  {
    hide Normal, Flat, Pieces, Merged, SortedBy;
    if ranges == [] {
      NoPieces();
    } else {
      var front, last := ranges[..|ranges| - 1], ranges[|ranges| - 1];
      LastApart(ranges);
      NoPieces();
      PiecesMerge(front);
      FlatLast(Pieces(), ranges);
      MergesLast(Flat(Pieces(), front), front, last);
      SortsLast(Flat(Pieces(), front), front, last);
    }
  }

  lemma NoPieces()
    ensures Flat(Pieces(), []) == [] == Merged([]) && SortedBy(CompareRanges, [])
  {
  }

  lemma LastApart(ranges: seq<Range>)
    requires Normal(ranges) && ranges != []
    ensures var front, last := ranges[..|ranges| - 1], ranges[|ranges| - 1];
      && Normal(front) && last.lo <= last.hi
      && (front != [] ==> front[|front| - 1].hi < last.lo && !Follows(front[|front| - 1].hi, last.lo))
  {
    var front, last := ranges[..|ranges| - 1], ranges[|ranges| - 1];
    assert last in ranges && forall r | r in front :: r in ranges;
  }

  lemma MergesLast(before: seq<Range>, front: seq<Range>, last: Range)
    requires Merged(before) == front && last.lo <= last.hi
    requires front != [] ==> front[|front| - 1].hi < last.lo && !Follows(front[|front| - 1].hi, last.lo)
    ensures Merged(before + Pieces()(last)) == front + [last]
  {
    var pieces := Pieces()(last);
    assert (before + [pieces[0]])[..|before|] == before;
    assert Merged(before + [pieces[0]]) == front + [pieces[0]];
    if |pieces| == 1 {
      assert before + pieces == before + [pieces[0]];
    } else {
      assert (before + pieces)[..|before| + 1] == before + [pieces[0]];
      assert Merged(before + pieces) == Taken(front + [pieces[0]], pieces[1]);
      assert (front + [pieces[0]])[|front| := last] == front + [last];
    }
  }

  lemma SortsLast(before: seq<Range>, front: seq<Range>, last: Range)
    requires SortedBy(CompareRanges, before) && last.lo <= last.hi
    requires front != [] ==> front[|front| - 1].hi < last.lo && forall p | p in before :: p.lo <= front[|front| - 1].hi
    requires front == [] ==> before == []
    ensures SortedBy(CompareRanges, before + Pieces()(last))
    ensures forall p | p in before + Pieces()(last) :: p.lo <= last.hi
  {
  }

  /** Every alphabet reads back from its description. */
  lemma AlphabetReadsBack(special: char -> bool, a: Alphabet)
    requires Valid(a)
    ensures Parse(Describe(special, a)) == Ok(a)
  {
    hide Flat, DescribeRange, AtomsOf, Atoms, RangesOf, Sort, Merged, In;
    var ranges := a.ranges;
    DescriptionReadsBack(special, ranges);
    AtomsReadBack(ranges);
    PiecesMerge(ranges);
    var pieces := Flat(Pieces(), ranges);
    SortOfSorted(CompareRanges, pieces);
    SamePieces(ranges, '/');
    SamePieces(ranges, '\0');
    NothingMerges();
    assert pieces != [];
    assert FromRanges(pieces) == Ok(Alphabet(ranges));
  }

  lemma NothingMerges()
    ensures Merged([]) == []
  {
  }

  lemma {:induction false} SamePieces(ranges: seq<Range>, c: char)
    requires forall r | r in ranges :: r.lo <= r.hi
    ensures In(c, Flat(Pieces(), ranges)) <==> In(c, ranges)
  {
    if ranges != [] {
      var front, last := ranges[..|ranges| - 1], ranges[|ranges| - 1];
      assert last in ranges && forall r | r in front :: r in ranges;
      SamePieces(front, c);
      assert ranges == front + [last];
      InEither(front, [last], c);
      InEither(Flat(Pieces(), front), Pieces()(last), c);
      LastPieces(last, c);
    }
  }

  lemma LastPieces(r: Range, c: char)
    requires r.lo <= r.hi
    ensures In(c, Pieces()(r)) <==> In(c, [r])
  {
    var pieces := Pieces()(r);
    assert r in [r];
    assert pieces[0] in pieces && pieces[|pieces| - 1] in pieces;
  }

  lemma InEither(a: seq<Range>, b: seq<Range>, c: char)
    ensures In(c, a + b) <==> In(c, a) || In(c, b)
  {
  }

  /** Only an alphabet in normal form is ever read. */
  lemma ParseIsValid(description: string)
    ensures Parse(description).Ok? ==> Valid(Parse(description).value)
  {
    hide Atoms, FromRanges, Valid;
    var atoms := Atoms(description);
    if atoms.Ok? && RangesOf(atoms.value).Ok? { FromRangesHolds(RangesOf(atoms.value).value); }
  }

  // ----- reading and writing, step by step ------------------------------------------------------------------

  /** What is read so far, ahead of the rest. */
  function After<T>(done: seq<T>, rest: Result<seq<T>>): Result<seq<T>> {
    if rest.Ok? then Ok(done + rest.value) else rest
  }

  lemma AfterNone<T>(done: seq<T>, rest: Result<seq<T>>)
    ensures After([], rest) == rest && After(done, Ok([])) == Ok(done)
  {
    if rest.Ok? { assert [] + rest.value == rest.value; }
    assert done + [] == done;
  }

  lemma AfterOne<T>(done: seq<T>, x: T, rest: Result<seq<T>>)
    ensures After(done, Ahead(x, rest)) == After(done + [x], rest)
  {
    if rest.Ok? { assert done + ([x] + rest.value) == done + [x] + rest.value; }
  }

  method ReadAtoms(description: string) returns (r: Result<seq<Atom>>)
    ensures r == Atoms(description)
  {
    hide FirstAtom, After;
    var atoms: seq<Atom> := [];
    var rest := description;
    AfterNone(atoms, Atoms(rest));
    while rest != ""
      invariant Atoms(description) == After(atoms, Atoms(rest))
      decreases |rest|
    {
      var first := FirstAtom(rest);
      if first.Err? {
        AfterErr(atoms, first.reason);
        return Err(first.reason);
      }
      AfterOne(atoms, first.value.0, Atoms(rest[first.value.1..]));
      atoms := atoms + [first.value.0];
      rest := rest[first.value.1..];
    }
    AfterNone(atoms, Ok([]));
    r := Ok(atoms);
  }

  lemma AfterErr<T>(done: seq<T>, reason: string)
    ensures After(done, Err(reason)) == Err(reason)
  {
  }

  method ReadRanges(atoms: seq<Atom>) returns (r: Result<seq<Range>>)
    ensures r == RangesOf(atoms)
  {
    hide After;
    var ranges: seq<Range> := [];
    var index := 0;
    assert atoms[0..] == atoms;
    AfterNone(ranges, RangesOf(atoms));
    while index < |atoms|
      invariant 0 <= index <= |atoms|
      invariant RangesOf(atoms) == After(ranges, RangesOf(atoms[index..]))
    {
      ghost var left := atoms[index..];
      AfterErr(ranges, "a '-' must join two characters");
      AfterErr(ranges, "the range is reversed");
      if atoms[index].Dash? { return Err("a '-' must join two characters"); }
      if index + 1 < |atoms| && atoms[index + 1].Dash? {
        if index + 2 == |atoms| || atoms[index + 2].Dash? { return Err("a '-' must join two characters"); }
        if atoms[index + 2].c < atoms[index].c { return Err("the range is reversed"); }
        AfterOne(ranges, Range(atoms[index].c, atoms[index + 2].c), RangesOf(left[3..]));
        assert left[3..] == atoms[index + 3..];
        ranges := ranges + [Range(atoms[index].c, atoms[index + 2].c)];
        index := index + 3;
      } else {
        AfterOne(ranges, Range(atoms[index].c, atoms[index].c), RangesOf(left[1..]));
        assert left[1..] == atoms[index + 1..];
        ranges := ranges + [Range(atoms[index].c, atoms[index].c)];
        index := index + 1;
      }
    }
    assert atoms[|atoms|..] == [];
    AfterNone(ranges, Ok([]));
    r := Ok(ranges);
  }

  /** Read a character-class description. */
  method Read(description: string) returns (r: Result<Alphabet>)
    ensures r == Parse(description)
  {
    hide Atoms, RangesOf, FromRanges;
    var atoms := ReadAtoms(description);
    if atoms.Err? { return Err(atoms.reason); }
    var ranges := ReadRanges(atoms.value);
    if ranges.Err? { return Err(ranges.reason); }
    r := Build(ranges.value);
  }

  /** Write an alphabet out. */
  method Write(special: char -> bool, a: Alphabet) returns (out: string)
    ensures out == Describe(special, a)
  {
    hide Escape, Flat;
    out := "";
    NothingDescribed(special);
    for i := 0 to |a.ranges|
      invariant out == Flat(DescribeRange(special), a.ranges[..i])
    {
      DescribeOneMore(special, a.ranges, i);
      var r := a.ranges[i];
      var text := Escape(special, r.lo);
      if r.lo != r.hi {
        if !Follows(r.lo, r.hi) { text := text + ['-']; }
        text := text + Escape(special, r.hi);
      }
      out := out + text;
    }
    assert a.ranges[..|a.ranges|] == a.ranges;
  }

  lemma NothingDescribed(special: char -> bool)
    ensures Flat(DescribeRange(special), []) == []
  {
  }

  lemma DescribeOneMore(special: char -> bool, ranges: seq<Range>, i: nat)
    requires i < |ranges|
    ensures Flat(DescribeRange(special), ranges[..i + 1])
      == Flat(DescribeRange(special), ranges[..i]) + DescribeRange(special)(ranges[i])
  {
    hide DescribeRange;
    assert ranges[..i + 1][..i] == ranges[..i];
  }
}
