/** Character classes: sets of characters in one normal form, written and read back. */
module Alphabets {
  import opened Json
  import opened Order
  import opened Sequences

  /** An inclusive range of characters. */
  datatype Range = Range(lo: char, hi: char)

  datatype Alphabet = Alphabet(ranges: seq<Range>)

  datatype Result<+T> = Ok(value: T) | Err(reason: string)

  predicate Within(c: char, r: Range) {
    r.lo <= c <= r.hi
  }

  predicate In(c: char, ranges: seq<Range>) {
    exists r | r in ranges :: Within(c, r)
  }

  /** The next character, where the next code point is one. */
  predicate Follows(c: char, d: char) {
    c as int + 1 == d as int
  }

  ghost predicate Proper(ranges: seq<Range>) {
    forall r | r in ranges :: r.lo <= r.hi
  }

  /** Sorted, disjoint, and no two adjacent. */
  ghost predicate Normal(ranges: seq<Range>) {
    && Proper(ranges)
    && forall i, j | 0 <= i < j < |ranges| :: ranges[i].hi < ranges[j].lo && !Follows(ranges[i].hi, ranges[j].lo)
  }

  ghost predicate Valid(a: Alphabet) {
    a.ranges != [] && Normal(a.ranges) && !In('/', a.ranges) && !In('\0', a.ranges)
  }

  // ----- the normal form ------------------------------------------------------------------------

  function CompareRanges(a: Range, b: Range): Ordering {
    CompareInts(a.lo as int, b.lo as int).Then(CompareInts(a.hi as int, b.hi as int))
  }

  /** Take a range in after those before it: joined to the last, when it overlaps or follows it. */
  function Taken(merged: seq<Range>, r: Range): seq<Range> {
    if merged != [] && (r.lo <= merged[|merged| - 1].hi || Follows(merged[|merged| - 1].hi, r.lo)) then
      var last := merged[|merged| - 1];
      merged[|merged| - 1 := Range(last.lo, if last.hi < r.hi then r.hi else last.hi)]
    else merged + [r]
  }

  function Merged(ranges: seq<Range>): seq<Range> {
    if ranges == [] then [] else Taken(Merged(ranges[..|ranges| - 1]), ranges[|ranges| - 1])
  }

  function FromRanges(ranges: seq<Range>): Result<Alphabet> {
    if ranges == [] then Err("an alphabet holds at least one character")
    else if In('/', ranges) || In('\0', ranges) then Err("an alphabet cannot hold a separator or NUL")
    else Ok(Alphabet(Merged(Sort(CompareRanges, ranges))))
  }

  ghost predicate Ascending(ranges: seq<Range>) {
    forall i, j | 0 <= i < j < |ranges| :: ranges[i].lo <= ranges[j].lo
  }

  lemma {:induction false} TakenHolds(merged: seq<Range>, r: Range, c: char)
    requires Normal(merged) && r.lo <= r.hi
    requires merged != [] ==> merged[|merged| - 1].lo <= r.lo
    ensures In(c, Taken(merged, r)) <==> In(c, merged) || Within(c, r)
  {
    var after := Taken(merged, r);
    if merged != [] && |after| == |merged| {
      var n := |merged| - 1;
      var last := merged[n];
      assert merged == merged[..n] + [last] && after == merged[..n] + [after[n]];
      assert Within(c, after[n]) <==> Within(c, last) || Within(c, r);
    }
  }

  lemma {:induction false} TakenIsNormal(merged: seq<Range>, r: Range)
    requires Normal(merged) && r.lo <= r.hi
    requires merged != [] ==> merged[|merged| - 1].lo <= r.lo
    ensures Normal(Taken(merged, r))
    ensures Taken(merged, r) != [] && Taken(merged, r)[|Taken(merged, r)| - 1].lo <= r.lo
  {
    var after := Taken(merged, r);
    forall i | 0 <= i < |after| ensures after[i].lo <= after[i].hi {
      if i < |merged| { assert merged[i] in merged; }
    }
  }

  /** Merging ranges in order gives the normal form of the same characters. */
  lemma {:induction false} MergedIsNormal(ranges: seq<Range>)
    requires Proper(ranges) && Ascending(ranges)
    ensures Normal(Merged(ranges))
    ensures forall c :: In(c, Merged(ranges)) <==> In(c, ranges)
    ensures ranges != [] ==> Merged(ranges) != [] && Merged(ranges)[|Merged(ranges)| - 1].lo <= ranges[|ranges| - 1].lo
  {
    hide Normal, In, Taken, Proper, Ascending;
    if ranges == [] {
      NothingIsNormal();
    } else {
      var front, last := ranges[..|ranges| - 1], ranges[|ranges| - 1];
      FrontIsOrdered(ranges);
      MergedIsNormal(front);
      TakingOneMore(front, last, Merged(front));
      assert ranges == front + [last];
    }
  }

  lemma FrontIsOrdered(ranges: seq<Range>)
    requires Proper(ranges) && Ascending(ranges) && ranges != []
    ensures var front, last := ranges[..|ranges| - 1], ranges[|ranges| - 1];
      && Proper(front) && Ascending(front) && last.lo <= last.hi
      && (front != [] ==> front[|front| - 1].lo <= last.lo)
  {
    assert ranges[|ranges| - 1] in ranges && forall r | r in ranges[..|ranges| - 1] :: r in ranges;
  }

  lemma NothingIsNormal()
    ensures Normal([]) && Merged([]) == []
  {
  }

  lemma {:induction false} TakingOneMore(front: seq<Range>, last: Range, merged: seq<Range>)
    requires Normal(merged) && last.lo <= last.hi && (merged != [] ==> merged[|merged| - 1].lo <= last.lo)
    requires forall c :: In(c, merged) <==> In(c, front)
    ensures var after := Taken(merged, last);
      && Normal(after) && after != [] && after[|after| - 1].lo <= last.lo
      && forall c :: In(c, after) <==> In(c, front + [last])
  {
    hide Normal, Taken;
    TakenIsNormal(merged, last);
    forall c ensures In(c, Taken(merged, last)) <==> In(c, front + [last]) {
      TakenHolds(merged, last, c);
      InOneMore(front, last, c);
    }
  }

  lemma InOneMore(front: seq<Range>, last: Range, c: char)
    ensures In(c, front + [last]) <==> In(c, front) || Within(c, last)
  {
  }

  lemma RangesAreOrdered()
    ensures Preorder(CompareRanges)
  {
  }

  lemma {:induction false} SortedRanges(ranges: seq<Range>)
    requires Proper(ranges)
    ensures var sorted := Sort(CompareRanges, ranges);
      Proper(sorted) && Ascending(sorted) && |sorted| == |ranges| && forall c :: In(c, sorted) <==> In(c, ranges)
  {
    hide Sort;
    var sorted := Sort(CompareRanges, ranges);
    RangesAreOrdered();
    SortSorts(CompareRanges, ranges);
    SortKeepsAll(CompareRanges, ranges);
    assert |sorted| == |multiset(sorted)| == |multiset(ranges)| == |ranges|;
    forall r ensures r in sorted <==> r in ranges {
      assert r in multiset(sorted) <==> r in multiset(ranges);
    }
  }

  /** The alphabet of some ranges is in normal form and holds exactly their characters. */
  lemma {:induction false} FromRangesHolds(ranges: seq<Range>)
    requires Proper(ranges)
    ensures FromRanges(ranges).Ok? <==> ranges != [] && !In('/', ranges) && !In('\0', ranges)
    ensures FromRanges(ranges).Ok? ==>
      Valid(FromRanges(ranges).value) && forall c :: In(c, FromRanges(ranges).value.ranges) <==> In(c, ranges)
  {
    hide Sort, Merged;
    SortedRanges(ranges);
    MergedIsNormal(Sort(CompareRanges, ranges));
  }

  // ----- one form per set, but for the gap in the code points ----------------------------------------

  /** One range ends and the next begins where the surrogates, which are no characters, stand between. */
  ghost predicate SplitsGap(ranges: seq<Range>) {
    exists i | 0 <= i < |ranges| - 1 :: BeforeGap(ranges[i]) && ranges[i + 1].lo as int == 0xE000
  }

  ghost predicate BeforeGap(r: Range) {
    r.hi as int == 0xD7FF
  }

  lemma {:induction false} FirstIsLeast(ranges: seq<Range>, c: char)
    requires Normal(ranges) && In(c, ranges)
    ensures ranges != [] && ranges[0].lo <= c
  {
    var r :| r in ranges && Within(c, r);
    var i :| 0 <= i < |ranges| && ranges[i] == r;
    assert ranges[0] in ranges;
    if i > 0 { assert ranges[0].hi < ranges[i].lo; }
  }

  lemma {:induction false} RestOfNormal(ranges: seq<Range>)
    requires Normal(ranges) && ranges != []
    ensures Normal(ranges[1..])
    ensures forall c :: In(c, ranges[1..]) <==> In(c, ranges) && c > ranges[0].hi
    ensures SplitsGap(ranges[1..]) ==> SplitsGap(ranges)
  {
    hide In, SplitsGap;
    var rest := ranges[1..];
    assert forall r | r in rest :: r in ranges;
    forall c ensures In(c, rest) <==> In(c, ranges) && c > ranges[0].hi { InRest(ranges, c); }
    SplitRest(ranges);
  }

  lemma SplitRest(ranges: seq<Range>)
    requires ranges != []
    ensures SplitsGap(ranges[1..]) ==> SplitsGap(ranges)
  {
    var rest := ranges[1..];
    if i :| 0 <= i < |rest| - 1 && BeforeGap(rest[i]) && rest[i + 1].lo as int == 0xE000 {
      assert BeforeGap(ranges[i + 1]);
    }
  }

  lemma InRest(ranges: seq<Range>, c: char)
    requires Normal(ranges) && ranges != []
    ensures In(c, ranges[1..]) <==> In(c, ranges) && c > ranges[0].hi
  {
    hide Within;
    if r :| r in ranges[1..] && Within(c, r) {
      assert r in ranges;
      assert exists i | 1 <= i < |ranges| :: ranges[i] == r;
      BeyondFirst(ranges, c, r);
    }
    if In(c, ranges) && c > ranges[0].hi {
      var r :| r in ranges && Within(c, r);
      NotFirst(ranges, c, r);
    }
  }

  lemma BeyondFirst(ranges: seq<Range>, c: char, r: Range)
    requires Normal(ranges) && ranges != [] && Within(c, r) && exists i | 1 <= i < |ranges| :: ranges[i] == r
    ensures c > ranges[0].hi
  {
  }

  lemma NotFirst(ranges: seq<Range>, c: char, r: Range)
    requires ranges != [] && r in ranges && Within(c, r) && c > ranges[0].hi
    ensures r in ranges[1..]
  {
    var i :| 0 <= i < |ranges| && ranges[i] == r;
    assert ranges[1..][i - 1] == r;
  }

  /** A first range reaches as far as its characters do. */
  lemma {:induction false} ReachesAsFar(a: seq<Range>, b: seq<Range>)
    requires Normal(a) && Normal(b) && a != [] && b != [] && !SplitsGap(a)
    requires forall c :: In(c, b) ==> In(c, a)
    requires a[0].lo == b[0].lo
    ensures a[0].hi >= b[0].hi
  {
    assert a[0] in a && b[0] in b;
    if a[0].hi < b[0].hi {
      var next := if BeforeGap(a[0]) then 0xE000 else a[0].hi as int + 1;
      var d := next as char;
      assert Within(d, b[0]) && In(d, b);
      var r :| r in a && Within(d, r);
      var i :| 0 <= i < |a| && a[i] == r;
      SecondBeyond(a, d, i);
    }
  }

  lemma {:induction false} SecondBeyond(a: seq<Range>, d: char, i: nat)
    requires Normal(a) && a != [] && i < |a| && Within(d, a[i])
    requires if BeforeGap(a[0]) then d as int == 0xE000 else Follows(a[0].hi, d)
    ensures SplitsGap(a)
  {
    assert forall r | r in a :: r.lo <= r.hi;
    assert i > 0;
    assert a[0].hi < a[i].lo && !Follows(a[0].hi, a[i].lo);
    SecondBetween(a, i);
    assert BeforeGap(a[0]) && a[0 + 1].lo as int == 0xE000;
  }

  lemma SecondBetween(a: seq<Range>, i: nat)
    requires Normal(a) && 0 < i < |a|
    ensures i > 1 ==> a[0].hi < a[1].lo < a[i].lo
  {
    assert a[1] in a;
  }

  /** Two normal forms of the same characters are the same, when neither is split at the gap. */
  lemma {:induction false} NormalIsOne(a: seq<Range>, b: seq<Range>)
    requires Normal(a) && Normal(b) && !SplitsGap(a) && !SplitsGap(b)
    requires forall c :: In(c, a) <==> In(c, b)
    ensures a == b
  {
    hide Normal, SplitsGap, In, Within;
    BothEmpty(a, b);
    BothEmpty(b, a);
    if a != [] {
      SameFirst(a, b);
      RestOfNormal(a);
      RestOfNormal(b);
      NormalIsOne(a[1..], b[1..]);
      assert a == [a[0]] + a[1..] && b == [b[0]] + b[1..];
    }
  }

  lemma SameFirst(a: seq<Range>, b: seq<Range>)
    requires Normal(a) && Normal(b) && !SplitsGap(a) && !SplitsGap(b) && a != [] && b != []
    requires forall c :: In(c, a) <==> In(c, b)
    ensures a[0] == b[0]
  {
    hide SplitsGap;
    assert a[0] in a && b[0] in b && Within(a[0].lo, a[0]) && Within(b[0].lo, b[0]);
    FirstIsLeast(a, b[0].lo);
    FirstIsLeast(b, a[0].lo);
    ReachesAsFar(a, b);
    ReachesAsFar(b, a);
  }

  lemma BothEmpty(a: seq<Range>, b: seq<Range>)
    requires Normal(a) && forall c :: In(c, a) ==> In(c, b)
    ensures a != [] ==> b != []
  {
    if a != [] {
      assert a[0] in a && Within(a[0].lo, a[0]);
      assert In(a[0].lo, b);
    }
  }

  /** Where a split form breaks: what is below the gap, and what is above it. */
  lemma {:induction false} BreaksAtGap(ranges: seq<Range>) returns (n: nat)
    requires Normal(ranges) && SplitsGap(ranges)
    ensures n <= |ranges| && Normal(ranges[..n]) && Normal(ranges[n..])
    ensures !SplitsGap(ranges[..n]) && !SplitsGap(ranges[n..])
    ensures forall c :: In(c, ranges[..n]) <==> In(c, ranges) && c as int <= 0xD7FF
    ensures forall c :: In(c, ranges[n..]) <==> In(c, ranges) && c as int >= 0xE000
  {
    hide In, Within;
    var i :| 0 <= i < |ranges| - 1 && BeforeGap(ranges[i]) && ranges[i + 1].lo as int == 0xE000;
    n := i + 1;
    EachSide(ranges, i);
    PartsAreNormal(ranges, n);
    forall c
      ensures In(c, ranges[..n]) <==> In(c, ranges) && c as int <= 0xD7FF
      ensures In(c, ranges[n..]) <==> In(c, ranges) && c as int >= 0xE000
    {
      InASide(ranges, n, c);
    }
  }

  lemma {:induction false} EachSide(ranges: seq<Range>, i: nat)
    requires Normal(ranges) && i + 1 < |ranges| && BeforeGap(ranges[i]) && ranges[i + 1].lo as int == 0xE000
    ensures forall j | 0 <= j <= i :: ranges[j].hi as int <= 0xD7FF
    ensures forall j | i < j < |ranges| :: ranges[j].lo as int >= 0xE000 && ranges[j].hi as int >= 0xE000
  {
    forall j | 0 <= j < |ranges| ensures ranges[j].lo <= ranges[j].hi { assert ranges[j] in ranges; }
    forall j | 0 <= j < i ensures ranges[j].hi as int <= 0xD7FF {
      assert ranges[j].hi < ranges[i].lo;
    }
    forall j | i + 1 < j < |ranges| ensures ranges[j].lo as int >= 0xE000 {
      assert ranges[i + 1].hi < ranges[j].lo;
    }
  }

  lemma PartsAreNormal(ranges: seq<Range>, n: nat)
    requires Normal(ranges) && n <= |ranges|
    ensures Normal(ranges[..n]) && Normal(ranges[n..])
  {
    assert forall r | r in ranges[..n] || r in ranges[n..] :: r in ranges;
  }

  lemma InASide(ranges: seq<Range>, n: nat, c: char)
    requires 0 < n < |ranges|
    requires forall j | 0 <= j < n :: ranges[j].hi as int <= 0xD7FF
    requires forall j | n <= j < |ranges| :: ranges[j].lo as int >= 0xE000
    ensures In(c, ranges[..n]) <==> In(c, ranges) && c as int <= 0xD7FF
    ensures In(c, ranges[n..]) <==> In(c, ranges) && c as int >= 0xE000
  {
    assert ranges == ranges[..n] + ranges[n..];
    forall r | r in ranges[..n] ensures r.hi as int <= 0xD7FF {
      var j :| 0 <= j < n && ranges[..n][j] == r;
      assert ranges[j] == r;
    }
    forall r | r in ranges[n..] ensures r.lo as int >= 0xE000 {
      var j :| 0 <= j < |ranges| - n && ranges[n..][j] == r;
      assert ranges[n + j] == r;
    }
  }

  /** Two normal forms of the same characters are the same exactly when both are split at the gap, or neither is. */
  lemma {:induction false} NormalIsOneExactly(a: seq<Range>, b: seq<Range>)
    requires Normal(a) && Normal(b) && forall c :: In(c, a) <==> In(c, b)
    ensures a == b <==> (SplitsGap(a) <==> SplitsGap(b))
  {
    hide Normal, SplitsGap, In;
    if !SplitsGap(a) && !SplitsGap(b) {
      NormalIsOne(a, b);
    } else if SplitsGap(a) && SplitsGap(b) {
      var m := BreaksAtGap(a);
      var n := BreaksAtGap(b);
      NormalIsOne(a[..m], b[..n]);
      NormalIsOne(a[m..], b[n..]);
      assert a == a[..m] + a[m..] && b == b[..n] + b[n..];
    }
  }

  /** Split at the gap, the same characters have two normal forms. */
  lemma {:induction false} GapHasTwoForms()
    ensures var whole, split := [Range('\U{D000}', '\U{F000}')],
      [Range('\U{D000}', '\U{D7FF}'), Range('\U{E000}', '\U{F000}')];
      && FromRanges(whole) == Ok(Alphabet(whole)) && FromRanges(split) == Ok(Alphabet(split)) && whole != split
      && forall c :: In(c, whole) <==> In(c, split)
  {
    var lower, upper := Range('\U{D000}', '\U{D7FF}'), Range('\U{E000}', '\U{F000}');
    var whole, split := [Range('\U{D000}', '\U{F000}')], [lower, upper];
    hide Sort, Merged, In, Within;
    SortOfSorted(CompareRanges, whole);
    SortOfSorted(CompareRanges, split);
    OneMerges(whole[0]);
    ApartMerge(lower, upper);
    forall c: char
      ensures In(c, whole) <==> In(c, split)
      ensures c == '/' || c == '\0' ==> !In(c, whole)
    {
      InOne(whole[0], c);
      InTwo(lower, upper, c);
      GapIsEmpty(c);
    }
  }

  lemma OneMerges(r: Range)
    ensures Merged([r]) == [r]
  {
    assert [r][..0] == [] && Merged([]) == [];
  }

  lemma ApartMerge(a: Range, b: Range)
    requires a.hi < b.lo && !Follows(a.hi, b.lo)
    ensures Merged([a, b]) == [a, b]
  {
    OneMerges(a);
    assert [a, b][..1] == [a];
  }

  lemma InOne(r: Range, c: char)
    ensures In(c, [r]) <==> Within(c, r)
  {
    assert r in [r];
  }

  lemma InTwo(a: Range, b: Range, c: char)
    ensures In(c, [a, b]) <==> Within(c, a) || Within(c, b)
  {
    assert a in [a, b] && b in [a, b];
  }

  lemma GapIsEmpty(c: char)
    ensures Within(c, Range('\U{D000}', '\U{F000}')) <==>
      Within(c, Range('\U{D000}', '\U{D7FF}')) || Within(c, Range('\U{E000}', '\U{F000}'))
    ensures c == '/' || c == '\0' ==> !Within(c, Range('\U{D000}', '\U{F000}'))
  {
  }

  // ----- asking, and building ------------------------------------------------------------------------

  /** Whether an alphabet holds a character: a binary search. */
  method Contains(a: Alphabet, c: char) returns (found: bool)
    requires Normal(a.ranges)
    ensures found <==> In(c, a.ranges)
  {
    var lo, hi := 0, |a.ranges|;
    while lo < hi
      invariant 0 <= lo <= hi <= |a.ranges|
      invariant forall i | 0 <= i < lo :: a.ranges[i].hi < c
      invariant forall i | hi <= i < |a.ranges| :: c < a.ranges[i].lo
    {
      var mid := lo + (hi - lo) / 2;
      assert forall r | r in a.ranges :: r.lo <= r.hi;
      if a.ranges[mid].hi < c {
        assert forall i | 0 <= i < mid :: a.ranges[i].hi < a.ranges[mid].lo;
        lo := mid + 1;
      } else if a.ranges[mid].lo > c {
        assert forall i | mid < i < |a.ranges| :: a.ranges[mid].hi < a.ranges[i].lo;
        hi := mid;
      } else {
        assert Within(c, a.ranges[mid]);
        return true;
      }
    }
    found := false;
  }

  /** The alphabet of some ranges, in normal form. */
  method Build(ranges: seq<Range>) returns (r: Result<Alphabet>)
    ensures r == FromRanges(ranges)
  {
    if ranges == [] { return Err("an alphabet holds at least one character"); }
    if In('/', ranges) || In('\0', ranges) { return Err("an alphabet cannot hold a separator or NUL"); }
    var sorted := Sort(CompareRanges, ranges);
    var merged: seq<Range> := [];
    for i := 0 to |sorted|
      invariant merged == Merged(sorted[..i])
    {
      assert sorted[..i + 1][..i] == sorted[..i];
      var r := sorted[i];
      if merged != [] && (r.lo <= merged[|merged| - 1].hi || Follows(merged[|merged| - 1].hi, r.lo)) {
        var last := merged[|merged| - 1];
        merged := merged[|merged| - 1 := Range(last.lo, if last.hi < r.hi then r.hi else last.hi)];
      } else {
        merged := merged + [r];
      }
    }
    assert sorted[..|sorted|] == sorted;
    r := Ok(Alphabet(merged));
  }
}
