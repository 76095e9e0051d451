/** Total orders, and sorting by them: whichever way findings come, one order to put them in. */
module Order {
  import opened Json
  import opened Sequences

  datatype Ordering = Less | Equal | Greater {
    function Reverse(): Ordering {
      match this
      case Less => Greater
      case Equal => Equal
      case Greater => Less
    }

    /** Decide by `this`, and by `other` where it does not tell. */
    function Then(other: Ordering): Ordering {
      if this == Equal then other else this
    }
  }

  function CompareInts(a: int, b: int): Ordering {
    if a < b then Less else if a == b then Equal else Greater
  }

  /** Texts compare by code point, a prefix first. */
  function CompareStrings(a: string, b: string): Ordering {
    if a == "" && b == "" then Equal
    else if a == "" then Less
    else if b == "" then Greater
    else CompareInts(a[0] as int, b[0] as int).Then(CompareStrings(a[1..], b[1..]))
  }

  /** Absent before present. */
  function CompareOptional<T>(compare: (T, T) -> Ordering, a: Option<T>, b: Option<T>): Ordering {
    match (a, b)
    case (None, None) => Equal
    case (None, Some(_)) => Less
    case (Some(_), None) => Greater
    case (Some(x), Some(y)) => compare(x, y)
  }

  /** A strict total order whose ties are identical. */
  ghost predicate Total<T(!new)>(compare: (T, T) -> Ordering) {
    && (forall a, b :: compare(a, b) == Equal <==> a == b)
    && (forall a, b :: compare(a, b) == compare(b, a).Reverse())
    && (forall a, b, c :: compare(a, b) == Less && compare(b, c) == Less ==> compare(a, c) == Less)
  }

  lemma {:induction false} StringsEqual(a: string, b: string)
    ensures CompareStrings(a, b) == Equal <==> a == b
    ensures CompareStrings(a, b) == CompareStrings(b, a).Reverse()
  {
    if a != "" && b != "" {
      StringsEqual(a[1..], b[1..]);
      assert a == [a[0]] + a[1..] && b == [b[0]] + b[1..];
    }
  }

  lemma {:induction false} StringsTransitive(a: string, b: string, c: string)
    requires CompareStrings(a, b) == Less && CompareStrings(b, c) == Less
    ensures CompareStrings(a, c) == Less
  {
    if a != "" {
      StringsEqual(a[1..], b[1..]);
      StringsEqual(b[1..], c[1..]);
      if CompareStrings(a[1..], b[1..]) == Less && CompareStrings(b[1..], c[1..]) == Less {
        StringsTransitive(a[1..], b[1..], c[1..]);
      }
    }
  }

  lemma StringsAreTotal()
    ensures Total(CompareStrings)
  {
    forall a: string, b: string
      ensures CompareStrings(a, b) == Equal <==> a == b
      ensures CompareStrings(a, b) == CompareStrings(b, a).Reverse()
    {
      StringsEqual(a, b);
    }
    forall a: string, b: string, c: string | CompareStrings(a, b) == Less && CompareStrings(b, c) == Less
      ensures CompareStrings(a, c) == Less
    {
      StringsTransitive(a, b, c);
    }
  }

  // ----- sorting -------------------------------------------------------------------------

  ghost predicate SortedBy<T>(compare: (T, T) -> Ordering, xs: seq<T>) {
    forall i, j | 0 <= i < j < |xs| :: compare(xs[i], xs[j]) != Greater
  }

  /** Insert after every element that does not compare greater: equal keys keep their order. */
  function Insert<T>(compare: (T, T) -> Ordering, x: T, xs: seq<T>): seq<T> {
    if xs != [] && compare(xs[|xs| - 1], x) == Greater
    then Insert(compare, x, xs[..|xs| - 1]) + [xs[|xs| - 1]]
    else xs + [x]
  }

  function Sort<T>(compare: (T, T) -> Ordering, xs: seq<T>): seq<T> {
    if xs == [] then [] else Insert(compare, xs[|xs| - 1], Sort(compare, xs[..|xs| - 1]))
  }

  lemma {:induction false} InsertKeepsAll<T>(compare: (T, T) -> Ordering, x: T, xs: seq<T>)
    ensures multiset(Insert(compare, x, xs)) == multiset(xs) + multiset{x}
  {
    if xs != [] && compare(xs[|xs| - 1], x) == Greater {
      InsertKeepsAll(compare, x, xs[..|xs| - 1]);
      assert xs == xs[..|xs| - 1] + [xs[|xs| - 1]];
    }
  }

  lemma {:induction false} SortKeepsAll<T>(compare: (T, T) -> Ordering, xs: seq<T>)
    ensures multiset(Sort(compare, xs)) == multiset(xs)
  {
    if xs != [] {
      hide Insert;
      var front, last := xs[..|xs| - 1], xs[|xs| - 1];
      var sorted := Sort(compare, front);
      assert xs == front + [last];
      assert Sort(compare, xs) == Insert(compare, last, sorted);
      SortKeepsAll(compare, front);
      InsertKeepsAll(compare, last, sorted);
    }
  }

  lemma {:induction false} InsertSorts<T(!new)>(compare: (T, T) -> Ordering, x: T, xs: seq<T>)
    requires Preorder(compare) && SortedBy(compare, xs)
    ensures SortedBy(compare, Insert(compare, x, xs))
  {
    if xs != [] && compare(xs[|xs| - 1], x) == Greater {
      var front, last := xs[..|xs| - 1], xs[|xs| - 1];
      var inserted := Insert(compare, x, front);
      InsertSorts(compare, x, front);
      InsertKeepsAll(compare, x, front);
      assert Insert(compare, x, xs) == inserted + [last];
      forall i | 0 <= i < |inserted| ensures compare(inserted[i], last) != Greater {
        assert inserted[i] in multiset(inserted);
        assert inserted[i] in front || inserted[i] == x;
      }
    } else if xs != [] {
      forall i | 0 <= i < |xs| ensures compare(xs[i], x) != Greater {
        if i < |xs| - 1 {
          assert compare(xs[i], xs[|xs| - 1]) != Greater;
        }
      }
    }
  }

  /** An order in which ties need not be identical: what a stable sort by a key needs. */
  ghost predicate Preorder<T(!new)>(compare: (T, T) -> Ordering) {
    && (forall a, b :: compare(a, b) == compare(b, a).Reverse())
    && (forall a, b, c :: compare(a, b) != Greater && compare(b, c) != Greater ==> compare(a, c) != Greater)
  }

  lemma TotalIsPreorder<T(!new)>(compare: (T, T) -> Ordering)
    requires Total(compare)
    ensures Preorder(compare)
  {
  }

  lemma {:induction false} SortSorts<T(!new)>(compare: (T, T) -> Ordering, xs: seq<T>)
    requires Preorder(compare)
    ensures SortedBy(compare, Sort(compare, xs))
  {
    if xs != [] {
      SortSorts(compare, xs[..|xs| - 1]);
      InsertSorts(compare, xs[|xs| - 1], Sort(compare, xs[..|xs| - 1]));
    }
  }

  lemma GreatestsAgree<T(!new)>(compare: (T, T) -> Ordering, xs: seq<T>, ys: seq<T>)
    requires Total(compare) && SortedBy(compare, xs) && SortedBy(compare, ys)
    requires xs != [] && ys != [] && multiset(xs) == multiset(ys)
    ensures xs[|xs| - 1] == ys[|ys| - 1]
  {
    var x, y := xs[|xs| - 1], ys[|ys| - 1];
    assert x in multiset(ys) && y in multiset(xs);
    var k :| 0 <= k < |ys| && ys[k] == x;
    var m :| 0 <= m < |xs| && xs[m] == y;
    assert compare(x, y) != Greater && compare(y, x) != Greater;
  }

  lemma DropLast<T>(xs: seq<T>, ys: seq<T>)
    requires xs != [] && ys != [] && xs[|xs| - 1] == ys[|ys| - 1] && multiset(xs) == multiset(ys)
    ensures multiset(xs[..|xs| - 1]) == multiset(ys[..|ys| - 1])
  {
    var x := xs[|xs| - 1];
    assert xs == xs[..|xs| - 1] + [x] && ys == ys[..|ys| - 1] + [x];
    CancelOne(multiset(xs[..|xs| - 1]), multiset(ys[..|ys| - 1]), x);
  }

  /** Two sorted arrangements of the same elements are the same sequence. */
  lemma {:induction false} SortedIsUnique<T(!new)>(compare: (T, T) -> Ordering, xs: seq<T>, ys: seq<T>)
    requires Total(compare) && SortedBy(compare, xs) && SortedBy(compare, ys)
    requires multiset(xs) == multiset(ys)
    ensures xs == ys
    decreases |xs|
  {
    hide Total;
    assert |xs| == |multiset(xs)| && |ys| == |multiset(ys)|;
    if xs != [] {
      GreatestsAgree(compare, xs, ys);
      DropLast(xs, ys);
      SortedIsUnique(compare, xs[..|xs| - 1], ys[..|ys| - 1]);
      assert xs == xs[..|xs| - 1] + [xs[|xs| - 1]];
      assert ys == ys[..|ys| - 1] + [ys[|ys| - 1]];
    }
  }

  /** Sorting forgets the order things came in. */
  lemma SortIgnoresOrder<T(!new)>(compare: (T, T) -> Ordering, xs: seq<T>, ys: seq<T>)
    requires Total(compare) && multiset(xs) == multiset(ys)
    ensures Sort(compare, xs) == Sort(compare, ys)
  {
    TotalIsPreorder(compare);
    SortSorts(compare, xs);
    SortSorts(compare, ys);
    SortKeepsAll(compare, xs);
    SortKeepsAll(compare, ys);
    SortedIsUnique(compare, Sort(compare, xs), Sort(compare, ys));
  }

  // ----- sorting in parts -------------------------------------------------------------------------

  lemma {:induction false} SortOfSorted<T>(compare: (T, T) -> Ordering, xs: seq<T>)
    requires SortedBy(compare, xs)
    ensures Sort(compare, xs) == xs
  {
    if xs != [] {
      SortOfSorted(compare, xs[..|xs| - 1]);
    }
  }

  lemma {:induction false} InsertFirst<T>(compare: (T, T) -> Ordering, x: T, front: seq<T>, back: seq<T>)
    requires forall y | y in back :: compare(y, x) == Greater
    ensures Insert(compare, x, front + back) == Insert(compare, x, front) + back
  {
    if back == [] {
      assert front + back == front && Insert(compare, x, front) + back == Insert(compare, x, front);
    } else {
      var rest, last := back[..|back| - 1], back[|back| - 1];
      assert last in back && forall y | y in rest :: y in back;
      InsertFirst(compare, x, front, rest);
      assert (front + back)[..|front + back| - 1] == front + rest;
      assert Insert(compare, x, front) + rest + [last] == Insert(compare, x, front) + back;
    }
  }

  lemma {:induction false} InsertLast<T>(compare: (T, T) -> Ordering, x: T, front: seq<T>, back: seq<T>)
    requires forall y | y in front :: compare(y, x) != Greater
    ensures Insert(compare, x, front + back) == front + Insert(compare, x, back)
  {
    if back == [] {
      assert front + back == front;
    } else {
      var rest, last := back[..|back| - 1], back[|back| - 1];
      assert (front + back)[..|front + back| - 1] == front + rest;
      assert (front + back)[|front + back| - 1] == last;
      if compare(last, x) == Greater {
        InsertLast(compare, x, front, rest);
        assert front + Insert(compare, x, rest) + [last] == front + (Insert(compare, x, rest) + [last]);
      } else {
        assert front + back + [x] == front + (back + [x]);
      }
    }
  }

  /** Elements that all come before the others can be sorted apart from them. */
  lemma {:induction false} SortInParts<T>(compare: (T, T) -> Ordering, first: T -> bool, xs: seq<T>)
    requires forall x, y | x in xs && y in xs && first(x) && !first(y) ::
      compare(x, y) == Less && compare(y, x) == Greater
    ensures Sort(compare, xs) == Sort(compare, Filter(first, xs)) + Sort(compare, Filter(Not(first), xs))
  {
    if xs != [] {
      var front, last := xs[..|xs| - 1], xs[|xs| - 1];
      var others := Not(first);
      var a, b := Filter(first, front), Filter(others, front);
      assert last in xs && forall x | x in front :: x in xs;
      SortInParts(compare, first, front);
      SortHolds(compare, a);
      SortHolds(compare, b);
      if first(last) {
        InsertFirst(compare, last, Sort(compare, a), Sort(compare, b));
        assert (a + [last])[..|a|] == a;
        assert Filter(others, xs) == b + [] == b;
      } else {
        InsertLast(compare, last, Sort(compare, a), Sort(compare, b));
        assert (b + [last])[..|b|] == b;
        assert Filter(first, xs) == a + [] == a;
      }
    }
  }

  lemma {:induction false} SortHolds<T>(compare: (T, T) -> Ordering, xs: seq<T>)
    ensures forall x | x in Sort(compare, xs) :: x in xs
  {
    SortKeepsAll(compare, xs);
    forall x | x in Sort(compare, xs) ensures x in xs {
      assert x in multiset(Sort(compare, xs));
    }
  }
}
