/** What the proofs need to know about sequences and multisets in general. */
module Sequences {

  lemma CancelOne<T>(a: multiset<T>, b: multiset<T>, x: T)
    requires a + multiset{x} == b + multiset{x}
    ensures a == b
  {
    assert a == (a + multiset{x}) - multiset{x};
    assert b == (b + multiset{x}) - multiset{x};
  }

  /** A permutation of `xs` holds its last element somewhere; without it, the rest permute the rest. */
  lemma SplitPermutation<T>(xs: seq<T>, ys: seq<T>) returns (k: nat)
    requires xs != [] && multiset(xs) == multiset(ys)
    ensures k < |ys| && ys[k] == xs[|xs| - 1]
    ensures ys == ys[..k] + [ys[k]] + ys[k + 1..]
    ensures multiset(xs[..|xs| - 1]) == multiset(ys[..k] + ys[k + 1..])
  {
    var front, last := xs[..|xs| - 1], xs[|xs| - 1];
    assert xs == front + [last];
    assert last in multiset(ys);
    k :| 0 <= k < |ys| && ys[k] == last;
    assert ys == ys[..k] + [last] + ys[k + 1..];
    assert multiset(ys) == multiset(ys[..k] + ys[k + 1..]) + multiset{last};
    CancelOne(multiset(front), multiset(ys[..k] + ys[k + 1..]), last);
  }

  function Without<T>(xs: seq<T>, i: nat): (rest: seq<T>)
    requires i < |xs|
    ensures |rest| == |xs| - 1
    ensures forall k | 0 <= k < |rest| :: rest[k] == xs[if k < i then k else k + 1]
  {
    xs[..i] + xs[i + 1..]
  }

  lemma WithoutLosesOne<T>(xs: seq<T>, i: nat)
    requires i < |xs|
    ensures multiset(xs) == multiset(Without(xs, i)) + multiset{xs[i]}
  {
    assert xs == xs[..i] + [xs[i]] + xs[i + 1..];
  }

  function Apply<T, U>(f: T -> U, xs: seq<T>): (ys: seq<U>)
    ensures |ys| == |xs| && forall i | 0 <= i < |xs| :: ys[i] == f(xs[i])
  {
    seq(|xs|, i requires 0 <= i < |xs| => f(xs[i]))
  }

  lemma {:induction false} ApplyPermutation<T, U>(f: T -> U, xs: seq<T>, ys: seq<T>)
    requires multiset(xs) == multiset(ys)
    ensures multiset(Apply(f, xs)) == multiset(Apply(f, ys))
    decreases |xs|
  {
    if xs == [] {
      assert |ys| == |multiset(ys)| == 0;
    } else {
      var front, last := xs[..|xs| - 1], xs[|xs| - 1];
      var k := SplitPermutation(xs, ys);
      var before, after := ys[..k], ys[k + 1..];
      ApplyPermutation(f, front, before + after);
      assert Apply(f, xs) == Apply(f, front) + [f(last)];
      assert Apply(f, before + after) == Apply(f, before) + Apply(f, after);
      assert Apply(f, ys) == Apply(f, before) + [f(last)] + Apply(f, after);
    }
  }

  // ----- keeping some of the elements ---------------------------------------------------------

  function Filter<T>(keep: T -> bool, xs: seq<T>): (ys: seq<T>)
    ensures forall y | y in ys :: y in xs && keep(y)
    ensures forall x | x in xs && keep(x) :: x in ys
  {
    if xs == [] then [] else Filter(keep, xs[..|xs| - 1]) + (if keep(xs[|xs| - 1]) then [xs[|xs| - 1]] else [])
  }

  function Not<T>(keep: T -> bool): T -> bool {
    x => !keep(x)
  }

  function Both<T>(keep: T -> bool, also: T -> bool): T -> bool {
    x => keep(x) && also(x)
  }

  lemma {:induction false} FilterAgrees<T>(keep: T -> bool, also: T -> bool, xs: seq<T>)
    requires forall x | x in xs :: keep(x) == also(x)
    ensures Filter(keep, xs) == Filter(also, xs)
  {
    if xs != [] {
      assert forall x | x in xs[..|xs| - 1] :: x in xs;
      FilterAgrees(keep, also, xs[..|xs| - 1]);
    }
  }

  lemma {:induction false} FilterTwice<T>(keep: T -> bool, also: T -> bool, xs: seq<T>)
    ensures Filter(also, Filter(keep, xs)) == Filter(Both(keep, also), xs)
  {
    if xs != [] {
      FilterTwice(keep, also, xs[..|xs| - 1]);
      var front, last := Filter(keep, xs[..|xs| - 1]), xs[|xs| - 1];
      if keep(last) {
        assert (front + [last])[..|front|] == front;
      } else {
        assert front + [] == front;
      }
    }
  }

  lemma {:induction false} FilterOne<T>(keep: T -> bool, xs: seq<T>, k: nat)
    requires k < |xs| && forall i | 0 <= i < |xs| :: keep(xs[i]) <==> i == k
    ensures Filter(keep, xs) == [xs[k]]
  {
    var front, last := xs[..|xs| - 1], xs[|xs| - 1];
    if k == |xs| - 1 {
      FilterNone(keep, front);
    } else {
      FilterOne(keep, front, k);
    }
  }

  lemma {:induction false} FilterBoth<T>(keep: T -> bool, xs: seq<T>, ys: seq<T>)
    ensures Filter(keep, xs + ys) == Filter(keep, xs) + Filter(keep, ys)
  {
    if ys == [] {
      assert xs + ys == xs;
    } else {
      assert (xs + ys)[..|xs + ys| - 1] == xs + ys[..|ys| - 1];
      FilterBoth(keep, xs, ys[..|ys| - 1]);
    }
  }

  lemma {:induction false} FilterNone<T>(keep: T -> bool, xs: seq<T>)
    requires forall x | x in xs :: !keep(x)
    ensures Filter(keep, xs) == []
  {
    if Filter(keep, xs) != [] { assert Filter(keep, xs)[0] in Filter(keep, xs); }
  }

  // ----- lists made from lists ----------------------------------------------------------------

  function Flat<T, U>(f: T -> seq<U>, xs: seq<T>): seq<U> {
    if xs == [] then [] else Flat(f, xs[..|xs| - 1]) + f(xs[|xs| - 1])
  }

  lemma {:induction false} FlatHolds<T, U>(f: T -> seq<U>, xs: seq<T>, u: U)
    ensures u in Flat(f, xs) <==> exists i | 0 <= i < |xs| :: u in f(xs[i])
  {
    if xs != [] {
      var front := xs[..|xs| - 1];
      FlatHolds(f, front, u);
      assert forall i | 0 <= i < |front| :: front[i] == xs[i];
    }
  }

  lemma {:induction false} FlatBoth<T, U>(f: T -> seq<U>, xs: seq<T>, ys: seq<T>)
    ensures Flat(f, xs + ys) == Flat(f, xs) + Flat(f, ys)
  {
    if ys == [] {
      assert xs + ys == xs;
    } else {
      assert (xs + ys)[..|xs + ys| - 1] == xs + ys[..|ys| - 1];
      FlatBoth(f, xs, ys[..|ys| - 1]);
    }
  }

  lemma FlatOne<T, U>(f: T -> seq<U>, x: T)
    ensures Flat(f, [x]) == f(x)
  {
    assert [x][..0] == [];
  }

  lemma {:induction false} FlatAgrees<T, U>(f: T -> seq<U>, g: T -> seq<U>, xs: seq<T>)
    requires forall x | x in xs :: f(x) == g(x)
    ensures Flat(f, xs) == Flat(g, xs)
  {
    if xs != [] {
      assert forall x | x in xs[..|xs| - 1] :: x in xs;
      FlatAgrees(f, g, xs[..|xs| - 1]);
    }
  }

  lemma {:induction false} FlatFilter<T, U>(f: T -> seq<U>, keep: T -> bool, xs: seq<T>)
    requires forall x | x in xs && !keep(x) :: f(x) == []
    ensures Flat(f, xs) == Flat(f, Filter(keep, xs))
  {
    if xs != [] {
      var front, last := xs[..|xs| - 1], xs[|xs| - 1];
      assert forall x | x in front :: x in xs;
      assert last in xs;
      FlatFilter(f, keep, front);
      if keep(last) {
        assert (Filter(keep, front) + [last])[..|Filter(keep, front)|] == Filter(keep, front);
      } else {
        assert Filter(keep, front) + [] == Filter(keep, front);
      }
    }
  }

  lemma {:induction false} FlatPermutes<T, U>(f: T -> seq<U>, xs: seq<T>, ys: seq<T>)
    requires multiset(xs) == multiset(ys)
    ensures multiset(Flat(f, xs)) == multiset(Flat(f, ys))
    decreases |xs|
  {
    if xs == [] {
      assert |ys| == |multiset(ys)| == 0;
    } else {
      var front, last := xs[..|xs| - 1], xs[|xs| - 1];
      var k := SplitPermutation(xs, ys);
      var before, after := ys[..k], ys[k + 1..];
      FlatPermutes(f, front, before + after);
      FlatBoth(f, before, after);
      FlatBoth(f, before + [last], after);
      FlatBoth(f, before, [last]);
      FlatOne(f, last);
      hide Flat;
      assert ys == before + [last] + after;
      FlatLast(f, xs);
    }
  }

  lemma FlatLast<T, U>(f: T -> seq<U>, xs: seq<T>)
    requires xs != []
    ensures Flat(f, xs) == Flat(f, xs[..|xs| - 1]) + f(xs[|xs| - 1])
  {
  }

  lemma {:induction false} FlatSums<T, U>(f: T -> seq<U>, g: T -> seq<U>, h: T -> seq<U>, xs: seq<T>)
    requires forall x | x in xs :: multiset(f(x)) == multiset(g(x)) + multiset(h(x))
    ensures multiset(Flat(f, xs)) == multiset(Flat(g, xs)) + multiset(Flat(h, xs))
  {
    if xs != [] {
      var front, last := xs[..|xs| - 1], xs[|xs| - 1];
      assert last in xs && forall x | x in front :: x in xs;
      FlatSums(f, g, h, front);
    }
  }

  function Nested<T, U, V>(f: U -> seq<V>, g: T -> seq<U>): T -> seq<V> {
    x => Flat(f, g(x))
  }

  lemma {:induction false} FlatNests<T, U, V>(f: U -> seq<V>, g: T -> seq<U>, xs: seq<T>)
    ensures Flat(f, Flat(g, xs)) == Flat(Nested(f, g), xs)
  {
    if xs != [] {
      FlatNests(f, g, xs[..|xs| - 1]);
      FlatBoth(f, Flat(g, xs[..|xs| - 1]), g(xs[|xs| - 1]));
    }
  }

  // ----- without repeats ------------------------------------------------------------------------

  function Distinct<T(==)>(xs: seq<T>): seq<T> {
    if xs == [] then []
    else
      var rest := Distinct(xs[..|xs| - 1]);
      if xs[|xs| - 1] in rest then rest else rest + [xs[|xs| - 1]]
  }

  ghost predicate Once<T>(xs: seq<T>) {
    forall i, j | 0 <= i < j < |xs| :: xs[i] != xs[j]
  }

  lemma {:induction false} DistinctIsOnce<T>(xs: seq<T>)
    ensures Once(Distinct(xs))
  {
    if xs != [] { DistinctIsOnce(xs[..|xs| - 1]); }
  }

  lemma {:induction false} DistinctHolds<T>(xs: seq<T>, x: T)
    ensures x in Distinct(xs) <==> x in xs
  {
    if xs != [] {
      DistinctHolds(xs[..|xs| - 1], x);
      DistinctHolds(xs[..|xs| - 1], xs[|xs| - 1]);
    }
  }

  lemma {:induction false} OnceCounts<T>(xs: seq<T>, x: T)
    requires Once(xs)
    ensures multiset(xs)[x] == if x in xs then 1 else 0
  {
    if xs != [] {
      var front, last := xs[..|xs| - 1], xs[|xs| - 1];
      assert xs == front + [last];
      OnceCounts(front, x);
    }
  }

  lemma {:induction false} FilterOnce<T>(keep: T -> bool, xs: seq<T>)
    requires Once(xs)
    ensures Once(Filter(keep, xs))
  {
    if xs != [] { FilterOnce(keep, xs[..|xs| - 1]); }
  }

  /** Lists without repeats that hold the same elements are permutations. */
  lemma {:induction false} OnceSame<T(!new)>(xs: seq<T>, ys: seq<T>)
    requires Once(xs) && Once(ys) && forall x :: x in xs <==> x in ys
    ensures multiset(xs) == multiset(ys)
  {
    forall x ensures multiset(xs)[x] == multiset(ys)[x] {
      OnceCounts(xs, x);
      OnceCounts(ys, x);
    }
  }

  lemma {:induction false} PermutedOnce<T>(xs: seq<T>, ys: seq<T>)
    requires Once(xs) && multiset(xs) == multiset(ys)
    ensures Once(ys)
  {
    forall i, j | 0 <= i < j < |ys| ensures ys[i] != ys[j] {
      if ys[i] == ys[j] {
        assert ys == ys[..i] + [ys[i]] + ys[i + 1..j] + [ys[j]] + ys[j + 1..];
        assert multiset(ys)[ys[i]] >= 2;
        OnceCounts(xs, ys[i]);
      }
    }
  }
}
