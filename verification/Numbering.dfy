/** The numbers a clone gives revisions: in the order it first saw them, and never again differently. */
module Numbering {
  import opened Json
  import opened Order
  import opened Sequences

  type Id = string

  datatype Revision = Revision(timestamp: int, parents: seq<Id>)

  /** The revisions that can be loaded, and the heads. */
  datatype History = History(revisions: map<Id, Revision>, heads: seq<Id>)

  type Numbers = map<Id, nat>

  function TimeOf(revisions: map<Id, Revision>, id: Id): int {
    if id in revisions then revisions[id].timestamp else 0
  }

  /** By time, and then by id. */
  function ByTime(revisions: map<Id, Revision>): (Id, Id) -> Ordering {
    (a, b) => CompareInts(TimeOf(revisions, a), TimeOf(revisions, b)).Then(CompareStrings(a, b))
  }

  // ----- which revisions lack a number ----------------------------------------------------------------

  ghost predicate Linked(h: History, child: Id, parent: Id) {
    child in h.revisions && parent in h.revisions[child].parents
  }

  /** A way back from a head that meets no numbered revision. */
  ghost predicate WayBack(h: History, known: Numbers, way: seq<Id>) {
    && way != [] && way[0] in h.heads
    && (forall i | 0 <= i < |way| - 1 :: Linked(h, way[i], way[i + 1]))
    && (forall id | id in way :: id !in known)
  }

  /** A revision the walk back from the heads reaches before any that is numbered. */
  ghost predicate Unnumbered(h: History, known: Numbers, id: Id) {
    exists way | WayBack(h, known, way) :: way[|way| - 1] == id
  }

  ghost predicate Accounted(known: Numbers, seen: set<Id>, id: Id) {
    id in known || id in seen
  }

  /** The heads, and the parents of everything seen, are numbered or seen. */
  ghost predicate Closed(h: History, known: Numbers, seen: set<Id>) {
    && (forall id | id in h.heads :: Accounted(known, seen, id))
    && (forall child, parent | child in seen && Linked(h, child, parent) :: Accounted(known, seen, parent))
  }

  lemma {:induction false} ClosedHoldsTheWay(h: History, known: Numbers, seen: set<Id>, way: seq<Id>)
    requires Closed(h, known, seen) && WayBack(h, known, way)
    ensures way[|way| - 1] in seen
  {
    if |way| == 1 {
      assert Accounted(known, seen, way[0]);
    } else {
      var before := way[..|way| - 1];
      assert forall i | 0 <= i < |before| - 1 :: before[i] == way[i] && Linked(h, way[i], way[i + 1]);
      ClosedHoldsTheWay(h, known, seen, before);
      assert Linked(h, way[|way| - 2], way[|way| - 1]);
      assert Accounted(known, seen, way[|way| - 1]);
    }
  }

  lemma Further(h: History, known: Numbers, child: Id, parent: Id)
    requires Unnumbered(h, known, child) && Linked(h, child, parent) && parent !in known
    ensures Unnumbered(h, known, parent)
  {
    var way :| WayBack(h, known, way) && way[|way| - 1] == child;
    assert WayBack(h, known, way + [parent]) by {
      forall i | 0 <= i < |way| ensures Linked(h, (way + [parent])[i], (way + [parent])[i + 1]) {
        if i < |way| - 1 { assert Linked(h, way[i], way[i + 1]); }
      }
    }
    assert (way + [parent])[|way|] == parent;
  }

  // ----- numbering them ---------------------------------------------------------------------------------

  /** The highest number given yet. */
  ghost predicate Highest(known: Numbers, top: nat) {
    && (forall id | id in known :: known[id] <= top)
    && (top == 0 || exists id | id in known :: known[id] == top)
  }

  /** What lacked a number has one: the next after the highest, in order. */
  ghost predicate NumberedOn(h: History, known: Numbers, numbers: Numbers, order: seq<Id>) {
    && Once(order) && SortedBy(ByTime(h.revisions), order)
    && (forall id :: id in order <==> Unnumbered(h, known, id))
    && (forall id | id in order :: id in h.revisions)
    && (forall id :: id in numbers <==> id in known || id in order)
    && (forall id | id in known :: numbers[id] == known[id])
    && exists top :: Highest(known, top) && FromTop(numbers, order, top)
  }

  ghost predicate FromTop(numbers: Numbers, order: seq<Id>, top: nat) {
    forall i | 0 <= i < |order| :: order[i] in numbers && numbers[order[i]] == top + 1 + i
  }

  /** Walk back from the heads, stopping at the first numbered ancestor on each path. */
  method FindUnnumbered(h: History, known: Numbers) returns (found: Option<seq<Id>>)
    ensures found.Some? ==> Once(found.value) && forall id :: id in found.value <==> Unnumbered(h, known, id)
    ensures found.None? <==> exists id :: Unnumbered(h, known, id) && id !in h.revisions
  {
    hide Unnumbered, Walking, Once;
    var unnumbered: seq<Id> := [];
    var seen: set<Id> := {};
    var stack := h.heads;
    WalkBegins(h, known);
    while stack != []
      invariant seen <= h.revisions.Keys
      invariant Walking(h, known, seen, stack, unnumbered)
      decreases |h.revisions.Keys - seen|, |stack|
    {
      var id := stack[|stack| - 1];
      WalkSteps(h, known, seen, stack, unnumbered);
      stack := stack[..|stack| - 1];
      if id !in known && id !in seen {
        if id !in h.revisions { return None; }
        assert h.revisions.Keys - (seen + {id}) == h.revisions.Keys - seen - {id};
        seen := seen + {id};
        stack := stack + h.revisions[id].parents;
        unnumbered := unnumbered + [id];
      }
    }
    WalkEnds(h, known, seen, unnumbered);
    found := Some(unnumbered);
  }

  /** What is seen lacks a number and is listed once; what it leads to is numbered, seen, or waiting. */
  ghost predicate Walking(h: History, known: Numbers, seen: set<Id>, stack: seq<Id>, unnumbered: seq<Id>) {
    && Once(unnumbered) && (forall id :: id in unnumbered <==> id in seen)
    && (forall id | id in seen :: Unnumbered(h, known, id))
    && (forall id | id in stack :: CanReach(h, known, id))
    && (forall id | id in h.heads :: Accounted(known, seen, id) || id in stack)
    && (forall child, parent | child in seen && Linked(h, child, parent) ::
      Accounted(known, seen, parent) || parent in stack)
  }

  lemma WalkBegins(h: History, known: Numbers)
    ensures Walking(h, known, {}, h.heads, [])
  {
    hide Unnumbered;
    forall id | id in h.heads ensures CanReach(h, known, id) { HeadIsReached(h, known, id); }
  }

  lemma WalkSteps(h: History, known: Numbers, seen: set<Id>, stack: seq<Id>, unnumbered: seq<Id>)
    requires Walking(h, known, seen, stack, unnumbered) && stack != []
    ensures var id, rest := stack[|stack| - 1], stack[..|stack| - 1];
      if id in known || id in seen then Walking(h, known, seen, rest, unnumbered)
      else
        && Unnumbered(h, known, id)
        && (id in h.revisions ==> Walking(h, known, seen + {id}, rest + h.revisions[id].parents, unnumbered + [id]))
  {
    hide Unnumbered, Once, Linked;
    var id, rest := stack[|stack| - 1], stack[..|stack| - 1];
    assert id in stack && forall other | other in stack :: other == id || other in rest;
    if id !in known && id !in seen && id in h.revisions {
      var parents := h.revisions[id].parents;
      forall parent | parent in parents ensures CanReach(h, known, parent) {
        LinkedParent(h, id, parent);
        if parent !in known { Further(h, known, id, parent); }
      }
      LinkedOnly(h, id);
      OneMoreOnce(unnumbered, id);
    }
  }

  lemma WalkEnds(h: History, known: Numbers, seen: set<Id>, unnumbered: seq<Id>)
    requires Walking(h, known, seen, [], unnumbered)
    ensures Once(unnumbered) && forall id :: id in unnumbered <==> Unnumbered(h, known, id)
    ensures forall id | Unnumbered(h, known, id) :: id in seen
  {
    hide Unnumbered, Once, Linked;
    assert Closed(h, known, seen);
    forall id | Unnumbered(h, known, id) ensures id in seen { SeenIsAll(h, known, seen, id); }
  }

  /** Numbered, or reached before any that is. */
  ghost predicate CanReach(h: History, known: Numbers, id: Id) {
    id in known || Unnumbered(h, known, id)
  }

  lemma OneMoreOnce(ids: seq<Id>, id: Id)
    requires Once(ids) && id !in ids
    ensures Once(ids + [id])
  {
  }

  lemma HeadIsReached(h: History, known: Numbers, id: Id)
    requires id in h.heads
    ensures CanReach(h, known, id)
  {
    if id !in known {
      assert WayBack(h, known, [id]) && [id][|[id]| - 1] == id;
    }
  }

  lemma LinkedParent(h: History, id: Id, parent: Id)
    requires id in h.revisions && parent in h.revisions[id].parents
    ensures Linked(h, id, parent)
  {
  }

  lemma LinkedOnly(h: History, id: Id)
    requires id in h.revisions
    ensures forall parent | Linked(h, id, parent) :: parent in h.revisions[id].parents
  {
  }

  lemma SeenIsAll(h: History, known: Numbers, seen: set<Id>, id: Id)
    requires Closed(h, known, seen) && Unnumbered(h, known, id)
    ensures id in seen
  {
    var way :| WayBack(h, known, way) && way[|way| - 1] == id;
    ClosedHoldsTheWay(h, known, seen, way);
  }

  method FindHighest(known: Numbers) returns (top: nat)
    ensures Highest(known, top)
  {
    top := 0;
    var left := known.Keys;
    while left != {}
      invariant left <= known.Keys
      invariant forall id | id in known && id !in left :: known[id] <= top
      invariant top == 0 || exists id | id in known :: known[id] == top
      decreases |left|
    {
      var id :| id in left;
      if known[id] > top { top := known[id]; }
      left := left - {id};
    }
  }

  /** Number every revision that lacks one -- or nothing, if one of them cannot be loaded. */
  method NumberAll(h: History, known: Numbers) returns (numbers: Option<Numbers>, ghost order: seq<Id>)
    ensures numbers.Some? ==> forall id :: id in numbers.value <==> id in known || Unnumbered(h, known, id)
    ensures numbers.Some? ==> forall id | id in known :: id in numbers.value && numbers.value[id] == known[id]
    ensures numbers.Some? ==> NumberedOn(h, known, numbers.value, order)
    ensures numbers.None? <==> exists id :: Unnumbered(h, known, id) && id !in h.revisions
  {
    hide *;
    order := [];
    var found := FindUnnumbered(h, known);
    if found.None? { return None, order; }
    var sorted := Sort(ByTime(h.revisions), found.value);
    SortedOnce(h, found.value);
    forall id | id in sorted ensures id !in known { UnnumberedIsNot(h, known, id); }
    var top := FindHighest(known);
    var out: Numbers := known;
    NothingYet(known, sorted, top);
    for i := 0 to |sorted|
      invariant NumberedTo(known, sorted, i, out, top)
    {
      OneMoreNumber(known, sorted, i, out, top);
      out := out[sorted[i] := top + 1 + i];
    }
    AllNumbered(h, known, sorted, out, top);
    numbers, order := Some(out), sorted;
  }

  /** The first `n` of the order have their numbers, and nothing else has another. */
  ghost predicate NumberedTo(known: Numbers, order: seq<Id>, n: nat, numbers: Numbers, top: nat) {
    && n <= |order|
    && (forall id :: id in numbers <==> id in known || id in order[..n])
    && (forall id | id in known :: id in numbers && numbers[id] == known[id])
    && FromTop(numbers, order[..n], top)
  }

  lemma NothingYet(known: Numbers, order: seq<Id>, top: nat)
    ensures NumberedTo(known, order, 0, known, top)
  {
  }

  lemma OneMoreNumber(known: Numbers, order: seq<Id>, i: nat, numbers: Numbers, top: nat)
    requires i < |order| && Once(order) && NumberedTo(known, order, i, numbers, top)
    requires forall id | id in order :: id !in known
    ensures NumberedTo(known, order, i + 1, numbers[order[i] := top + 1 + i], top)
  {
    assert order[i] in order && order[..i + 1] == order[..i] + [order[i]];
  }

  lemma AllNumbered(h: History, known: Numbers, order: seq<Id>, numbers: Numbers, top: nat)
    requires NumberedTo(known, order, |order|, numbers, top) && Highest(known, top)
    requires Once(order) && SortedBy(ByTime(h.revisions), order) && forall id ::
      id in order <==> Unnumbered(h, known, id)
    requires forall id | id in order :: id in h.revisions
    ensures NumberedOn(h, known, numbers, order)
    ensures forall id :: id in numbers <==> id in known || Unnumbered(h, known, id)
    ensures forall id | id in known :: id in numbers && numbers[id] == known[id]
  {
    hide Once, SortedBy, Unnumbered, Highest, FromTop;
    assert order[..|order|] == order;
  }

  lemma UnnumberedIsNot(h: History, known: Numbers, id: Id)
    ensures Unnumbered(h, known, id) ==> id !in known
  {
  }

  lemma TimeIsTotal(h: History)
    ensures Total(ByTime(h.revisions))
  {
    hide CompareStrings;
    StringsAreTotal();
    var compare := ByTime(h.revisions);
    forall a, b ensures compare(a, b) == Equal <==> a == b ensures compare(a, b) == compare(b, a).Reverse() {
      assert CompareStrings(a, b) == Equal <==> a == b;
      assert CompareStrings(a, b) == CompareStrings(b, a).Reverse();
    }
    forall a, b, c | compare(a, b) == Less && compare(b, c) == Less ensures compare(a, c) == Less {
      assert CompareStrings(a, b) == Less && CompareStrings(b, c) == Less ==> CompareStrings(a, c) == Less;
    }
  }

  lemma SortedOnce(h: History, ids: seq<Id>)
    requires Once(ids)
    ensures var sorted := Sort(ByTime(h.revisions), ids);
      Once(sorted) && SortedBy(ByTime(h.revisions), sorted) && forall id :: id in sorted <==> id in ids
  {
    hide Sort, ByTime;
    var sorted := Sort(ByTime(h.revisions), ids);
    TimeIsTotal(h);
    TotalIsPreorder(ByTime(h.revisions));
    SortSorts(ByTime(h.revisions), ids);
    SortKeepsAll(ByTime(h.revisions), ids);
    PermutedOnce(ids, sorted);
    forall id ensures id in sorted <==> id in ids {
      assert id in multiset(sorted) <==> id in multiset(ids);
    }
  }

  // ----- what the numbers promise -----------------------------------------------------------------------------

  /** No two revisions share a number, and a new number is above every old one. */
  lemma NumbersAreDistinct(h: History, known: Numbers, numbers: Numbers, order: seq<Id>, a: Id, b: Id)
    requires NumberedOn(h, known, numbers, order) && a in numbers && b in numbers && a != b
    requires a in known && b in known ==> known[a] != known[b]
    ensures numbers[a] != numbers[b]
    ensures a in known && b !in known ==> numbers[a] < numbers[b]
  {
    hide Unnumbered, SortedBy;
    var top :| Highest(known, top) && FromTop(numbers, order, top);
    if a !in known { var i :| 0 <= i < |order| && order[i] == a; }
    if b !in known { var j :| 0 <= j < |order| && order[j] == b; }
  }

  /**
   Among new revisions, the earlier has the lower number; so a parent does, unless its clock ran
   ahead of its child's.
   */
  lemma EarlierIsLower(h: History, known: Numbers, numbers: Numbers, order: seq<Id>, a: Id, b: Id)
    requires NumberedOn(h, known, numbers, order) && a in order && b in order
    ensures numbers[a] < numbers[b] <==> ByTime(h.revisions)(a, b) == Less
  {
    hide Unnumbered, ByTime;
    TimeIsTotal(h);
    var top :| Highest(known, top) && FromTop(numbers, order, top);
    var i :| 0 <= i < |order| && order[i] == a;
    var j :| 0 <= j < |order| && order[j] == b;
    assert ByTime(h.revisions)(a, b) == ByTime(h.revisions)(b, a).Reverse();
    assert ByTime(h.revisions)(a, b) == Equal <==> a == b;
    assert i < j ==> ByTime(h.revisions)(a, b) != Greater;
    assert j < i ==> ByTime(h.revisions)(b, a) != Greater;
  }

  /** The numbers do not depend on the order the heads are listed or walked in: whoever numbers next gives the same. */
  lemma NumberingIsOne(
    h: History, other: History, known: Numbers, a: Numbers, b: Numbers, order: seq<Id>, order': seq<Id>)
    requires h.revisions == other.revisions && forall id :: id in h.heads <==> id in other.heads
    requires NumberedOn(h, known, a, order) && NumberedOn(other, known, b, order')
    ensures a == b
  {
    hide Once, SortedBy, Unnumbered, ByTime;
    SameUnnumbered(h, other, known);
    OnceSame(order, order');
    TimeIsTotal(h);
    SortedIsUnique(ByTime(h.revisions), order, order');
    var top :| Highest(known, top) && FromTop(a, order, top);
    var top' :| Highest(known, top') && FromTop(b, order', top');
    HighestIsOne(known, top, top');
    forall id | id in a ensures a[id] == b[id] {
      if id !in known { var i :| 0 <= i < |order| && order[i] == id; }
    }
    assert a.Keys == b.Keys;
  }

  /** A later history: what was there is there still, and what was reached is reached still. */
  ghost predicate Later(h: History, later: History, known: Numbers) {
    && (forall id | id in h.revisions :: id in later.revisions && later.revisions[id] == h.revisions[id])
    && (forall id | Unnumbered(h, known, id) :: Unnumbered(later, known, id))
  }

  /** What is reached only later comes after everything numbered before. */
  ghost predicate NewcomersLast(later: History, order: seq<Id>, order': seq<Id>) {
    forall id, newer | id in order && newer in order' && newer !in order :: ByTime(later.revisions)(id, newer) == Less
  }

  /**
   A writer that numbers a history grown since a reader numbered it gives the
   same revisions the same numbers exactly when every revision that is new
   comes after all of those by time and id.
   */
  lemma {:induction false} LaterNumbersAgreeExactly(
    h: History, later: History, known: Numbers, a: Numbers, b: Numbers, order: seq<Id>, order': seq<Id>)
    requires Later(h, later, known)
    requires NumberedOn(h, known, a, order) && NumberedOn(later, known, b, order')
    ensures (forall id | id in order :: b[id] == a[id]) <==> NewcomersLast(later, order, order')
  {
    hide Unnumbered, ByTime, Once;
    if NewcomersLast(later, order, order') { NewcomersLastAgree(h, later, known, a, b, order, order'); }
    if forall id | id in order :: b[id] == a[id] {
      forall id, newer | id in order && newer in order' && newer !in order
        ensures ByTime(later.revisions)(id, newer) == Less
      {
        NewcomerIsLast(h, later, known, a, b, order, order', id, newer);
      }
    }
  }

  lemma SameTimes(h: History, later: History, order: seq<Id>)
    requires forall id | id in h.revisions :: id in later.revisions && later.revisions[id] == h.revisions[id]
    requires forall id | id in order :: id in h.revisions
    ensures SortedBy(ByTime(h.revisions), order) <==> SortedBy(ByTime(later.revisions), order)
  {
    hide CompareStrings;
    forall i, j | 0 <= i < j < |order|
      ensures ByTime(h.revisions)(order[i], order[j]) == ByTime(later.revisions)(order[i], order[j])
    {
      assert order[i] in order && order[j] in order;
    }
  }

  function OutsideOf(order: seq<Id>): Id -> bool {
    (id: Id) => id !in order
  }

  lemma {:induction false} NewcomersLastAgree(
    h: History, later: History, known: Numbers, a: Numbers, b: Numbers, order: seq<Id>, order': seq<Id>)
    requires Later(h, later, known) && NewcomersLast(later, order, order')
    requires NumberedOn(h, known, a, order) && NumberedOn(later, known, b, order')
    ensures forall id | id in order :: b[id] == a[id]
  {
    hide Unnumbered, ByTime, Once, Filter, SortedBy;
    var newer := Filter(OutsideOf(order), order');
    FilterOnce(OutsideOf(order), order');
    SameTimes(h, later, order);
    FilterSorts(ByTime(later.revisions), OutsideOf(order), order');
    OnceJoins(order, newer);
    SortedJoins(ByTime(later.revisions), order, newer);
    OnceSame(order + newer, order');
    TimeIsTotal(later);
    SortedIsUnique(ByTime(later.revisions), order + newer, order');
    var top :| Highest(known, top) && FromTop(a, order, top);
    var top' :| Highest(known, top') && FromTop(b, order', top');
    HighestIsOne(known, top, top');
    forall id | id in order ensures b[id] == a[id] {
      var i :| 0 <= i < |order| && order[i] == id;
      assert order'[i] == id;
    }
  }

  lemma OnceJoins(a: seq<Id>, b: seq<Id>)
    requires Once(a) && Once(b) && forall id | id in b :: id !in a
    ensures Once(a + b)
  {
    forall i, j | 0 <= i < j < |a + b| ensures (a + b)[i] != (a + b)[j] {
      if i < |a| && |a| <= j { assert (a + b)[i] in a && (a + b)[j] in b; }
    }
  }

  lemma SortedJoins(compare: (Id, Id) -> Ordering, a: seq<Id>, b: seq<Id>)
    requires SortedBy(compare, a) && SortedBy(compare, b)
    requires forall x, y | x in a && y in b :: compare(x, y) == Less
    ensures SortedBy(compare, a + b)
  {
    forall i, j | 0 <= i < j < |a + b| ensures compare((a + b)[i], (a + b)[j]) != Greater {
      if i < |a| && |a| <= j { assert (a + b)[i] in a && (a + b)[j] in b; }
    }
  }

  lemma {:induction false} FilterSorts<T>(compare: (T, T) -> Ordering, keep: T -> bool, xs: seq<T>)
    requires SortedBy(compare, xs)
    ensures SortedBy(compare, Filter(keep, xs))
  {
    if xs != [] {
      var front, last := xs[..|xs| - 1], xs[|xs| - 1];
      FilterSorts(compare, keep, front);
      forall x | x in front ensures compare(x, last) != Greater {
        var i :| 0 <= i < |front| && front[i] == x;
        assert xs[i] == x;
      }
    }
  }

  /** A newcomer before one numbered earlier would have taken a number given then. */
  lemma NewcomerIsLast(
    h: History, later: History, known: Numbers, a: Numbers, b: Numbers, order: seq<Id>, order': seq<Id>, id: Id,
      newer: Id)
    requires Later(h, later, known)
    requires NumberedOn(h, known, a, order) && NumberedOn(later, known, b, order')
    requires forall earlier | earlier in order :: b[earlier] == a[earlier]
    requires id in order && newer in order' && newer !in order
    ensures ByTime(later.revisions)(id, newer) == Less
  {
    hide Unnumbered, ByTime, SortedBy;
    assert id in order';
    EarlierIsLower(later, known, b, order', id, newer);
    var top: nat :| Highest(known, top) && FromTop(a, order, top);
    var top': nat :| Highest(known, top') && FromTop(b, order', top');
    HighestIsOne(known, top, top');
    var i :| 0 <= i < |order| && order[i] == id;
    var j :| 0 <= j < |order'| && order'[j] == newer;
    forall k | 0 <= k < |order| ensures order[k] in order && k < |order'| && order'[k] == order[k] {
      assert order[k] in order && order[k] in order';
      var m :| 0 <= m < |order'| && order'[m] == order[k];
      assert b[order'[m]] == top + 1 + m;
    }
  }

  /**
   A reader numbers `a`; an earlier `b` arrives; the writer numbers `b` first, and `a` otherwise
   than the reader did.
   */
  lemma NumbersCanChange()
    ensures var a, b := Revision(2, []), Revision(1, []);
      var h, later := History(map["a" := a], ["a"]), History(map["a" := a, "b" := b], ["a", "b"]);
      && Later(h, later, map[])
      && NumberedOn(h, map[], map["a" := 1], ["a"])
      && NumberedOn(later, map[], map["b" := 1, "a" := 2], ["b", "a"])
  {
    hide NumberedOn, Unnumbered, ByTime, SortedBy;
    var a, b := Revision(2, []), Revision(1, []);
    var h, later := History(map["a" := a], ["a"]), History(map["a" := a, "b" := b], ["a", "b"]);
    ParentlessReached(h, map[]);
    ParentlessReached(later, map[]);
    OneIsSorted(h.revisions, "a");
    NumbersFromOne(h, map[], map["a" := 1], ["a"]);
    EarlierFirst(later.revisions);
    NumbersFromOne(later, map[], map["b" := 1, "a" := 2], ["b", "a"]);
  }

  lemma OneIsSorted(revisions: map<Id, Revision>, id: Id)
    ensures SortedBy(ByTime(revisions), [id]) && Once([id])
  {
  }

  lemma EarlierFirst(revisions: map<Id, Revision>)
    requires TimeOf(revisions, "b") < TimeOf(revisions, "a")
    ensures SortedBy(ByTime(revisions), ["b", "a"]) && Once(["b", "a"])
  {
    assert "a"[0] != "b"[0];
  }

  lemma NumbersFromOne(h: History, known: Numbers, numbers: Numbers, order: seq<Id>)
    requires known == map[] && Once(order) && SortedBy(ByTime(h.revisions), order)
    requires forall id :: id in order <==> id in h.heads
    requires forall id :: Unnumbered(h, known, id) <==> id in h.heads
    requires forall id | id in order :: id in h.revisions
    requires forall id :: id in numbers <==> id in order
    requires FromTop(numbers, order, 0)
    ensures NumberedOn(h, known, numbers, order)
  {
    hide Unnumbered, SortedBy, Once;
    assert Highest(known, 0);
  }

  lemma ParentlessReached(h: History, known: Numbers)
    requires known == map[] && forall id | id in h.revisions :: h.revisions[id].parents == []
    ensures forall id :: Unnumbered(h, known, id) <==> id in h.heads
  {
    forall id | id in h.heads ensures Unnumbered(h, known, id) { HeadIsReached(h, known, id); }
    forall way ensures WayBack(h, known, way) ==> |way| == 1 {
      assert |way| > 1 ==> !Linked(h, way[0], way[0 + 1]);
    }
  }

  lemma HighestIsOne(known: Numbers, top: nat, top': nat)
    requires Highest(known, top) && Highest(known, top')
    ensures top == top'
  {
  }

  lemma SameUnnumbered(h: History, other: History, known: Numbers)
    requires h.revisions == other.revisions && forall id :: id in h.heads <==> id in other.heads
    ensures forall id :: Unnumbered(h, known, id) <==> Unnumbered(other, known, id)
  {
    forall way ensures WayBack(h, known, way) <==> WayBack(other, known, way) {
      assert forall a, b :: Linked(h, a, b) <==> Linked(other, a, b);
    }
  }

  /** Everything reachable from the heads, numbered or not on the way. */
  ghost predicate Ancestry(h: History, way: seq<Id>) {
    way != [] && way[0] in h.heads && forall i | 0 <= i < |way| - 1 :: Linked(h, way[i], way[i + 1])
  }

  ghost predicate ParentsNumbered(h: History, numbers: Numbers) {
    forall child, parent | child in numbers && Linked(h, child, parent) :: parent in numbers
  }

  /**
   Where the numbered revisions' parents were numbered, they are still, and every revision of
   every lineage has a number.
   */
  lemma EveryRevisionIsNumbered(h: History, known: Numbers, numbers: Numbers, order: seq<Id>)
    requires NumberedOn(h, known, numbers, order) && ParentsNumbered(h, known)
    ensures ParentsNumbered(h, numbers)
    ensures forall way | Ancestry(h, way) :: way[|way| - 1] in numbers
    ensures forall id :: !Unnumbered(h, numbers, id)
  {
    hide Unnumbered, Linked, SortedBy, Once;
    forall child, parent | child in numbers && Linked(h, child, parent) ensures parent in numbers {
      if child !in known && parent !in known { Further(h, known, child, parent); }
    }
    forall id | id in h.heads ensures id in numbers { HeadIsReached(h, known, id); }
    forall way | Ancestry(h, way) ensures way[|way| - 1] in numbers { WholeWay(h, numbers, way); }
    forall id ensures !Unnumbered(h, numbers, id) { NothingLeft(h, numbers, id); }
  }

  lemma {:induction false} WholeWay(h: History, numbers: Numbers, way: seq<Id>)
    requires Ancestry(h, way) && ParentsNumbered(h, numbers) && forall id | id in h.heads :: id in numbers
    ensures way[|way| - 1] in numbers
  {
    hide Linked;
    if |way| > 1 {
      var before := way[..|way| - 1];
      assert forall i | 0 <= i < |before| - 1 :: before[i] == way[i] && Linked(h, way[i], way[i + 1]);
      WholeWay(h, numbers, before);
      assert Linked(h, way[|way| - 2], way[|way| - 1]);
    }
  }

  lemma NothingLeft(h: History, numbers: Numbers, id: Id)
    requires forall id | id in h.heads :: id in numbers
    ensures !Unnumbered(h, numbers, id)
  {
    forall way ensures !WayBack(h, numbers, way) {
      if way != [] && way[0] in h.heads { assert way[0] in way && way[0] in numbers; }
    }
  }
}
