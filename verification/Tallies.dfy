/**
 The multiset view of observed values: a shape's facts plus the counts that tell
 a map keyed by data from a record with fields.
 */
module Tallies {
  import opened Json
  import opened Lexical
  import opened Shapes
  import opened Sequences

  datatype Tally = Tally(scalars: Shape, obj: Option<ObjectTally>, items: Option<Tally>)

  datatype ObjectTally = ObjectTally(instances: nat, members: map<string, Counted>)

  datatype Counted = Counted(count: nat, values: Tally)

  const EMPTY := Tally(BOTTOM, None, None)

  const NOBODY := ObjectTally(0, map[])

  function OrEmpty(items: Option<Tally>): Tally {
    if items.Some? then items.value else EMPTY
  }

  function OrNobody(obj: Option<ObjectTally>): ObjectTally {
    if obj.Some? then obj.value else NOBODY
  }

  function Entry(members: map<string, Counted>, name: string): Counted {
    if name in members then members[name] else Counted(0, EMPTY)
  }

  // ----- adding a value ----------------------------------------------------------

  ghost function Add(t: Tally, v: Value): Tally
    decreases v, 1
  {
    match v
    case Array(items) => t.(items := Some(AddItems(OrEmpty(t.items), items, |items|)))
    case Object(members) => t.(obj := Some(AddObject(OrNobody(t.obj), members)))
    case _ => t.(scalars := Join(t.scalars, Observe(v)))
  }

  /** The tally after the first `n` elements. */
  ghost function AddItems(t: Tally, items: seq<Value>, n: nat): Tally
    requires n <= |items|
    decreases items, 0, n
  {
    if n == 0 then t else Add(AddItems(t, items, n - 1), items[n - 1])
  }

  ghost function AddObject(o: ObjectTally, members: map<string, Value>): ObjectTally
    decreases Object(members), 0
  {
    ObjectTally(o.instances + 1, map name | name in o.members.Keys + members.Keys ::
      var entry := Entry(o.members, name);
      if name in members then Counted(entry.count + 1, Add(entry.values, members[name])) else entry)
  }

  // ----- merging tallies -----------------------------------------------------------

  ghost function Merge(t: Tally, u: Tally): Tally
    decreases u, 1
  {
    Tally(
      Join(t.scalars, u.scalars),
      if u.obj.Some? then Some(MergeObjects(OrNobody(t.obj), u.obj.value)) else t.obj,
      if u.items.Some? then Some(Merge(OrEmpty(t.items), u.items.value)) else t.items)
  }

  ghost function MergeObjects(o: ObjectTally, p: ObjectTally): ObjectTally
    decreases p, 0
  {
    ObjectTally(o.instances + p.instances, map name | name in o.members.Keys + p.members.Keys ::
      var entry := Entry(o.members, name);
      if name in p.members
      then Counted(entry.count + p.members[name].count, Merge(entry.values, p.members[name].values))
      else entry)
  }

  // ----- merging is a commutative monoid --------------------------------------------------

  lemma {:induction false} MergeEmpty(t: Tally)
    ensures Merge(t, EMPTY) == t && Merge(EMPTY, t) == t
  {
    JoinIsIdempotentWithBottom(t.scalars);
    if t.items.Some? { MergeEmpty(t.items.value); }
    if t.obj.Some? {
      var merged := MergeObjects(NOBODY, t.obj.value);
      forall name | name in t.obj.value.members ensures merged.members[name] == t.obj.value.members[name] {
        MergeEmpty(t.obj.value.members[name].values);
      }
      assert merged.members == t.obj.value.members;
    }
  }

  lemma {:induction false} MergeCommutes(t: Tally, u: Tally)
    ensures Merge(t, u) == Merge(u, t)
    decreases u, t
  {
    JoinCommutes(t.scalars, u.scalars);
    if t.items.Some? && u.items.Some? { MergeCommutes(t.items.value, u.items.value); }
    if t.items.Some? { MergeEmpty(t.items.value); }
    if u.items.Some? { MergeEmpty(u.items.value); }
    if t.obj.Some? && u.obj.Some? { MergeObjectsCommutes(t.obj.value, u.obj.value); }
    if t.obj.Some? { MergeNobody(t.obj.value); }
    if u.obj.Some? { MergeNobody(u.obj.value); }
  }

  lemma MergeNobody(o: ObjectTally)
    ensures MergeObjects(NOBODY, o) == o && MergeObjects(o, NOBODY) == o
  {
    forall name | name in o.members ensures MergeObjects(NOBODY, o).members[name] == o.members[name] {
      MergeEmpty(o.members[name].values);
    }
    assert MergeObjects(NOBODY, o).members == o.members;
    assert MergeObjects(o, NOBODY).members == o.members;
  }

  lemma {:induction false} MergeObjectsCommutes(o: ObjectTally, p: ObjectTally)
    ensures MergeObjects(o, p) == MergeObjects(p, o)
    decreases p, o
  {
    var left, right := MergeObjects(o, p).members, MergeObjects(p, o).members;
    forall name | name in left ensures left[name] == right[name] {
      if name in o.members && name in p.members {
        MergeCommutes(o.members[name].values, p.members[name].values);
      } else if name in o.members {
        MergeEmpty(o.members[name].values);
      } else {
        MergeEmpty(p.members[name].values);
      }
    }
    assert left == right;
  }

  lemma {:induction false} MergeAssociates(t: Tally, u: Tally, w: Tally)
    ensures Merge(Merge(t, u), w) == Merge(t, Merge(u, w))
    decreases w, u, 2
  {
    hide Join;
    JoinAssociates(t.scalars, u.scalars, w.scalars);
    var left, right := Merge(Merge(t, u), w), Merge(t, Merge(u, w));
    assert left.items == right.items by {
      if u.items.Some? && w.items.Some? {
        MergeAssociates(OrEmpty(t.items), u.items.value, w.items.value);
      } else if w.items.Some? {
        MergeEmpty(w.items.value);
      }
    }
    assert left.obj == right.obj by {
      if u.obj.Some? && w.obj.Some? {
        MergeObjectsAssociates(OrNobody(t.obj), u.obj.value, w.obj.value);
      } else if w.obj.Some? {
        MergeNobody(w.obj.value);
      }
    }
  }

  lemma {:induction false} MergeObjectsAssociates(o: ObjectTally, p: ObjectTally, q: ObjectTally)
    ensures MergeObjects(MergeObjects(o, p), q) == MergeObjects(o, MergeObjects(p, q))
    decreases q, p, 1
  {
    hide Merge, MergeObjects;
    var left, right := MergeObjects(MergeObjects(o, p), q).members, MergeObjects(o, MergeObjects(p, q)).members;
    MergedNames(o, p);
    MergedNames(p, q);
    MergedNames(MergeObjects(o, p), q);
    MergedNames(o, MergeObjects(p, q));
    assert left.Keys == right.Keys;
    forall name | name in left ensures left[name] == right[name] {
      EntriesAssociate(o, p, q, name);
    }
    assert left == right;
  }

  lemma MergedNames(o: ObjectTally, p: ObjectTally)
    ensures MergeObjects(o, p).members.Keys == o.members.Keys + p.members.Keys
    ensures MergeObjects(o, p).instances == o.instances + p.instances
  {
    hide Merge;
  }

  lemma {:induction false} EntriesAssociate(o: ObjectTally, p: ObjectTally, q: ObjectTally, name: string)
    requires name in o.members.Keys + p.members.Keys + q.members.Keys
    ensures MergeObjects(MergeObjects(o, p), q).members[name] == MergeObjects(o, MergeObjects(p, q)).members[name]
    decreases q, p, 0
  {
    hide Merge;
    if name in p.members && name in q.members {
      MergeAssociates(Entry(o.members, name).values, p.members[name].values, q.members[name].values);
    } else if name in q.members {
      MergeEmpty(q.members[name].values);
    }
  }

  // ----- adding a value is merging what it alone would tally ------------------------------

  lemma {:induction false} AddIsMerge(t: Tally, v: Value)
    ensures Add(t, v) == Merge(t, Add(EMPTY, v))
    decreases v, 1
  {
    match v
    case Array(items) =>
      AddItemsIsMerge(OrEmpty(t.items), items, |items|);
      JoinIsIdempotentWithBottom(t.scalars);
    case Object(members) =>
      AddObjectIsMerge(OrNobody(t.obj), members);
      JoinIsIdempotentWithBottom(t.scalars);
    case _ =>
      JoinIsIdempotentWithBottom(Observe(v));
  }

  lemma {:induction false} AddItemsIsMerge(t: Tally, items: seq<Value>, n: nat)
    requires n <= |items|
    ensures AddItems(t, items, n) == Merge(t, AddItems(EMPTY, items, n))
    decreases items, 0, n
  {
    hide Merge, Add;
    if n == 0 {
      MergeEmpty(t);
    } else {
      var last := items[n - 1];
      AddItemsIsMerge(t, items, n - 1);
      AddIsMerge(AddItems(t, items, n - 1), last);
      AddIsMerge(AddItems(EMPTY, items, n - 1), last);
      MergeAssociates(t, AddItems(EMPTY, items, n - 1), Add(EMPTY, last));
    }
  }

  lemma {:induction false} AddObjectIsMerge(o: ObjectTally, members: map<string, Value>)
    ensures AddObject(o, members) == MergeObjects(o, AddObject(NOBODY, members))
    decreases Object(members), 0
  {
    hide Merge, Add;
    var left, right := AddObject(o, members).members, MergeObjects(o, AddObject(NOBODY, members)).members;
    assert left.Keys == right.Keys;
    forall name | name in left ensures left[name] == right[name] {
      if name in members {
        AddIsMerge(Entry(o.members, name).values, members[name]);
      }
    }
    assert left == right;
  }

  // ----- tallying a sequence: order does not matter ----------------------------------------

  ghost function TallyOf(values: seq<Value>): Tally {
    if values == [] then EMPTY else Add(TallyOf(values[..|values| - 1]), values[|values| - 1])
  }

  /** Merging tallies is concatenating what was tallied. */
  lemma {:induction false} TallyOfConcatenation(xs: seq<Value>, ys: seq<Value>)
    ensures TallyOf(xs + ys) == Merge(TallyOf(xs), TallyOf(ys))
  {
    hide Merge, Add;
    if ys == [] {
      assert xs + ys == xs;
      MergeEmpty(TallyOf(xs));
    } else {
      var front, last := ys[..|ys| - 1], ys[|ys| - 1];
      assert (xs + ys)[..|xs + ys| - 1] == xs + front;
      TallyOfConcatenation(xs, front);
      AddIsMerge(TallyOf(xs + front), last);
      AddIsMerge(TallyOf(front), last);
      MergeAssociates(TallyOf(xs), TallyOf(front), Add(EMPTY, last));
    }
  }

  lemma {:induction false} TallyOfPermutation(xs: seq<Value>, ys: seq<Value>)
    requires multiset(xs) == multiset(ys)
    ensures TallyOf(xs) == TallyOf(ys)
    decreases |xs|
  {
    hide Merge, Add;
    if xs == [] {
      assert |ys| == |multiset(ys)| == 0;
    } else {
      var front, last := xs[..|xs| - 1], xs[|xs| - 1];
      assert xs == front + [last];
      var k := SplitPermutation(xs, ys);
      var before, after := ys[..k], ys[k + 1..];
      TallyOfPermutation(front, before + after);
      TallyOfConcatenation(before, after);
      TallyOfConcatenation(before + [last], after);
      TallyOfConcatenation(before, [last]);
      TallyOfConcatenation(front, [last]);
      MergeAssociates(TallyOf(before), TallyOf([last]), TallyOf(after));
      MergeCommutes(TallyOf([last]), TallyOf(after));
      MergeAssociates(TallyOf(before), TallyOf(after), TallyOf([last]));
    }
  }
}
