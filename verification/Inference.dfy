/**
 Reducing a tally to a contract: judging which objects are maps, and why the
 contract inferred from a multiset of values refuses none of them.
 */
module Inference {
  import opened Json
  import opened Lexical
  import opened Shapes
  import opened Tallies
  import opened Sequences

  const MAP_MIN_NAMES := 32

  // ----- height: a merged tally is no taller than the tallies merged -------------------------

  ghost function TallyHeight(t: Tally): nat {
    1 + Taller(
      if t.items.Some? then TallyHeight(t.items.value) else 0,
      if t.obj.Some? then
        Max(set name | name in t.obj.value.members :: TallyHeight(t.obj.value.members[name].values))
      else 0)
  }

  ghost function MembersHeight(members: map<string, Counted>): nat {
    Max(set name | name in members :: TallyHeight(members[name].values))
  }

  lemma EntryIsLow(members: map<string, Counted>, name: string)
    requires name in members
    ensures TallyHeight(members[name].values) <= MembersHeight(members)
  {
    var heights := set k | k in members :: TallyHeight(members[k].values);
    assert TallyHeight(members[name].values) in heights;
  }

  lemma EntriesAreLow(members: map<string, Counted>, bound: nat)
    requires forall name | name in members :: TallyHeight(members[name].values) <= bound
    ensures MembersHeight(members) <= bound
  {
    var heights := set k | k in members :: TallyHeight(members[k].values);
    assert MembersHeight(members) == Max(heights);
  }

  lemma TallyIsLow(t: Tally, bound: nat)
    requires bound > 0
    requires t.items.Some? ==> TallyHeight(t.items.value) < bound
    requires t.obj.Some? ==> MembersHeight(t.obj.value.members) < bound
    ensures TallyHeight(t) <= bound
  {
  }

  lemma PartsOfTallyAreLow(t: Tally)
    ensures TallyHeight(t) > 0
    ensures t.items.Some? ==> TallyHeight(t.items.value) < TallyHeight(t)
    ensures t.obj.Some? ==> MembersHeight(t.obj.value.members) < TallyHeight(t)
  {
  }

  lemma {:induction false} MergeIsLow(t: Tally, u: Tally)
    ensures TallyHeight(Merge(t, u)) <= Taller(TallyHeight(t), TallyHeight(u))
    decreases u, 1
  {
    hide MembersHeight, TallyHeight;
    var m := Merge(t, u);
    PartsOfTallyAreLow(t);
    PartsOfTallyAreLow(u);
    if t.items.Some? && u.items.Some? { MergeIsLow(t.items.value, u.items.value); }
    if u.items.Some? { MergeEmpty(u.items.value); }
    if u.obj.Some? {
      MergeObjectsIsLow(OrNobody(t.obj), u.obj.value);
      NobodyIsLow();
    }
    TallyIsLow(m, Taller(TallyHeight(t), TallyHeight(u)));
  }

  lemma {:induction false} MergeObjectsIsLow(o: ObjectTally, p: ObjectTally)
    ensures MembersHeight(MergeObjects(o, p).members) <= Taller(MembersHeight(o.members), MembersHeight(p.members))
    decreases p, 0
  {
    hide MembersHeight, TallyHeight, Merge;
    var members := MergeObjects(o, p).members;
    var bound := Taller(MembersHeight(o.members), MembersHeight(p.members));
    forall name | name in members ensures TallyHeight(members[name].values) <= bound {
      if name in o.members { EntryIsLow(o.members, name); }
      if name in p.members { EntryIsLow(p.members, name); }
      if name in o.members && name in p.members {
        MergeIsLow(o.members[name].values, p.members[name].values);
      } else if name in p.members {
        MergeEmpty(p.members[name].values);
      }
    }
    EntriesAreLow(members, bound);
  }

  lemma NobodyIsLow()
    ensures MembersHeight(NOBODY.members) == 0
  {
    EntriesAreLow(NOBODY.members, 0);
  }

  // ----- the judgment ------------------------------------------------------------------------

  /** More names than a record has, and none of them in more than half of the instances. */
  predicate MapLike(o: ObjectTally) {
    |o.members| > MAP_MIN_NAMES &&
    forall name | name in o.members :: 2 * o.members[name].count <= o.instances
  }

  /** Every member's values as one tally, merged in whatever order. */
  ghost function MergeAll(acc: Tally, members: map<string, Counted>): (r: Tally)
    ensures TallyHeight(r) <= Taller(TallyHeight(acc), MembersHeight(members))
    decreases |members|
  {
    if members == map[] then acc
    else
      var name := Pick(members.Keys);
      var rest := members - {name};
      EntryIsLow(members, name);
      MergeIsLow(acc, members[name].values);
      RestIsLowToo(members, name);
      MergeAll(Merge(acc, members[name].values), rest)
  }

  lemma RestIsLowToo(members: map<string, Counted>, name: string)
    ensures MembersHeight(members - {name}) <= MembersHeight(members)
  {
    var rest := members - {name};
    forall k | k in rest ensures TallyHeight(rest[k].values) <= MembersHeight(members) {
      EntryIsLow(members, k);
    }
    EntriesAreLow(rest, MembersHeight(members));
  }

  ghost function NamesForm(names: set<string>): StringForm {
    if names == {} then Plain
    else
      var first := Pick(names);
      JoinNames(StringFormOf(first), names - {first})
  }

  /** The shape, judging this path when `judge` is set and every path below it regardless. */
  ghost function ShapeOf(t: Tally, judge: bool): Shape
    decreases TallyHeight(t), 0
  {
    PartsOfTallyAreLow(t);
    t.scalars.(
      items := if t.items.Some? then Some(ShapeOf(t.items.value, true)) else None,
      obj := if t.obj.Some? then Some(ObjectShapeOf(t.obj.value, judge)) else None)
  }

  ghost function ObjectShapeOf(o: ObjectTally, judge: bool): ObjectShape
    decreases MembersHeight(o.members), 2
  {
    if judge && MapLike(o) then
      HasHeight(o.members);
      Map(NamesForm(o.members.Keys), ShapeOf(MergeAll(EMPTY, o.members), true))
    else
      Record(map name | name in o.members ::
        EntryIsLow(o.members, name);
        Member(ShapeOf(o.members[name].values, true), o.members[name].count == o.instances))
  }

  lemma HasHeight(members: map<string, Counted>)
    requires members != map[]
    ensures MembersHeight(members) > 0 && TallyHeight(EMPTY) == 1
  {
    EntryIsLow(members, Pick(members.Keys));
  }

  ghost function Infer(values: seq<Value>): Shape {
    ShapeOf(TallyOf(values), true)
  }

  /** The same values in any order infer the same contract. */
  lemma InferIgnoresOrder(xs: seq<Value>, ys: seq<Value>)
    requires multiset(xs) == multiset(ys)
    ensures Infer(xs) == Infer(ys)
  {
    TallyOfPermutation(xs, ys);
  }

  // ----- what a tally has counted -------------------------------------------------------------

  /** No member is counted more often than the objects that could hold it. */
  ghost predicate Sound(t: Tally)
    decreases t
  {
    && t.scalars.obj.None? && t.scalars.items.None?
    && (t.items.Some? ==> Sound(t.items.value))
    && (t.obj.Some? ==> forall name | name in t.obj.value.members ::
          t.obj.value.members[name].count <= t.obj.value.instances && Sound(t.obj.value.members[name].values))
  }

  /** The value is among those the tally counted, as far as a contract can tell. */
  ghost predicate Covers(t: Tally, v: Value)
    decreases v
  {
    match v
    case Array(items) => t.items.Some? && forall i | 0 <= i < |items| :: Covers(t.items.value, items[i])
    case Object(members) =>
      && t.obj.Some? && t.obj.value.instances > 0
      && (forall name | name in members ::
        name in t.obj.value.members && Covers(t.obj.value.members[name].values, members[name]))
      && (forall name | name in t.obj.value.members && name !in members ::
            t.obj.value.members[name].count < t.obj.value.instances)
    case _ => Below(Observe(v), t.scalars)
  }

  lemma {:induction false} MergeStaysSound(t: Tally, u: Tally)
    requires Sound(t) && Sound(u)
    ensures Sound(Merge(t, u))
    decreases u
  {
    hide Join;
    ScalarsStayScalar(t.scalars, u.scalars);
    if u.items.Some? { MergeStaysSound(OrEmpty(t.items), u.items.value); }
    if u.obj.Some? {
      var ours, theirs := OrNobody(t.obj), u.obj.value;
      forall name | name in MergeObjects(ours, theirs).members
        ensures MergeObjects(ours, theirs).members[name].count <= ours.instances + theirs.instances
        ensures Sound(MergeObjects(ours, theirs).members[name].values)
      {
        if name in theirs.members {
          MergeStaysSound(Entry(ours.members, name).values, theirs.members[name].values);
        }
      }
    }
  }

  lemma ScalarsStayScalar(a: Shape, b: Shape)
    requires a.obj.None? && a.items.None? && b.obj.None? && b.items.None?
    ensures Join(a, b).obj.None? && Join(a, b).items.None?
  {
  }

  lemma {:induction false} MergeKeepsCovering(t: Tally, u: Tally, v: Value)
    requires Sound(t) && Sound(u) && Covers(t, v)
    ensures Covers(Merge(t, u), v)
    decreases v
  {
    hide Join, Below, Observe;
    var m := Merge(t, u);
    match v
    case Array(items) =>
      if u.items.Some? {
        forall i | 0 <= i < |items| ensures Covers(m.items.value, items[i]) {
          MergeKeepsCovering(t.items.value, u.items.value, items[i]);
        }
      }
    case Object(members) =>
      if u.obj.Some? {
        forall name | name in members ensures Covers(m.obj.value.members[name].values, members[name]) {
          if name in u.obj.value.members {
            MergeKeepsCovering(t.obj.value.members[name].values, u.obj.value.members[name].values, members[name]);
          }
        }
      }
    case _ =>
      JoinCoversBoth(t.scalars, u.scalars);
      BelowTransitive(Observe(v), t.scalars, m.scalars);
  }

  lemma {:induction false} AddCovers(t: Tally, v: Value)
    requires Sound(t)
    ensures Sound(Add(t, v)) && Covers(Add(t, v), v)
    decreases v, 1
  {
    match v
    case Array(items) => AddItemsCovers(OrEmpty(t.items), items, |items|);
    case Object(members) =>
      var o := OrNobody(t.obj);
      forall name | name in members
        ensures Sound(Add(Entry(o.members, name).values, members[name]))
        ensures Covers(Add(Entry(o.members, name).values, members[name]), members[name])
      {
        AddCovers(Entry(o.members, name).values, members[name]);
      }
    case _ => JoinCoversBoth(t.scalars, Observe(v));
  }

  lemma {:induction false} AddItemsCovers(t: Tally, items: seq<Value>, n: nat)
    requires n <= |items| && Sound(t)
    ensures Sound(AddItems(t, items, n)) && forall i | 0 <= i < n :: Covers(AddItems(t, items, n), items[i])
    decreases Array(items), 0, n
  {
    hide Covers, Add;
    if n > 0 {
      AddItemsCovers(t, items, n - 1);
      AddCovers(EMPTY, items[n - 1]);
      var before := AddItems(t, items, n - 1);
      AddCovers(before, items[n - 1]);
      forall i | 0 <= i < n - 1 ensures Covers(AddItems(t, items, n), items[i]) {
        AddKeepsCovering(before, items[n - 1], items[i]);
      }
    }
  }

  lemma AddKeepsCovering(t: Tally, added: Value, v: Value)
    requires Sound(t) && Covers(t, v)
    requires Sound(Add(EMPTY, added))
    ensures Covers(Add(t, added), v)
  {
    AddIsMerge(t, added);
    MergeKeepsCovering(t, Add(EMPTY, added), v);
  }

  // ----- whatever was counted is admitted -----------------------------------------------------

  lemma {:induction false} MergeAllCovers(acc: Tally, members: map<string, Counted>, v: Value)
    requires Sound(acc) && forall name | name in members :: Sound(members[name].values)
    ensures Sound(MergeAll(acc, members))
    ensures Covers(acc, v) || (exists name | name in members :: Covers(members[name].values, v))
        ==> Covers(MergeAll(acc, members), v)
    decreases |members|
  {
    hide Sound, Covers, Merge;
    if members != map[] {
      var name := Pick(members.Keys);
      var rest := members - {name};
      var next := Merge(acc, members[name].values);
      MergeStaysSound(acc, members[name].values);
      MergeAllCovers(next, rest, v);
      if Covers(acc, v) { MergeKeepsCovering(acc, members[name].values, v); }
      if Covers(members[name].values, v) {
        MergeKeepsCovering(members[name].values, acc, v);
        MergeCommutes(acc, members[name].values);
      }
      assert forall k | k in members :: k == name || (k in rest && rest[k] == members[k]);
    }
  }

  lemma NamesFormCovers(names: set<string>, name: string)
    requires name in names
    ensures FormBelow(StringFormOf(name), NamesForm(names))
  {
    var first := Pick(names);
    JoinNamesIsLeast(StringFormOf(first), names - {first}, NamesForm(names));
  }

  /** Both as a record and as a map, the shape of a tally is above every value it counted. */
  lemma {:induction false} CoveredIsBelow(t: Tally, v: Value, judge: bool)
    requires Sound(t) && Covers(t, v)
    ensures Below(Observe(v), ShapeOf(t, judge))
    decreases v, 1
  {
    match v
    case Array(items) =>
      var shape := ShapeOf(t.items.value, true);
      forall i | 0 <= i < |items| ensures Below(Observe(items[i]), shape) {
        CoveredIsBelow(t.items.value, items[i], true);
      }
      ItemsBelow(items, |items|, shape);
    case Object(members) => CoveredObjectIsBelow(t.obj.value, members, judge, t);
    case _ =>
  }

  lemma {:induction false} CoveredObjectIsBelow(o: ObjectTally, members: map<string, Value>, judge: bool, t: Tally)
    requires Sound(t) && Covers(t, Object(members)) && t.obj == Some(o)
    ensures ObjectBelow(Observe(Object(members)).obj.value, ObjectShapeOf(o, judge))
    decreases Object(members), 0
  {
    if judge && MapLike(o) {
      var values := MergeAll(EMPTY, o.members);
      forall name | name in members
        ensures FormBelow(StringFormOf(name), NamesForm(o.members.Keys))
        ensures Below(Observe(members[name]), ShapeOf(values, true))
      {
        NamesFormCovers(o.members.Keys, name);
        MergeAllCovers(EMPTY, o.members, members[name]);
        CoveredIsBelow(values, members[name], true);
      }
    } else {
      forall name | name in members
        ensures Below(Observe(members[name]), ShapeOf(o.members[name].values, true))
      {
        CoveredIsBelow(o.members[name].values, members[name], true);
      }
    }
  }

  lemma {:induction false} TallyOfCovers(values: seq<Value>)
    ensures Sound(TallyOf(values)) && forall i | 0 <= i < |values| :: Covers(TallyOf(values), values[i])
  {
    hide Covers, Add;
    if values != [] {
      var front, last := values[..|values| - 1], values[|values| - 1];
      TallyOfCovers(front);
      AddCovers(TallyOf(front), last);
      AddCovers(EMPTY, last);
      forall i | 0 <= i < |front| ensures Covers(TallyOf(values), values[i]) {
        assert values[i] == front[i];
        AddKeepsCovering(TallyOf(front), last, front[i]);
      }
    }
  }

  /** Inference never refuses what it was inferred from, at any depth. */
  lemma InferAdmitsItsValues(values: seq<Value>, i: nat)
    requires i < |values|
    ensures Admits(Infer(values), values[i])
  {
    TallyOfCovers(values);
    CoveredIsBelow(TallyOf(values), values[i], true);
    LeIsBelow(Observe(values[i]), Infer(values));
  }
}
