/** Tallies as they are kept: counted in place, value by value, and reduced to a contract at the end. */
module Tallying {
  import opened Json
  import opened Lexical
  import opened Order
  import opened Shapes
  import opened Tallies
  import opened Inference
  import opened TableContract

  /** Joins the facts of scalars, which say nothing of objects or arrays. */
  function JoinScalars(a: Shape, b: Shape): Shape {
    Shape(a.nil || b.nil, a.boolean || b.boolean,
          JoinOptional(a.number, b.number, JoinNumbers), JoinOptional(a.text, b.text, JoinForms), None, None)
  }

  lemma JoinsScalars(a: Shape, b: Shape)
    requires a.obj.None? && a.items.None? && b.obj.None? && b.items.None?
    ensures Join(a, b) == JoinScalars(a, b)
  {
  }

  function ObserveScalar(v: Value): Shape
    requires !v.Array? && !v.Object?
  {
    match v
    case Null => BOTTOM.(nil := true)
    case Bool(_) => BOTTOM.(boolean := true)
    case Number(lexeme) => BOTTOM.(number := Some(NumberClassOf(lexeme)))
    case String(text) => BOTTOM.(text := Some(StringFormOf(text)))
  }

  lemma EmptyIsSound()
    ensures Sound(EMPTY)
  {
  }

  class Counts {
    var scalars: Shape
    var obj: Option<ObjectTally>
    var items: Option<Tally>

    function Held(): Tally
      reads this
    {
      Tally(scalars, obj, items)
    }

    constructor (t: Tally)
      ensures Held() == t
    {
      scalars, obj, items := t.scalars, t.obj, t.items;
    }

    /** Count one more value. */
    method Count(v: Value)
      requires Sound(Held())
      modifies this
      ensures Held() == Add(old(Held()), v) && Sound(Held())
      decreases v
    {
      AddCovers(Held(), v);
      match v
      case Array(elements) =>
        EmptyIsSound();
        var counted := CountItems(OrEmpty(items), elements);
        items := Some(counted);
      case Object(members) =>
        var tallied := OrNobody(obj);
        var counted := CountMembers(tallied, members);
        obj := Some(ObjectTally(tallied.instances + 1, counted));
      case _ =>
        JoinsScalars(scalars, ObserveScalar(v));
        scalars := JoinScalars(scalars, ObserveScalar(v));
    }

    /** Add another tally in. */
    method Absorb(other: Tally)
      requires Sound(Held()) && Sound(other)
      modifies this
      ensures Held() == Merge(old(Held()), other) && Sound(Held())
      decreases other
    {
      MergeStaysSound(Held(), other);
      JoinsScalars(scalars, other.scalars);
      scalars := JoinScalars(scalars, other.scalars);
      if other.obj.Some? {
        var ours, theirs := OrNobody(obj), other.obj.value;
        var merged := AbsorbMembers(ours, theirs);
        obj := Some(ObjectTally(ours.instances + theirs.instances, merged));
      }
      if other.items.Some? {
        EmptyIsSound();
        var inner := new Counts(OrEmpty(items));
        inner.Absorb(other.items.value);
        items := Some(inner.Held());
      }
    }
  }

  /** Count the elements of one more array. */
  method CountItems(t: Tally, elements: seq<Value>) returns (counted: Tally)
    requires Sound(t)
    ensures counted == AddItems(t, elements, |elements|)
    decreases Array(elements), 0
  {
    hide Sound, Add;
    var inner := new Counts(t);
    for i := 0 to |elements|
      invariant Sound(inner.Held()) && inner.Held() == AddItems(t, elements, i)
      modifies inner
    {
      inner.Count(elements[i]);
    }
    counted := inner.Held();
  }

  ghost predicate AllSound(members: map<string, Counted>) {
    forall name | name in members :: Sound(members[name].values)
  }

  /** Count the members of one more object. */
  method CountMembers(o: ObjectTally, members: map<string, Value>) returns (counted: map<string, Counted>)
    requires AllSound(o.members)
    ensures counted == AddObject(o, members).members
    decreases Object(members), 0
  {
    hide Add, Sound, AllSound, AddObject, CountedSoFar, Entry;
    counted := o.members;
    var left := members.Keys;
    CountedAtEnds(o, members);
    while left != {}
      invariant left <= members.Keys && counted == CountedSoFar(o, members, left)
      decreases |left|
    {
      var name :| name in left;
      var entry := Entry(counted, name);
      CountedStep(o, members, left, name);
      var inner := new Counts(entry.values);
      inner.Count(members[name]);
      counted := counted[name := Counted(entry.count + 1, inner.Held())];
      left := left - {name};
    }
  }

  /** The members as they are counted while those in `left` are yet to be. */
  ghost function CountedSoFar(o: ObjectTally, members: map<string, Value>, left: set<string>): map<string, Counted> {
    map name | name in o.members.Keys + (members.Keys - left) ::
      var entry := Entry(o.members, name);
      if name in members && name !in left then Counted(entry.count + 1, Add(entry.values, members[name])) else entry
  }

  lemma CountedAtEnds(o: ObjectTally, members: map<string, Value>)
    ensures CountedSoFar(o, members, members.Keys) == o.members
    ensures CountedSoFar(o, members, {}) == AddObject(o, members).members
  {
    hide Add;
  }

  lemma CountedStep(o: ObjectTally, members: map<string, Value>, left: set<string>, name: string)
    requires AllSound(o.members) && name in left && left <= members.Keys
    ensures var counted, entry := CountedSoFar(o, members, left), Entry(CountedSoFar(o, members, left), name);
      && Sound(entry.values)
      && CountedSoFar(o, members, left - {name})
        == counted[name := Counted(entry.count + 1, Add(entry.values, members[name]))]
  {
    hide Add, Sound;
    EmptyIsSound();
  }

  /** Add the members another tally counted. */
  method AbsorbMembers(ours: ObjectTally, theirs: ObjectTally) returns (merged: map<string, Counted>)
    requires AllSound(ours.members) && AllSound(theirs.members)
    ensures merged == MergeObjects(ours, theirs).members
    decreases theirs, 0
  {
    hide Merge, Sound, AllSound, MergeObjects, MergedSoFar, Entry;
    merged := ours.members;
    var left := theirs.members.Keys;
    MergedAtEnds(ours, theirs);
    while left != {}
      invariant left <= theirs.members.Keys && merged == MergedSoFar(ours, theirs, left)
      decreases |left|
    {
      var name :| name in left;
      var entry, other := Entry(merged, name), theirs.members[name];
      MergedStep(ours, theirs, left, name);
      var inner := new Counts(entry.values);
      inner.Absorb(other.values);
      merged := merged[name := Counted(entry.count + other.count, inner.Held())];
      left := left - {name};
    }
  }

  /** The members as they are merged while those in `left` are yet to be. */
  ghost function MergedSoFar(ours: ObjectTally, theirs: ObjectTally, left: set<string>): map<string, Counted> {
    map name | name in ours.members.Keys + (theirs.members.Keys - left) ::
      var entry := Entry(ours.members, name);
      if name in theirs.members && name !in left
      then Counted(entry.count + theirs.members[name].count, Merge(entry.values, theirs.members[name].values))
      else entry
  }

  lemma MergedAtEnds(ours: ObjectTally, theirs: ObjectTally)
    ensures MergedSoFar(ours, theirs, theirs.members.Keys) == ours.members
    ensures MergedSoFar(ours, theirs, {}) == MergeObjects(ours, theirs).members
  {
    hide Merge;
  }

  lemma MergedStep(ours: ObjectTally, theirs: ObjectTally, left: set<string>, name: string)
    requires AllSound(ours.members) && AllSound(theirs.members) && name in left && left <= theirs.members.Keys
    ensures var merged, other := MergedSoFar(ours, theirs, left), theirs.members[name];
      var entry := Entry(merged, name);
      && Sound(entry.values) && Sound(other.values)
      && MergedSoFar(ours, theirs, left - {name}) ==
         merged[name := Counted(entry.count + other.count, Merge(entry.values, other.values))]
  {
    hide Merge, Sound;
    EmptyIsSound();
  }

  // ----- reducing a tally to a shape -----------------------------------------------------------------

  lemma {:induction false} MergeAllFrom(acc: Tally, u: Tally, members: map<string, Counted>)
    ensures MergeAll(Merge(acc, u), members) == Merge(MergeAll(acc, members), u)
    decreases |members|
  {
    hide Merge;
    if members != map[] {
      var name := Pick(members.Keys);
      var other := members[name].values;
      MergeAssociates(acc, u, other);
      MergeCommutes(u, other);
      MergeAssociates(acc, other, u);
      MergeAllFrom(Merge(acc, other), u, members - {name});
    }
  }

  /** Any member may be merged last. */
  lemma {:induction false} MergeAllTakes(acc: Tally, members: map<string, Counted>, name: string)
    requires name in members
    ensures MergeAll(acc, members) == Merge(MergeAll(acc, members - {name}), members[name].values)
    decreases |members|
  {
    hide Merge, TallyHeight, MembersHeight;
    var first := Pick(members.Keys);
    var rest := members - {first};
    if first == name {
      MergeAllFrom(acc, members[name].values, rest);
    } else {
      var next := Merge(acc, members[first].values);
      MergeAllTakes(next, rest, name);
      MergeAllFrom(acc, members[first].values, rest - {name});
      MergeAllTakes(acc, members - {name}, first);
      assert rest - {name} == members - {name} - {first};
      var both := MergeAll(acc, rest - {name});
      MergeAssociates(both, members[first].values, members[name].values);
    }
  }

  /** The form of some names is the least above the form of each. */
  lemma NamesFormIsLeast(names: set<string>, bound: StringForm)
    requires names != {}
    ensures FormBelow(NamesForm(names), bound) <==> forall name | name in names :: FormBelow(StringFormOf(name), bound)
  {
    var first := Pick(names);
    JoinNamesIsLeast(StringFormOf(first), names - {first}, bound);
  }

  lemma OneMoreName(names: set<string>, name: string)
    requires name !in names
    ensures NamesForm(names + {name}) ==
      if names == {} then StringFormOf(name) else JoinForms(NamesForm(names), StringFormOf(name))
  {
    hide NamesForm, StringFormOf, JoinForms, FormBelow;
    var all := names + {name};
    var joined := if names == {} then StringFormOf(name) else JoinForms(NamesForm(names), StringFormOf(name));
    forall bound ensures FormBelow(NamesForm(all), bound) <==> FormBelow(joined, bound) {
      NamesFormIsLeast(all, bound);
      if names != {} {
        NamesFormIsLeast(names, bound);
        JoinFormsIsLeast(NamesForm(names), StringFormOf(name), bound);
      }
    }
    SameBounds(NamesForm(all), joined);
  }

  lemma SameBounds(a: StringForm, b: StringForm)
    requires forall bound :: FormBelow(a, bound) <==> FormBelow(b, bound)
    ensures a == b
  {
    assert FormBelow(a, a) && FormBelow(b, b);
  }

  /** The shape of a tally. */
  method Reduce(t: Tally, judge: bool) returns (s: Shape)
    requires Sound(t)
    ensures s == ShapeOf(t, judge)
    decreases TallyHeight(t), 0
  {
    hide TallyHeight, MembersHeight, ObjectShapeOf;
    PartsOfTallyAreLow(t);
    s := t.scalars;
    if t.items.Some? {
      var inner := Reduce(t.items.value, true);
      s := s.(items := Some(inner));
    }
    if t.obj.Some? {
      var o := ReduceObject(t.obj.value, judge);
      s := s.(obj := Some(o));
    }
  }

  method ReduceObject(o: ObjectTally, judge: bool) returns (s: ObjectShape)
    requires AllSound(o.members)
    ensures s == ObjectShapeOf(o, judge)
    decreases MembersHeight(o.members), 2
  {
    if judge && MapLike(o) {
      HasHeight(o.members);
      var names, values := MergeMembers(o.members);
      MergeAllIsSound(o.members);
      var inner := Reduce(values, true);
      s := Map(names, inner);
    } else {
      var members := ReduceMembers(o);
      s := Record(members);
    }
  }

  lemma MergeAllIsSound(members: map<string, Counted>)
    requires AllSound(members)
    ensures Sound(MergeAll(EMPTY, members))
  {
    EmptyIsSound();
    MergeAllCovers(EMPTY, members, Null);
  }

  /** The form of all the names, and all their values as one tally. */
  method MergeMembers(members: map<string, Counted>) returns (names: StringForm, values: Tally)
    requires members != map[] && AllSound(members)
    ensures names == NamesForm(members.Keys) && values == MergeAll(EMPTY, members)
  {
    hide Merge, Sound, AllSound, NamesForm, StringFormOf, JoinForms, MergeAll;
    EmptyIsSound();
    var merged := new Counts(EMPTY);
    var form: Option<StringForm> := None;
    var left := members.Keys;
    PartsAtEnds(members);
    while left != {}
      invariant left <= members.Keys
      invariant form == if left == members.Keys then None else Some(NamesForm(members.Keys - left))
      invariant Sound(merged.Held()) && merged.Held() == MergeAll(EMPTY, members - left)
      modifies merged
      decreases |left|
    {
      var name :| name in left;
      PartStep(members, left, name);
      merged.Absorb(members[name].values);
      form := Some(if form.None? then StringFormOf(name) else JoinForms(form.value, StringFormOf(name)));
      left := left - {name};
    }
    names, values := form.value, merged.Held();
  }

  lemma PartsAtEnds(members: map<string, Counted>)
    ensures MergeAll(EMPTY, members - members.Keys) == EMPTY
    ensures members - {} == members && members.Keys - {} == members.Keys
  {
    assert members - members.Keys == map[];
  }

  lemma PartStep(members: map<string, Counted>, left: set<string>, name: string)
    requires AllSound(members) && name in left && left <= members.Keys
    ensures Sound(members[name].values)
    ensures MergeAll(EMPTY, members - (left - {name})) == Merge(MergeAll(EMPTY, members - left), members[name].values)
    ensures NamesForm(members.Keys - (left - {name})) ==
      if left == members.Keys then StringFormOf(name)
      else JoinForms(NamesForm(members.Keys - left), StringFormOf(name))
  {
    hide Merge, Sound, MergeAll, NamesForm, StringFormOf, JoinForms;
    var more := members - (left - {name});
    MergeAllTakes(EMPTY, more, name);
    assert more - {name} == members - left;
    OneMoreName(members.Keys - left, name);
    assert members.Keys - left + {name} == members.Keys - (left - {name});
    assert members.Keys - left + left == members.Keys;
  }

  method ReduceMembers(o: ObjectTally) returns (members: map<string, Member>)
    requires AllSound(o.members)
    ensures Record(members) == ObjectShapeOf(o, false)
    decreases MembersHeight(o.members), 1
  {
    hide ShapeOf, Sound, TallyHeight, MembersHeight;
    members := map[];
    while members.Keys != o.members.Keys
      invariant members.Keys <= o.members.Keys
      invariant forall name | name in members :: members[name] == MemberOf(o, name)
      decreases |o.members.Keys - members.Keys|
    {
      var name :| name in o.members.Keys - members.Keys;
      EntryIsLow(o.members, name);
      var inner := Reduce(o.members[name].values, true);
      ghost var before := o.members.Keys - members.Keys;
      members := members[name := Member(inner, o.members[name].count == o.instances)];
      assert o.members.Keys - members.Keys == before - {name};
    }
    assert members == ObjectShapeOf(o, false).members;
  }

  ghost function MemberOf(o: ObjectTally, name: string): Member
    requires name in o.members
  {
    Member(ShapeOf(o.members[name].values, true), o.members[name].count == o.instances)
  }

  // ----- observing -------------------------------------------------------------------------------------

  /** The contract inferred from some values. */
  method InferShape(values: seq<Value>) returns (s: Shape)
    ensures s == Infer(values)
  {
    hide Add, ShapeOf, Sound;
    EmptyIsSound();
    var counts := new Counts(EMPTY);
    for i := 0 to |values|
      invariant Sound(counts.Held()) && counts.Held() == TallyOf(values[..i])
      modifies counts
    {
      assert values[..i + 1][..i] == values[..i];
      counts.Count(values[i]);
    }
    assert values[..|values|] == values;
    s := Reduce(counts.Held(), true);
  }

  /** The contract of a table's rows, observed in path order. */
  method ObserveTable(rows: seq<Row>) returns (contract: Contract)
    ensures contract == FromRows(rows)
  {
    hide Sort, ObjectShapeOf, AddObject, AllSound;
    var sorted := Sort(ByPath, rows);
    var repeated := FirstRepeat(sorted);
    if repeated.Some? { return DuplicatePath(repeated.value); }
    var tally := NOBODY;
    NobodyIsSound();
    for i := 0 to |sorted|
      invariant AllSound(tally.members) && tally == TallyRows(sorted[..i])
    {
      assert sorted[..i + 1][..i] == sorted[..i];
      var counted := CountMembers(tally, sorted[i].columns);
      AddObjectIsSound(tally, sorted[i].columns);
      tally := ObjectTally(tally.instances + 1, counted);
    }
    assert sorted[..|sorted|] == sorted;
    var shape := ReduceObject(tally, false);
    contract := Contract(BOTTOM.(obj := Some(shape)), |rows|);
  }

  lemma NobodyIsSound()
    ensures AllSound(NOBODY.members)
  {
  }

  lemma AddObjectIsSound(o: ObjectTally, members: map<string, Value>)
    requires AllSound(o.members)
    ensures AllSound(AddObject(o, members).members) && AddObject(o, members).instances == o.instances + 1
  {
    hide Add, Sound;
    EmptyIsSound();
    forall name | name in members ensures Sound(Add(Entry(o.members, name).values, members[name])) {
      AddCovers(Entry(o.members, name).values, members[name]);
    }
  }
}
