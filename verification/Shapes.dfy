/**
 The observed contract: what the JSON at one path has been seen to be, and the
 join-semilattice those contracts form.
 */
module Shapes {
  import opened Json
  import opened Lexical

  datatype Member = Member(shape: Shape, required: bool)

  datatype ObjectShape =
    | Record(members: map<string, Member>)
    | Map(names: StringForm, values: Shape)

  datatype Shape = Shape(
    nil: bool,
    boolean: bool,
    number: Option<NumberClass>,
    text: Option<StringForm>,
    obj: Option<ObjectShape>,
    items: Option<Shape>)

  const BOTTOM := Shape(false, false, None, None, None, None)

  // ----- height: what the recursion through maps descends on ----------------------

  ghost function Max(heights: set<nat>): (m: nat)
    ensures forall h | h in heights :: h <= m
    ensures m == 0 || m in heights
  {
    if heights == {} then 0
    else
      var h :| h in heights;
      var rest := Max(heights - {h});
      assert heights == (heights - {h}) + {h};
      if rest < h then h else rest
  }

  ghost function Taller(a: nat, b: nat): (m: nat)
    ensures m == a || m == b
    ensures a <= m && b <= m
  {
    if a < b then b else a
  }

  ghost function Height(s: Shape): nat {
    1 + Taller(
      if s.items.Some? then Height(s.items.value) else 0,
      if s.obj.Some? then ObjectHeight(s.obj.value) else 0)
  }

  ghost function ObjectHeight(o: ObjectShape): nat {
    match o
    case Record(members) => Max(set k | k in members :: Height(members[k].shape))
    case Map(_, values) => Height(values)
  }

  lemma PartsAreLower(s: Shape)
    ensures Height(s) > 0
    ensures s.items.Some? ==> Height(s.items.value) < Height(s)
    ensures s.obj.Some? ==> ObjectHeight(s.obj.value) < Height(s)
    ensures s.obj.Some? && s.obj.value.Record? ==>
              forall k | k in s.obj.value.members :: Height(s.obj.value.members[k].shape) < Height(s)
  {
    if s.obj.Some? && s.obj.value.Record? {
      forall k | k in s.obj.value.members
        ensures Height(s.obj.value.members[k].shape) < Height(s)
      {
        MemberIsLow(s.obj.value.members, k);
      }
    }
  }

  lemma ShapeIsLow(s: Shape, bound: nat)
    requires bound > 0
    requires s.items.Some? ==> Height(s.items.value) < bound
    requires s.obj.Some? ==> ObjectHeight(s.obj.value) < bound
    ensures Height(s) <= bound
  {
  }

  lemma MemberIsLow(members: map<string, Member>, k: string)
    requires k in members
    ensures Height(members[k].shape) <= ObjectHeight(Record(members))
  {
    var heights := set j | j in members :: Height(members[j].shape);
    assert Height(members[k].shape) in heights;
    assert ObjectHeight(Record(members)) == Max(heights);
  }

  lemma MembersAreLow(members: map<string, Member>)
    ensures forall k | k in members :: Height(members[k].shape) <= ObjectHeight(Record(members))
  {
    forall k | k in members { MemberIsLow(members, k); }
  }

  lemma RecordIsLow(members: map<string, Member>, bound: nat)
    requires forall k | k in members :: Height(members[k].shape) <= bound
    ensures ObjectHeight(Record(members)) <= bound
  {
    var heights := set k | k in members :: Height(members[k].shape);
    assert ObjectHeight(Record(members)) == Max(heights);
  }

  lemma RestIsLow(members: map<string, Member>, name: string)
    ensures ObjectHeight(Record(members - {name})) <= ObjectHeight(Record(members))
  {
    var rest := members - {name};
    forall k | k in rest ensures Height(rest[k].shape) <= ObjectHeight(Record(members)) {
      MemberIsLow(members, k);
    }
    RecordIsLow(rest, ObjectHeight(Record(members)));
  }

  // ----- join -----------------------------------------------------------------------

  function JoinOptional<T>(a: Option<T>, b: Option<T>, join: (T, T) -> T): Option<T> {
    match (a, b)
    case (Some(x), Some(y)) => Some(join(x, y))
    case (Some(_), None) => a
    case (None, _) => b
  }

  /** The least shape covering both. */
  ghost function Join(a: Shape, b: Shape): (r: Shape)
    ensures Height(r) <= Taller(Height(a), Height(b))
    decreases Taller(Height(a), Height(b)), 1, 0
  {
    hide Height, ObjectHeight;
    PartsAreLower(a);
    PartsAreLower(b);
    var obj :=
      if a.obj.Some? && b.obj.Some? then Some(JoinObjects(a.obj.value, b.obj.value))
      else if a.obj.Some? then a.obj else b.obj;
    var items :=
      if a.items.Some? && b.items.Some? then Some(Join(a.items.value, b.items.value))
      else if a.items.Some? then a.items else b.items;
    var r := Shape(
      a.nil || b.nil,
      a.boolean || b.boolean,
      JoinOptional(a.number, b.number, JoinNumbers),
      JoinOptional(a.text, b.text, JoinForms),
      obj,
      items);
    ShapeIsLow(r, Taller(Height(a), Height(b)));
    r
  }

  ghost function JoinObjects(a: ObjectShape, b: ObjectShape): (r: ObjectShape)
    ensures ObjectHeight(r) <= Taller(ObjectHeight(a), ObjectHeight(b))
    decreases Taller(ObjectHeight(a), ObjectHeight(b)), 2, 0
  {
    match (a, b)
    case (Record(left), Record(right)) =>
      Record(JoinRecords(left, right))
    case (Map(names, values), Record(members)) =>
      Map(JoinNames(names, members.Keys), JoinValues(values, members))
    case (Record(members), Map(names, values)) =>
      Map(JoinNames(names, members.Keys), JoinValues(values, members))
    case (Map(names, values), Map(otherNames, otherValues)) =>
      Map(JoinForms(names, otherNames), Join(values, otherValues))
  }

  /** Members of either side; one is required only where both sides require it. */
  ghost function JoinRecords(left: map<string, Member>, right: map<string, Member>): (r: map<string, Member>)
    ensures ObjectHeight(Record(r)) <= Taller(ObjectHeight(Record(left)), ObjectHeight(Record(right)))
    ensures r.Keys == left.Keys + right.Keys
    decreases Taller(ObjectHeight(Record(left)), ObjectHeight(Record(right))), 1, 1
  {
    hide Height, ObjectHeight;
    var bound := Taller(ObjectHeight(Record(left)), ObjectHeight(Record(right)));
    MembersAreLow(left);
    MembersAreLow(right);
    var joined := map k | k in left.Keys + right.Keys ::
      if k in left && k in right then
        Member(Join(left[k].shape, right[k].shape), left[k].required && right[k].required)
      else if k in left then Member(left[k].shape, false)
      else Member(right[k].shape, false);
    RecordIsLow(joined, bound);
    joined
  }

  ghost function Pick(names: set<string>): (name: string)
    requires names != {}
    ensures name in names
  {
    var name :| name in names;
    name
  }

  ghost function JoinNames(names: StringForm, others: set<string>): StringForm
    decreases others
  {
    if others == {} then names
    else
      var name := Pick(others);
      JoinNames(JoinForms(names, StringFormOf(name)), others - {name})
  }

  /** A map's value shape, widened by every member of a record: in whatever order they come. */
  ghost function JoinValues(values: Shape, members: map<string, Member>): (r: Shape)
    ensures Height(r) <= Taller(Height(values), ObjectHeight(Record(members)))
    decreases Taller(Height(values), ObjectHeight(Record(members))), 1, |members|
  {
    if members == map[] then values
    else
      var name := Pick(members.Keys);
      MemberIsLow(members, name);
      RestIsLow(members, name);
      JoinValues(Join(values, members[name].shape), members - {name})
  }

  // ----- the order ------------------------------------------------------------------

  /** Everything `a` covers is covered by `b`, read off their structure. */
  ghost predicate Below(a: Shape, b: Shape)
    decreases a, 1
  {
    && (a.nil ==> b.nil)
    && (a.boolean ==> b.boolean)
    && (a.number.Some? ==> b.number.Some? && NumberBelow(a.number.value, b.number.value))
    && (a.text.Some? ==> b.text.Some? && FormBelow(a.text.value, b.text.value))
    && (a.items.Some? ==> b.items.Some? && Below(a.items.value, b.items.value))
    && (a.obj.Some? ==> b.obj.Some? && ObjectBelow(a.obj.value, b.obj.value))
  }

  ghost predicate ObjectBelow(a: ObjectShape, b: ObjectShape)
    decreases a, 0
  {
    match (a, b)
    case (Record(left), Record(right)) =>
      && (forall k | k in left :: k in right && Below(left[k].shape, right[k].shape))
      && (forall k | k in right && right[k].required :: k in left && left[k].required)
    case (Record(left), Map(names, values)) =>
      forall k | k in left :: FormBelow(StringFormOf(k), names) && Below(left[k].shape, values)
    case (Map(names, values), Map(otherNames, otherValues)) =>
      FormBelow(names, otherNames) && Below(values, otherValues)
    case (Map(_, _), Record(_)) => false
  }

  lemma {:induction false} BelowReflexive(a: Shape)
    ensures Below(a, a)
  {
    if a.items.Some? { BelowReflexive(a.items.value); }
    if a.obj.Some? {
      match a.obj.value
      case Record(members) =>
        forall k | k in members ensures Below(members[k].shape, members[k].shape) {
          BelowReflexive(members[k].shape);
        }
      case Map(_, values) => BelowReflexive(values);
    }
  }

  lemma {:induction false} BelowAntisymmetric(a: Shape, b: Shape)
    requires Below(a, b) && Below(b, a)
    ensures a == b
  {
    if a.items.Some? { BelowAntisymmetric(a.items.value, b.items.value); }
    if a.obj.Some? {
      match (a.obj.value, b.obj.value)
      case (Record(left), Record(right)) =>
        forall k | k in left ensures k in right && left[k] == right[k] {
          BelowAntisymmetric(left[k].shape, right[k].shape);
        }
        assert left == right;
      case (Map(_, values), Map(_, otherValues)) => BelowAntisymmetric(values, otherValues);
    }
  }

  // ----- join is the least upper bound -------------------------------------------------

  lemma {:induction false} JoinIsLeast(a: Shape, b: Shape, c: Shape)
    ensures Below(Join(a, b), c) <==> Below(a, c) && Below(b, c)
    decreases Taller(Height(a), Height(b)), 1, 0
  {
    hide Height, ObjectHeight, JoinObjects;
    PartsAreLower(a);
    PartsAreLower(b);
    var j := Join(a, b);
    assert j.items.Some? && c.items.Some? ==>
        (Below(j.items.value, c.items.value) <==>
          (a.items.Some? ==> Below(a.items.value, c.items.value))
            && (b.items.Some? ==> Below(b.items.value, c.items.value)))
    by {
      if a.items.Some? && b.items.Some? && c.items.Some? {
        JoinIsLeast(a.items.value, b.items.value, c.items.value);
      }
    }
    assert j.obj.Some? && c.obj.Some? ==>
        (ObjectBelow(j.obj.value, c.obj.value) <==>
          (a.obj.Some? ==> ObjectBelow(a.obj.value, c.obj.value))
            && (b.obj.Some? ==> ObjectBelow(b.obj.value, c.obj.value)))
    by {
      if a.obj.Some? && b.obj.Some? && c.obj.Some? {
        JoinObjectsIsLeast(a.obj.value, b.obj.value, c.obj.value);
      }
    }
  }

  lemma {:induction false} JoinObjectsIsLeast(a: ObjectShape, b: ObjectShape, c: ObjectShape)
    ensures ObjectBelow(JoinObjects(a, b), c) <==> ObjectBelow(a, c) && ObjectBelow(b, c)
    decreases Taller(ObjectHeight(a), ObjectHeight(b)), 2, 0
  {
    match (a, b)
    case (Record(left), Record(right)) => JoinRecordsIsLeast(left, right, c);
    case (Map(names, values), Record(members)) =>
      if c.Map? {
        JoinNamesIsLeast(names, members.Keys, c.names);
        JoinValuesIsLeast(values, members, c.values);
      }
    case (Record(members), Map(names, values)) =>
      if c.Map? {
        JoinNamesIsLeast(names, members.Keys, c.names);
        JoinValuesIsLeast(values, members, c.values);
      }
    case (Map(names, values), Map(otherNames, otherValues)) =>
      if c.Map? {
        JoinIsLeast(values, otherValues, c.values);
      }
  }

  lemma {:induction false} JoinRecordsIsLeast(left: map<string, Member>, right: map<string, Member>, c: ObjectShape)
    ensures ObjectBelow(Record(JoinRecords(left, right)), c)
       <==> ObjectBelow(Record(left), c) && ObjectBelow(Record(right), c)
    decreases Taller(ObjectHeight(Record(left)), ObjectHeight(Record(right))), 1, 1
  {
    hide Height, ObjectHeight, Join, StringFormOf;
    var joined := JoinRecords(left, right);
    forall k | k in joined && (c.Map? || k in c.members)
      ensures var bound := if c.Map? then c.values else c.members[k].shape;
        Below(joined[k].shape, bound) <==>
          (k in left ==> Below(left[k].shape, bound)) && (k in right ==> Below(right[k].shape, bound))
    {
      if k in left && k in right {
        MemberIsLow(left, k);
        MemberIsLow(right, k);
        JoinIsLeast(left[k].shape, right[k].shape, if c.Map? then c.values else c.members[k].shape);
      }
    }
    match c
    case Record(members) => RecordsBelowTogether(left, right, joined, members);
    case Map(_, _) => assert forall k :: k in joined <==> k in left || k in right;
  }

  lemma RecordsBelowTogether(
    left: map<string, Member>, right: map<string, Member>, joined: map<string, Member>, members: map<string, Member>)
    requires joined.Keys == left.Keys + right.Keys
    requires forall k | k in joined ::
      joined[k].required <==> k in left && k in right && left[k].required && right[k].required
    requires forall k | k in joined && k in members ::
      Below(joined[k].shape, members[k].shape) <==>
        (k in left ==> Below(left[k].shape, members[k].shape))
          && (k in right ==> Below(right[k].shape, members[k].shape))
    ensures ObjectBelow(Record(joined), Record(members))
       <==> ObjectBelow(Record(left), Record(members)) && ObjectBelow(Record(right), Record(members))
  {
    assert forall k :: k in joined <==> k in left || k in right;
  }

  lemma {:induction false} JoinNamesIsLeast(names: StringForm, others: set<string>, bound: StringForm)
    ensures FormBelow(JoinNames(names, others), bound)
       <==> FormBelow(names, bound) && forall name | name in others :: FormBelow(StringFormOf(name), bound)
    decreases others
  {
    if others != {} {
      var name := Pick(others);
      JoinNamesIsLeast(JoinForms(names, StringFormOf(name)), others - {name}, bound);
    }
  }

  lemma {:induction false} JoinValuesIsLeast(values: Shape, members: map<string, Member>, bound: Shape)
    ensures Below(JoinValues(values, members), bound)
       <==> Below(values, bound) && forall k | k in members :: Below(members[k].shape, bound)
    decreases Taller(Height(values), ObjectHeight(Record(members))), 1, |members|
  {
    if members != map[] {
      var name := Pick(members.Keys);
      MemberIsLow(members, name);
      RestIsLow(members, name);
      JoinIsLeast(values, members[name].shape, bound);
      var rest := members - {name};
      JoinValuesIsLeast(Join(values, members[name].shape), rest, bound);
      assert JoinValues(values, members) == JoinValues(Join(values, members[name].shape), rest);
      assert forall k :: k in members <==> k == name || k in rest;
    }
  }

  // ----- the semilattice laws -----------------------------------------------------------

  /** The order as the program decides it: `b` already covers everything `a` does. */
  ghost predicate Le(a: Shape, b: Shape) {
    Join(a, b) == b
  }

  /** Deciding by join and reading the structure agree. */
  lemma LeIsBelow(a: Shape, b: Shape)
    ensures Le(a, b) <==> Below(a, b)
  {
    BelowReflexive(b);
    JoinIsLeast(a, b, b);
    JoinCoversBoth(a, b);
    if Below(a, b) { BelowAntisymmetric(Join(a, b), b); }
  }

  lemma JoinCoversBoth(a: Shape, b: Shape)
    ensures Below(a, Join(a, b)) && Below(b, Join(a, b))
  {
    BelowReflexive(Join(a, b));
    JoinIsLeast(a, b, Join(a, b));
  }

  lemma BelowTransitive(a: Shape, b: Shape, c: Shape)
    requires Below(a, b) && Below(b, c)
    ensures Below(a, c)
  {
    LeIsBelow(a, b);
    JoinIsLeast(a, b, c);
  }

  lemma JoinCommutes(a: Shape, b: Shape)
    ensures Join(a, b) == Join(b, a)
  {
    JoinCoversBoth(a, b);
    JoinCoversBoth(b, a);
    JoinIsLeast(a, b, Join(b, a));
    JoinIsLeast(b, a, Join(a, b));
    BelowAntisymmetric(Join(a, b), Join(b, a));
  }

  lemma JoinAssociates(a: Shape, b: Shape, c: Shape)
    ensures Join(Join(a, b), c) == Join(a, Join(b, c))
  {
    var left, right := Join(Join(a, b), c), Join(a, Join(b, c));
    BelowReflexive(left);
    JoinIsLeast(Join(a, b), c, left);
    JoinIsLeast(a, b, left);
    JoinIsLeast(b, c, left);
    JoinIsLeast(a, Join(b, c), left);
    BelowReflexive(right);
    JoinIsLeast(a, Join(b, c), right);
    JoinIsLeast(b, c, right);
    JoinIsLeast(a, b, right);
    JoinIsLeast(Join(a, b), c, right);
    BelowAntisymmetric(left, right);
  }

  lemma JoinIsIdempotentWithBottom(a: Shape)
    ensures Join(a, a) == a && Join(BOTTOM, a) == a && Join(a, BOTTOM) == a
  {
    BelowReflexive(a);
    LeIsBelow(a, a);
    LeIsBelow(BOTTOM, a);
    JoinCommutes(a, BOTTOM);
  }

  // ----- observing values -----------------------------------------------------------------

  /** The exact shape of one value: every member required, every element joined. */
  ghost function Observe(v: Value): Shape
    decreases v, 0
  {
    match v
    case Null => BOTTOM.(nil := true)
    case Bool(_) => BOTTOM.(boolean := true)
    case Number(lexeme) => BOTTOM.(number := Some(NumberClassOf(lexeme)))
    case String(text) => BOTTOM.(text := Some(StringFormOf(text)))
    case Array(items) => BOTTOM.(items := Some(ObserveItems(items, |items|)))
    case Object(members) =>
      BOTTOM.(obj := Some(Record(map name | name in members :: Member(Observe(members[name]), true))))
  }

  /** The join of the first `n` elements. */
  ghost function ObserveItems(items: seq<Value>, n: nat): Shape
    requires n <= |items|
    decreases items, n
  {
    if n == 0 then BOTTOM else Join(ObserveItems(items, n - 1), Observe(items[n - 1]))
  }

  lemma BottomBelow(s: Shape)
    ensures Below(BOTTOM, s)
  {
  }

  lemma {:induction false} ItemsBelow(items: seq<Value>, n: nat, bound: Shape)
    requires n <= |items|
    ensures Below(ObserveItems(items, n), bound) <==> forall i | 0 <= i < n :: Below(Observe(items[i]), bound)
  {
    hide Observe, Below, Join;
    if n == 0 {
      BottomBelow(bound);
    } else {
      var last := Observe(items[n - 1]);
      ItemsBelow(items, n - 1, bound);
      JoinIsLeast(ObserveItems(items, n - 1), last, bound);
    }
  }

  /** Whether the value is inside the contract: observing it would leave the shape unchanged. */
  ghost predicate Admits(s: Shape, v: Value) {
    Le(Observe(v), s)
  }

  /** The shape widened to admit a value. */
  ghost function WideningFor(s: Shape, v: Value): Shape {
    Join(s, Observe(v))
  }

  /** It admits the value and all the shape did, and no smaller shape does both. */
  lemma WideningIsLeast(s: Shape, v: Value, wider: Shape)
    ensures Le(s, WideningFor(s, v)) && Admits(WideningFor(s, v), v)
    ensures Le(WideningFor(s, v), wider) <==> Le(s, wider) && Admits(wider, v)
  {
    JoinCoversBoth(s, Observe(v));
    LeIsBelow(s, WideningFor(s, v));
    LeIsBelow(Observe(v), WideningFor(s, v));
    JoinIsLeast(s, Observe(v), wider);
    LeIsBelow(WideningFor(s, v), wider);
    LeIsBelow(s, wider);
    LeIsBelow(Observe(v), wider);
  }
}
