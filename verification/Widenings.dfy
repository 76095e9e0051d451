/**
 What a contract would have to give up to admit a value: every place the value
 lies outside it, and why.
 */
module Widenings {
  import opened Json
  import opened Lexical
  import opened Shapes

  datatype Step = Index(index: nat) | Name(name: string)

  datatype Reason =
    | AdmitNull
    | AdmitBoolean
    | AdmitNumber
    | WidenNumber(held: NumberClass, found: NumberClass)
    | AdmitString
    | WidenString(form: StringForm, text: string)
    | AdmitArray
    | AdmitObject
    | AdmitMember
    | MakeOptional
    | WidenName(names: StringForm, name: string)

  datatype Widening = Widening(at: seq<Step>, reason: Reason)

  ghost function Widen(s: Shape, v: Value, at: seq<Step>): set<Widening>
    decreases v
  {
    match v
    case Null => if s.nil then {} else {Widening(at, AdmitNull)}
    case Bool(_) => if s.boolean then {} else {Widening(at, AdmitBoolean)}
    case Number(lexeme) =>
      var found := NumberClassOf(lexeme);
      if s.number.None? then {Widening(at, AdmitNumber)}
      else if JoinNumbers(found, s.number.value) != s.number.value
        then {Widening(at, WidenNumber(s.number.value, found))}
      else {}
    case String(text) =>
      if s.text.None? then {Widening(at, AdmitString)}
      else if JoinForms(StringFormOf(text), s.text.value) != s.text.value
        then {Widening(at, WidenString(s.text.value, text))}
      else {}
    case Array(items) =>
      if s.items.None? then {Widening(at, AdmitArray)}
      else set i, w | 0 <= i < |items| && w in Widen(s.items.value, items[i], at + [Index(i)]) :: w
    case Object(members) =>
      if s.obj.None? then {Widening(at, AdmitObject)}
      else
        match s.obj.value
        case Record(known) =>
          (set name, w | name in members && name in known
            && w in Widen(known[name].shape, members[name], at + [Name(name)]) :: w)
          + (set name | name in members && name !in known :: Widening(at + [Name(name)], AdmitMember))
          + (set name | name in known && known[name].required && name !in members ::
            Widening(at + [Name(name)], MakeOptional))
        case Map(names, values) =>
          (set name | name in members && JoinForms(StringFormOf(name), names) != names ::
            Widening(at, WidenName(names, name)))
          + (set name, w | name in members && w in Widen(values, members[name], at + [Name(name)]) :: w)
  }

  /** Nothing would have to widen exactly when the value is inside the contract. */
  lemma WidenIsEmptyExactlyWhenAdmitted(s: Shape, v: Value, at: seq<Step>)
    ensures Widen(s, v, at) == {} <==> Admits(s, v)
  {
    WidenMatchesOrder(s, v, at);
    LeIsBelow(Observe(v), s);
  }

  lemma {:induction false} WidenMatchesOrder(s: Shape, v: Value, at: seq<Step>)
    ensures Widen(s, v, at) == {} <==> Below(Observe(v), s)
    decreases v, 1
  {
    match v
    case Array(items) =>
      if s.items.Some? { ArrayWidens(s, items, at); }
    case Object(members) =>
      if s.obj.Some? {
        if s.obj.value.Record? { RecordWidens(s, members, at); } else { MapWidens(s, members, at); }
      }
    case _ =>
  }

  lemma {:induction false} ArrayWidens(s: Shape, items: seq<Value>, at: seq<Step>)
    requires s.items.Some?
    ensures Widen(s, Array(items), at) == {} <==> Below(Observe(Array(items)), s)
    decreases Array(items), 0
  {
    hide StringFormOf, NumberClassOf;
    var inner := s.items.value;
    ItemsBelow(items, |items|, inner);
    forall i | 0 <= i < |items|
      ensures Widen(inner, items[i], at + [Index(i)]) == {} <==> Below(Observe(items[i]), inner)
    {
      WidenMatchesOrder(inner, items[i], at + [Index(i)]);
    }
    forall i | 0 <= i < |items| ensures Widen(inner, items[i], at + [Index(i)]) <= Widen(s, Array(items), at) {
    }
  }

  lemma {:induction false} RecordWidens(s: Shape, members: map<string, Value>, at: seq<Step>)
    requires s.obj.Some? && s.obj.value.Record?
    ensures Widen(s, Object(members), at) == {} <==> Below(Observe(Object(members)), s)
    decreases Object(members), 0
  {
    hide StringFormOf, NumberClassOf;
    var known := s.obj.value.members;
    var all := Widen(s, Object(members), at);
    forall name | name in members && name in known
      ensures Widen(known[name].shape, members[name], at + [Name(name)]) == {}
         <==> Below(Observe(members[name]), known[name].shape)
    {
      WidenMatchesOrder(known[name].shape, members[name], at + [Name(name)]);
    }
    forall name | name in members && name in known
      ensures Widen(known[name].shape, members[name], at + [Name(name)]) <= all
    {
    }
    forall name | name in members && name !in known ensures all != {} {
      assert Widening(at + [Name(name)], AdmitMember) in all;
    }
    forall name | name in known && known[name].required && name !in members ensures all != {} {
      assert Widening(at + [Name(name)], MakeOptional) in all;
    }
  }

  lemma {:induction false} MapWidens(s: Shape, members: map<string, Value>, at: seq<Step>)
    requires s.obj.Some? && s.obj.value.Map?
    ensures Widen(s, Object(members), at) == {} <==> Below(Observe(Object(members)), s)
    decreases Object(members), 0
  {
    hide StringFormOf, NumberClassOf;
    var names, values := s.obj.value.names, s.obj.value.values;
    var all := Widen(s, Object(members), at);
    forall name | name in members
      ensures Widen(values, members[name], at + [Name(name)]) == {} <==> Below(Observe(members[name]), values)
    {
      WidenMatchesOrder(values, members[name], at + [Name(name)]);
    }
    forall name | name in members ensures Widen(values, members[name], at + [Name(name)]) <= all {
    }
    forall name | name in members && JoinForms(StringFormOf(name), names) != names ensures all != {} {
      assert Widening(at, WidenName(names, name)) in all;
    }
  }

  // ----- listing them ------------------------------------------------------------------------

  ghost function Listed(ws: seq<Widening>): set<Widening> {
    set w | w in ws
  }

  lemma ListedMore(ws: seq<Widening>, more: seq<Widening>)
    ensures Listed(ws + more) == Listed(ws) + Listed(more)
    ensures Listed([]) == {} && forall w :: Listed([w]) == {w}
  {
  }

  /** What the first `n` elements widen. */
  ghost function ItemsWiden(inner: Shape, items: seq<Value>, at: seq<Step>, n: nat): set<Widening>
    requires n <= |items|
  {
    set i, w | 0 <= i < n && w in Widen(inner, items[i], at + [Index(i)]) :: w
  }

  /** What one member widens. */
  ghost function MemberWidens(o: ObjectShape, members: map<string, Value>, at: seq<Step>, name: string): set<Widening>
    requires name in members
  {
    match o
    case Record(known) =>
      if name in known then Widen(known[name].shape, members[name], at + [Name(name)])
      else {Widening(at + [Name(name)], AdmitMember)}
    case Map(names, values) =>
      (if JoinForms(StringFormOf(name), names) != names then {Widening(at, WidenName(names, name))} else {})
      + Widen(values, members[name], at + [Name(name)])
  }

  ghost function MembersWiden(
    o: ObjectShape, members: map<string, Value>, at: seq<Step>, done: set<string>): set<Widening>
  {
    set name, w | name in done && name in members && w in MemberWidens(o, members, at, name) :: w
  }

  function Required(known: map<string, Member>, members: map<string, Value>): set<string> {
    set name | name in known && known[name].required && name !in members
  }

  ghost function MissingWiden(names: set<string>, at: seq<Step>): set<Widening> {
    set name | name in names :: Widening(at + [Name(name)], MakeOptional)
  }

  lemma ObjectWidens(s: Shape, members: map<string, Value>, at: seq<Step>)
    requires s.obj.Some?
    ensures Widen(s, Object(members), at) == MembersWiden(s.obj.value, members, at, members.Keys) +
      if s.obj.value.Record? then MissingWiden(Required(s.obj.value.members, members), at) else {}
  {
    hide StringFormOf, JoinForms, MembersWiden, MissingWiden, Required;
    var all := Widen(s, Object(members), at);
    var o := s.obj.value;
    match o {
      case Record(known) =>
        var missing := Required(known, members);
        forall w
          ensures w in all <==> w in MembersWiden(o, members, at, members.Keys) || w in MissingWiden(missing, at)
        {
          RecordMember(known, members, at, w);
          MissingMember(known, members, at, w);
        }
      case Map(names, values) =>
        forall w ensures w in all <==> w in MembersWiden(o, members, at, members.Keys) {
          MapMember(names, values, members, at, w);
        }
    }
  }

  lemma RecordMember(known: map<string, Member>, members: map<string, Value>, at: seq<Step>, w: Widening)
    ensures w in MembersWiden(Record(known), members, at, members.Keys) <==>
      || (exists name ::
        name in members && name in known && w in Widen(known[name].shape, members[name], at + [Name(name)]))
      || (exists name :: name in members && name !in known && w == Widening(at + [Name(name)], AdmitMember))
  {
    hide Widen;
    forall name | name in members
      ensures name in known ==>
        MemberWidens(Record(known), members, at, name) == Widen(known[name].shape, members[name], at + [Name(name)])
      ensures name !in known ==>
        MemberWidens(Record(known), members, at, name) == {Widening(at + [Name(name)], AdmitMember)}
    {
    }
  }

  lemma MissingMember(known: map<string, Member>, members: map<string, Value>, at: seq<Step>, w: Widening)
    ensures w in MissingWiden(Required(known, members), at) <==>
      exists name ::
        name in known && known[name].required && name !in members && w == Widening(at + [Name(name)], MakeOptional)
  {
  }

  lemma MapMember(names: StringForm, values: Shape, members: map<string, Value>, at: seq<Step>, w: Widening)
    ensures w in MembersWiden(Map(names, values), members, at, members.Keys) <==>
      || (exists name ::
        name in members && JoinForms(StringFormOf(name), names) != names && w == Widening(at, WidenName(names, name)))
      || (exists name :: name in members && w in Widen(values, members[name], at + [Name(name)]))
  {
    hide Widen, StringFormOf, JoinForms;
    forall name | name in members
      ensures MemberWidens(Map(names, values), members, at, name) ==
        (if JoinForms(StringFormOf(name), names) != names then {Widening(at, WidenName(names, name))} else {})
        + Widen(values, members[name], at + [Name(name)])
    {
    }
  }

  lemma OneMoreMember(o: ObjectShape, members: map<string, Value>, at: seq<Step>, done: set<string>, name: string)
    requires name in members
    ensures MembersWiden(o, members, at, done + {name})
      == MembersWiden(o, members, at, done) + MemberWidens(o, members, at, name)
    ensures MembersWiden(o, members, at, {}) == {}
  {
    hide Widen, MemberWidens;
  }

  /** Append every widening to a list: afterwards it holds those it held, and exactly those the value calls for. */
  method ListWidenings(s: Shape, v: Value, at: seq<Step>, out: seq<Widening>) returns (all: seq<Widening>)
    ensures out <= all && Listed(all) == Listed(out) + Widen(s, v, at)
    decreases v, 1
  {
    hide Listed;
    ListedMore(out, []);
    all := out;
    match v
    case Null => if !s.nil { all := out + [Widening(at, AdmitNull)]; ListedMore(out, [Widening(at, AdmitNull)]); }
    case Bool(_) => if !s.boolean { all := out
      + [Widening(at, AdmitBoolean)]; ListedMore(out, [Widening(at, AdmitBoolean)]); }
    case Number(lexeme) =>
      var found := NumberClassOf(lexeme);
      var more :=
        if s.number.None? then [Widening(at, AdmitNumber)]
        else if JoinNumbers(found, s.number.value) != s.number.value
          then [Widening(at, WidenNumber(s.number.value, found))]
        else [];
      all := out + more;
      ListedMore(out, more);
    case String(text) =>
      var more :=
        if s.text.None? then [Widening(at, AdmitString)]
        else if JoinForms(StringFormOf(text), s.text.value) != s.text.value
          then [Widening(at, WidenString(s.text.value, text))]
        else [];
      all := out + more;
      ListedMore(out, more);
    case Array(items) =>
      if s.items.None? {
        all := out + [Widening(at, AdmitArray)];
        ListedMore(out, [Widening(at, AdmitArray)]);
      } else {
        for i := 0 to |items|
          invariant out <= all && Listed(all) == Listed(out) + ItemsWiden(s.items.value, items, at, i)
        {
          all := ListWidenings(s.items.value, items[i], at + [Index(i)], all);
          assert ItemsWiden(s.items.value, items, at, i + 1)
            == ItemsWiden(s.items.value, items, at, i) + Widen(s.items.value, items[i], at + [Index(i)]);
        }
      }
    case Object(members) =>
      if s.obj.None? {
        all := out + [Widening(at, AdmitObject)];
        ListedMore(out, [Widening(at, AdmitObject)]);
      } else {
        ObjectWidens(s, members, at);
        all := ListMembers(s.obj.value, members, at, all);
        if s.obj.value.Record? { all := ListMissing(Required(s.obj.value.members, members), at, all); }
      }
  }

  method ListMembers(o: ObjectShape, members: map<string, Value>, at: seq<Step>, out: seq<Widening>)
    returns (all: seq<Widening>)
    ensures out <= all && Listed(all) == Listed(out) + MembersWiden(o, members, at, members.Keys)
    decreases Object(members), 0
  {
    hide Listed, MembersWiden, Widen, StringFormOf;
    all := out;
    var left := members.Keys;
    NoMembers(o, members, at);
    assert members.Keys - members.Keys == {};
    while left != {}
      invariant left <= members.Keys && out <= all
      invariant Listed(all) == Listed(out) + MembersWiden(o, members, at, members.Keys - left)
      decreases |left|
    {
      var name :| name in left;
      OneMoreMember(o, members, at, members.Keys - left, name);
      assert members.Keys - left + {name} == members.Keys - (left - {name});
      match o {
        case Record(known) =>
          if name in known {
            all := ListWidenings(known[name].shape, members[name], at + [Name(name)], all);
          } else {
            ListedMore(all, [Widening(at + [Name(name)], AdmitMember)]);
            all := all + [Widening(at + [Name(name)], AdmitMember)];
          }
        case Map(names, values) =>
          if JoinForms(StringFormOf(name), names) != names {
            ListedMore(all, [Widening(at, WidenName(names, name))]);
            all := all + [Widening(at, WidenName(names, name))];
          }
          all := ListWidenings(values, members[name], at + [Name(name)], all);
      }
      left := left - {name};
    }
    assert members.Keys - {} == members.Keys;
  }

  lemma NoMembers(o: ObjectShape, members: map<string, Value>, at: seq<Step>)
    ensures MembersWiden(o, members, at, {}) == {}
  {
  }

  method ListMissing(missing: set<string>, at: seq<Step>, out: seq<Widening>) returns (all: seq<Widening>)
    ensures out <= all && Listed(all) == Listed(out) + MissingWiden(missing, at)
  {
    hide Listed;
    all := out;
    var left := missing;
    while left != {}
      invariant left <= missing && out <= all
      invariant Listed(all) == Listed(out) + MissingWiden(missing - left, at)
      decreases |left|
    {
      var name :| name in left;
      ListedMore(all, [Widening(at + [Name(name)], MakeOptional)]);
      all := all + [Widening(at + [Name(name)], MakeOptional)];
      assert missing - (left - {name}) == missing - left + {name};
      left := left - {name};
    }
    assert missing - {} == missing;
  }
}
