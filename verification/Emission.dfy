/**
 Stating a contract as a schema: what `to_subschema` writes, and exactly which
 values that schema accepts, in reldir's dialect of JSON Schema 2020-12.
 */
module Emission {
  import opened Json
  import opened Lexical
  import opened Shapes

  datatype JsonType = NullType | BooleanType | IntegerType | NumberType | StringType | ArrayType | ObjectType

  /** The column tags that carry a spelling JSON Schema cannot state. */
  datatype Tag = IntTag | FloatTag | UlidTag

  /** What `format` and `pattern` say about a text. */
  datatype TextRule =
    | DateFormat | DateTimeFormat | UuidFormat | LowerPattern | UpperPattern | MixedPattern | UlidPattern

  datatype Schema =
    | Never
    | AnyOf(branches: seq<Keywords>)
    | Stated(keywords: Keywords)

  datatype Keywords = Keywords(
    types: seq<JsonType>,
    tag: Option<Tag>,
    rule: Option<TextRule>,
    items: Option<Schema>,
    properties: map<string, Schema>,
    required: set<string>,
    additional: Option<Schema>,
    names: Option<TextRule>)

  function Only(t: JsonType): Keywords {
    Keywords([t], None, None, None, map[], {}, None, None)
  }

  // ----- writing ------------------------------------------------------------------------

  function NumberFragment(held: NumberClass): Keywords {
    match held
    case Int => Only(IntegerType).(tag := Some(IntTag))
    case BigInt => Only(IntegerType)
    case Float => Only(NumberType).(tag := Some(FloatTag))
    case Number => Only(NumberType)
  }

  function StringFragment(form: StringForm): Keywords {
    match form
    case Plain => Only(StringType)
    case Date => Only(StringType).(rule := Some(DateFormat))
    case DateTime => Only(StringType).(rule := Some(DateTimeFormat))
    case Uuid(Lower) => Only(StringType).(rule := Some(UuidFormat))
    case Uuid(Upper) => Only(StringType).(rule := Some(UpperPattern))
    case Uuid(Mixed) => Only(StringType).(rule := Some(MixedPattern))
    case Ulid => Only(StringType).(tag := Some(UlidTag), rule := Some(UlidPattern))
  }

  function NamesRule(form: StringForm): Option<TextRule> {
    match form
    case Plain => None
    case Date => Some(DateFormat)
    case DateTime => Some(DateTimeFormat)
    case Uuid(Lower) => Some(LowerPattern)
    case Uuid(Upper) => Some(UpperPattern)
    case Uuid(Mixed) => Some(MixedPattern)
    case Ulid => Some(UlidPattern)
  }

  function ObjectFragment(o: ObjectShape): Keywords
    decreases o, 0
  {
    match o
    case Record(members) =>
      Only(ObjectType).(
        properties := (map name | name in members :: ToSubschema(members[name].shape)),
        required := (set name | name in members && members[name].required),
        additional := Some(Never))
    case Map(names, values) =>
      Only(ObjectType).(additional := Some(ToSubschema(values)), names := NamesRule(names))
  }

  /** One fragment per type observed, in a fixed order. */
  function Fragments(s: Shape): seq<Keywords>
    decreases s, 0
  {
    (if s.boolean then [Only(BooleanType)] else [])
    + (if s.number.Some? then [NumberFragment(s.number.value)] else [])
    + (if s.text.Some? then [StringFragment(s.text.value)] else [])
    + (if s.items.Some? then [Only(ArrayType).(items := Some(ToSubschema(s.items.value)))] else [])
    + (if s.obj.Some? then [ObjectFragment(s.obj.value)] else [])
  }

  /** Whether a fragment carries anything besides its type. */
  predicate Rich(f: Keywords) {
    f.tag.Some? || f.rule.Some? || f.items.Some? || f.additional.Some?
  }

  function CountRich(fragments: seq<Keywords>): nat {
    if fragments == [] then 0
    else CountRich(fragments[..|fragments| - 1]) + if Rich(fragments[|fragments| - 1]) then 1 else 0
  }

  predicate Tagged(fragments: seq<Keywords>) {
    exists i | 0 <= i < |fragments| :: fragments[i].tag.Some?
  }

  /** Every keyword besides `type`, later fragments over earlier ones. */
  function Overlaid(fragments: seq<Keywords>): Keywords {
    if fragments == [] then Keywords([], None, None, None, map[], {}, None, None)
    else
      var base, f := Overlaid(fragments[..|fragments| - 1]), fragments[|fragments| - 1];
      Keywords(
        base.types + f.types,
        if f.tag.Some? then f.tag else base.tag,
        if f.rule.Some? then f.rule else base.rule,
        if f.items.Some? then f.items else base.items,
        base.properties + f.properties,
        base.required + f.required,
        if f.additional.Some? then f.additional else base.additional,
        if f.names.Some? then f.names else base.names)
  }

  function Nullable(f: Keywords): Keywords {
    f.(types := f.types + [NullType])
  }

  function ToSubschema(s: Shape): Schema
    decreases s, 1
  {
    var fragments := Fragments(s);
    if |fragments| == 0 then (if s.nil then Stated(Only(NullType)) else Never)
    else if |fragments| == 1 then
      Stated(if s.nil then Nullable(fragments[0]) else fragments[0])
    else if s.items.None? && s.obj.None? && CountRich(fragments) <= 1 && !Tagged(fragments) then
      Stated(if s.nil then Nullable(Overlaid(fragments)) else Overlaid(fragments))
    else
      AnyOf(if s.nil then fragments + [Only(NullType)] else fragments)
  }

  // ----- reading: which values a schema accepts -------------------------------------------

  predicate NoLower(text: string) { forall i | 0 <= i < |text| :: !LowerHex(text[i]) }

  predicate NoUpper(text: string) { forall i | 0 <= i < |text| :: !UpperHex(text[i]) }

  predicate TextMatches(rule: TextRule, text: string) {
    match rule
    case DateFormat => IsDate(text)
    case DateTimeFormat => IsDateTime(text)
    case UuidFormat => UuidShaped(text) && NoUpper(text)
    case LowerPattern => UuidShaped(text) && NoUpper(text)
    case UpperPattern => UuidShaped(text) && NoLower(text)
    case MixedPattern => UuidShaped(text)
    case UlidPattern => IsUlid(text)
  }

  /** JSON Schema's `integer` asks for a whole value, however it is spelled. */
  predicate Whole(lexeme: string) {
    NumberClassOf(lexeme) != Float || WholeFloat(lexeme)
  }

  function Find(text: string, marks: string): (at: nat)
    ensures at <= |text|
  {
    if text == "" then 0
    else if text[0] in marks then 0
    else 1 + Find(text[1..], marks)
  }

  function StripZeros(digits: string): string {
    if digits != "" && digits[|digits| - 1] == '0' then StripZeros(digits[..|digits| - 1]) else digits
  }

  /** A spelling with a fraction or exponent whose value is nonetheless an integer. */
  predicate WholeFloat(lexeme: string) {
    var split := Find(lexeme, "eE");
    var mantissa := lexeme[..split];
    var exponent := if split < |lexeme| then ExponentValue(lexeme[split + 1..]) else 0;
    var point := Find(mantissa, ".");
    var fraction := if point < |mantissa| then StripZeros(mantissa[point + 1..]) else "";
    var whole := mantissa[..point];
    if fraction != "" then exponent >= |fraction|
    else exponent >= -(|whole| - |StripZeros(whole)|) || forall i | 0 <= i < |whole| :: whole[i] in "-0"
  }

  function ExponentValue(text: string): int {
    var digits := if text != "" && text[0] in "+-" then text[1..] else text;
    if !Digits(digits) then 0
    else
      var magnitude: int := DecimalValue(digits);
      if text[0] == '-' then -magnitude else magnitude
  }

  predicate HasType(v: Value, t: JsonType) {
    match t
    case NullType => v.Null?
    case BooleanType => v.Bool?
    case IntegerType => v.Number? && Whole(v.lexeme)
    case NumberType => v.Number?
    case StringType => v.String?
    case ArrayType => v.Array?
    case ObjectType => v.Object?
  }

  predicate SomeType(types: seq<JsonType>, v: Value) {
    exists t | t in types :: HasType(v, t)
  }

  predicate TagHolds(tag: Tag, v: Value) {
    match tag
    case IntTag => v.Number? ==> NumberClassOf(v.lexeme) == Int
    case FloatTag => v.Number? ==> NumberClassOf(v.lexeme) == Float
    case UlidTag => v.String? ==> IsUlid(v.text)
  }

  predicate Validates(schema: Schema, v: Value)
    decreases schema
  {
    match schema
    case Never => false
    case AnyOf(branches) => exists i | 0 <= i < |branches| :: Satisfies(branches[i], v)
    case Stated(keywords) => Satisfies(keywords, v)
  }

  /** Each keyword constrains the values of the one type it speaks of. */
  predicate Satisfies(k: Keywords, v: Value)
    decreases k
  {
    && SomeType(k.types, v)
    && (k.tag.Some? ==> TagHolds(k.tag.value, v))
    && (k.rule.Some? && v.String? ==> TextMatches(k.rule.value, v.text))
    && (k.items.Some? && v.Array? ==> forall i | 0 <= i < |v.items| :: Validates(k.items.value, v.items[i]))
    && (v.Object? ==>
        && (forall name | name in k.required :: name in v.members)
        && (forall name | name in v.members && name in k.properties :: Validates(k.properties[name], v.members[name]))
        && (k.additional.Some? ==>
              forall name | name in v.members && name !in k.properties ::
                Validates(k.additional.value, v.members[name]))
        && (k.names.Some? ==> forall name | name in v.members :: TextMatches(k.names.value, name)))
  }

  // ----- what the schema can say of a contract ------------------------------------------------

  predicate NumberFits(held: NumberClass, lexeme: string) {
    match held
    case Int => NumberClassOf(lexeme) == Int
    case BigInt => Whole(lexeme)
    case Float => NumberClassOf(lexeme) == Float
    case Number => true
  }

  predicate FormFits(form: StringForm, text: string) {
    NamesRule(form).Some? ==> TextMatches(NamesRule(form).value, text)
  }

  /** The contract, as far as a schema can state it. */
  predicate Fits(s: Shape, v: Value)
    decreases s
  {
    match v
    case Null => s.nil
    case Bool(_) => s.boolean
    case Number(lexeme) => s.number.Some? && NumberFits(s.number.value, lexeme)
    case String(text) => s.text.Some? && FormFits(s.text.value, text)
    case Array(items) => s.items.Some? && forall i | 0 <= i < |items| :: Fits(s.items.value, items[i])
    case Object(members) => s.obj.Some? && ObjectFits(s.obj.value, members)
  }

  predicate ObjectFits(o: ObjectShape, members: map<string, Value>)
    decreases o
  {
    match o
    case Record(known) =>
      && (forall name | name in members :: name in known && Fits(known[name].shape, members[name]))
      && (forall name | name in known && known[name].required :: name in members)
    case Map(names, values) =>
      forall name | name in members :: FormFits(names, name) && Fits(values, members[name])
  }

  // ----- every fragment says exactly its part -------------------------------------------------

  lemma TypesListed(types: seq<JsonType>, t: JsonType, v: Value)
    ensures SomeType([t], v) <==> HasType(v, t)
    ensures SomeType(types + [t], v) <==> SomeType(types, v) || HasType(v, t)
    ensures !SomeType([], v)
  {
    assert t in [t];
    assert forall u :: u in types + [t] <==> u in types || u == t;
  }

  lemma NumberFragmentIsExact(held: NumberClass, v: Value)
    ensures Satisfies(NumberFragment(held), v) <==> v.Number? && NumberFits(held, v.lexeme)
  {
    hide WholeFloat, NumberClassOf;
    TypesListed([], NumberFragment(held).types[0], v);
  }

  lemma StringFragmentIsExact(form: StringForm, v: Value)
    ensures Satisfies(StringFragment(form), v) <==> v.String? && FormFits(form, v.text)
  {
    hide UuidShaped, IsUlid, IsDate, IsDateTime;
    TypesListed([], StringType, v);
  }

  lemma ArrayFragmentIsExact(sub: Schema, v: Value)
    ensures Satisfies(Only(ArrayType).(items := Some(sub)), v)
       <==> v.Array? && forall i | 0 <= i < |v.items| :: Validates(sub, v.items[i])
  {
    TypesListed([], ArrayType, v);
  }

  lemma {:induction false} ObjectFragmentIsExact(o: ObjectShape, v: Value)
    ensures Satisfies(ObjectFragment(o), v) <==> v.Object? && ObjectFits(o, v.members)
    decreases o, 0
  {
    hide TextMatches;
    var f := ObjectFragment(o);
    TypesListed([], ObjectType, v);
    if v.Object? {
      match o
      case Record(known) =>
        forall name | name in v.members && name in known
          ensures Validates(f.properties[name], v.members[name]) <==> Fits(known[name].shape, v.members[name])
        {
          EmissionIsExact(known[name].shape, v.members[name]);
        }
      case Map(names, values) =>
        forall name | name in v.members
          ensures Validates(f.additional.value, v.members[name]) <==> Fits(values, v.members[name])
        {
          EmissionIsExact(values, v.members[name]);
        }
    }
  }

  /** Between them, the fragments accept exactly the values of the contract that are not null. */
  lemma {:induction false} FragmentsAreExact(s: Shape, v: Value)
    ensures (exists f | f in Fragments(s) :: Satisfies(f, v)) <==> !v.Null? && Fits(s, v)
    decreases s, 0
  {
    hide NumberFits, FormFits, NumberFragment, StringFragment, ObjectFits, ObjectFragment, Satisfies;
    var boolean := Only(BooleanType);
    assert Satisfies(boolean, v) <==> v.Bool? by { BooleanIsExact(v); }
    if s.number.Some? { NumberFragmentIsExact(s.number.value, v); }
    if s.text.Some? { StringFragmentIsExact(s.text.value, v); }
    if s.items.Some? {
      var sub := ToSubschema(s.items.value);
      ArrayFragmentIsExact(sub, v);
      if v.Array? {
        forall i | 0 <= i < |v.items| ensures Validates(sub, v.items[i]) <==> Fits(s.items.value, v.items[i]) {
          EmissionIsExact(s.items.value, v.items[i]);
        }
      }
    }
    if s.obj.Some? { ObjectFragmentIsExact(s.obj.value, v); }
  }

  lemma BooleanIsExact(v: Value)
    ensures Satisfies(Only(BooleanType), v) <==> v.Bool?
  {
    TypesListed([], BooleanType, v);
  }

  /** Keywords of scalars alone: their types, and the one rule a text may carry. */
  function Scalars(types: seq<JsonType>, rule: Option<TextRule>): Keywords {
    Keywords(types, None, rule, None, map[], {}, None, None)
  }

  /** What merging makes of scalar fragments. */
  lemma MergedScalars(s: Shape)
    requires s.items.None? && s.obj.None? && !Tagged(Fragments(s))
    ensures Overlaid(Fragments(s)) == Scalars(
        (if s.boolean then [BooleanType] else [])
          + (if s.number.Some? then NumberFragment(s.number.value).types else [])
          + (if s.text.Some? then [StringType] else []),
        if s.text.Some? then StringFragment(s.text.value).rule else None)
  {
    hide Overlaid, NumberFragment, StringFragment;
    UntaggedFragments(s);
    var b := if s.boolean then [Only(BooleanType)] else [];
    var n := if s.number.Some? then [NumberFragment(s.number.value)] else [];
    var t := if s.text.Some? then [StringFragment(s.text.value)] else [];
    assert Fragments(s) == b + n + t;
    if s.number.Some? { assert Fragments(s)[|b|].tag.None?; }
    if s.text.Some? { assert Fragments(s)[|b| + |n|].tag.None?; }
    OverlaidNothing();
    OverlaidStep([], [], None, b);
    assert [] + b == b && [] + [BooleanType] == [BooleanType];
    OverlaidStep(b, if s.boolean then [BooleanType] else [], None, n);
    OverlaidStep(b + n, Overlaid(b + n).types, None, t);
  }

  lemma UntaggedFragments(s: Shape)
    ensures s.number.Some? && NumberFragment(s.number.value).tag.None? ==>
      NumberFragment(s.number.value) == Scalars(NumberFragment(s.number.value).types, None)
    ensures s.text.Some? && StringFragment(s.text.value).tag.None? ==>
      StringFragment(s.text.value) == Scalars([StringType], StringFragment(s.text.value).rule)
  {
  }

  lemma OverlaidNothing()
    ensures Overlaid([]) == Scalars([], None)
  {
  }

  lemma OverlaidStep(before: seq<Keywords>, types: seq<JsonType>, rule: Option<TextRule>, next: seq<Keywords>)
    requires Overlaid(before) == Scalars(types, rule)
    requires |next| <= 1
    requires next != [] ==> next[0] == Scalars(next[0].types, next[0].rule)
    ensures next == [] ==> Overlaid(before + next) == Scalars(types, rule)
    ensures next != [] ==>
      Overlaid(before + next) == Scalars(types + next[0].types, if next[0].rule.Some? then next[0].rule else rule)
  {
    if next == [] {
      assert before + next == before;
    } else {
      assert (before + next)[..|before + next| - 1] == before;
      assert Overlaid(before).properties + next[0].properties == map[];
    }
  }

  lemma RuleIsForm(form: StringForm, text: string)
    ensures FormFits(form, text)
       <==> (StringFragment(form).rule.Some? ==> TextMatches(StringFragment(form).rule.value, text))
  {
    hide UuidShaped, IsUlid, IsDate, IsDateTime;
  }

  /** Scalars merge into one list of types when at most one of them says more than its type. */
  lemma MergedIsExact(s: Shape, v: Value)
    requires s.items.None? && s.obj.None? && !Tagged(Fragments(s))
    ensures Satisfies(Overlaid(Fragments(s)), v) <==> !v.Null? && Fits(s, v)
  {
    hide Whole, TextMatches, NumberClassOf, Overlaid;
    MergedScalars(s);
    if s.number.Some? { UntaggedNumber(s); }
    if s.text.Some? && v.String? { RuleIsForm(s.text.value, v.text); }
    var b := if s.boolean then [BooleanType] else [];
    var n := if s.number.Some? then NumberFragment(s.number.value).types else [];
    assert SomeType(Overlaid(Fragments(s)).types, v)
       <==> (s.boolean && v.Bool?) || (s.number.Some? && HasType(v, n[0])) || (s.text.Some? && v.String?) by {
      hide HasType, SomeType;
      TypesListed([], BooleanType, v);
      if s.number.Some? { TypesListed(b, n[0], v); } else { assert b + n == b; }
      if s.text.Some? { TypesListed(b + n, StringType, v); } else { assert b + n + [] == b + n; }
      assert [] + [BooleanType] == [BooleanType];
      TypeIsKind(v);
    }
  }

  lemma TypeIsKind(v: Value)
    ensures HasType(v, BooleanType) <==> v.Bool?
    ensures HasType(v, StringType) <==> v.String?
  {
  }

  lemma UntaggedNumber(s: Shape)
    requires s.number.Some? && !Tagged(Fragments(s))
    ensures s.number.value == BigInt || s.number.value == NumberClass.Number
  {
    var at := if s.boolean then 1 else 0;
    assert Fragments(s)[at] == NumberFragment(s.number.value);
  }

  lemma BranchesAreExact(fragments: seq<Keywords>, nil: bool, v: Value)
    ensures Validates(AnyOf(if nil then fragments + [Only(NullType)] else fragments), v)
       <==> (nil && v.Null?) || exists f | f in fragments :: Satisfies(f, v)
  {
    hide HasType;
    var branches := if nil then fragments + [Only(NullType)] else fragments;
    assert Satisfies(Only(NullType), v) <==> v.Null? by { NullIsExact(v); }
    assert Validates(AnyOf(branches), v) <==> exists f | f in branches :: Satisfies(f, v);
    assert nil ==> forall f :: f in branches <==> f in fragments || f == Only(NullType);
  }

  lemma NullIsExact(v: Value)
    ensures Satisfies(Only(NullType), v) <==> v.Null?
  {
    TypesListed([], NullType, v);
  }

  /** The schema accepts exactly the contract, as far as a schema can state it. */
  lemma {:induction false} EmissionIsExact(s: Shape, v: Value)
    ensures Validates(ToSubschema(s), v) <==> Fits(s, v)
    decreases s, 1
  {
    hide Validates, Satisfies, Fits, Overlaid, CountRich, Tagged, Fragments, Nullable;
    var fragments := Fragments(s);
    FragmentsAreExact(s, v);
    NullIsExact(v);
    NullFits(s, v);
    StatedOrNever(v);
    if fragments == [] {
      assert ToSubschema(s) == if s.nil then Stated(Only(NullType)) else Never;
    } else if |fragments| == 1 {
      AddingNull(fragments[0], v);
      assert (exists f | f in fragments :: Satisfies(f, v)) <==> Satisfies(fragments[0], v) by {
        assert fragments == [fragments[0]];
      }
    } else {
      if s.items.None? && s.obj.None? && CountRich(fragments) <= 1 && !Tagged(fragments) {
        MergedIsExact(s, v);
        AddingNull(Overlaid(fragments), v);
      } else {
        BranchesAreExact(fragments, s.nil, v);
      }
    }
  }

  lemma StatedOrNever(v: Value)
    ensures !Validates(Never, v)
    ensures forall k :: Validates(Stated(k), v) <==> Satisfies(k, v)
  {
  }

  lemma NullFits(s: Shape, v: Value)
    ensures v.Null? ==> (Fits(s, v) <==> s.nil)
  {
  }

  lemma AddingNull(f: Keywords, v: Value)
    ensures Satisfies(Nullable(f), v) <==> v.Null? || Satisfies(f, v)
  {
    TypesListed(f.types, NullType, v);
  }

  // ----- the contract and what the schema can state of it ----------------------------------------

  predicate DigitsOnlyUuid(text: string) {
    UuidShaped(text) && NoLower(text) && NoUpper(text)
  }

  /**
   A form whose spelling the schema cannot tell from its text: a uuid of digits alone, where
   letters were upper-case.
   */
  predicate FormBlurs(form: StringForm, text: string) {
    form == Uuid(Upper) && DigitsOnlyUuid(text)
  }

  /**
   Somewhere in a value is a spelling a schema cannot tell from the contract's: `3.0` for an
   integer, or such a uuid.
   */
  predicate Blurs(s: Shape, v: Value)
    decreases v
  {
    match v
    case Number(lexeme) => s.number == Some(BigInt) && NumberClassOf(lexeme) == Float
    case String(text) => s.text.Some? && FormBlurs(s.text.value, text)
    case Array(items) => s.items.Some? && exists i | 0 <= i < |items| :: Blurs(s.items.value, items[i])
    case Object(members) =>
      s.obj.Some? &&
      match s.obj.value {
        case Record(known) => exists name | name in members && name in known :: Blurs(known[name].shape, members[name])
        case Map(names, values) => exists name | name in members ::
          FormBlurs(names, name) || Blurs(values, members[name])
      }
    case _ => false
  }

  lemma FormsAreDisjoint(text: string)
    ensures IsDateTime(text) ==> !UuidShaped(text) && !IsUlid(text) && !IsDate(text)
    ensures IsDate(text) ==> !UuidShaped(text) && !IsUlid(text)
    ensures UuidShaped(text) ==> !IsUlid(text)
  {
    hide DecimalValue, DaysIn, IsOffset, SkipDigits, Digits;
    if IsDateTime(text) {
      DashesSetDatesApart(text);
      assert text[..10][4] == text[4];
    }
    if IsDate(text) { DashesSetDatesApart(text); }
  }

  lemma DashesSetDatesApart(text: string)
    requires |text| > 4 && text[4] == '-'
    ensures !UuidShaped(text) && !IsUlid(text)
  {
    assert !UuidDash(4);
  }

  lemma UuidCases(text: string)
    requires UuidShaped(text)
    ensures NoUpper(text) <==> UuidCaseOf(text) == Lower
    ensures NoLower(text) <==> UuidCaseOf(text) == Upper || DigitsOnlyUuid(text)
  {
  }

  lemma FormFitsMatchesOrder(form: StringForm, text: string)
    ensures FormBelow(StringFormOf(text), form) <==> FormFits(form, text) && !FormBlurs(form, text)
  {
    FormsAreDisjoint(text);
    if UuidShaped(text) { UuidCases(text); }
    hide IsDateTime, IsDate, IsUlid, UuidShaped, UuidCaseOf;
  }

  lemma NumberFitsMatchesOrder(held: NumberClass, lexeme: string)
    ensures NumberBelow(NumberClassOf(lexeme), held) <==>
      NumberFits(held, lexeme) && !(held == BigInt && NumberClassOf(lexeme) == Float)
  {
    hide WholeFloat, ParsesAsI64, HasFractionOrExponent;
  }

  lemma {:induction false} FitsMatchesOrder(s: Shape, v: Value)
    ensures Below(Observe(v), s) <==> Fits(s, v) && !Blurs(s, v)
    decreases v, 1
  {
    hide NumberFits, FormFits, FormBlurs, NumberClassOf, StringFormOf, WholeFloat, DigitsOnlyUuid;
    match v
    case Number(lexeme) =>
      if s.number.Some? { NumberFitsMatchesOrder(s.number.value, lexeme); }
    case String(text) => if s.text.Some? { FormFitsMatchesOrder(s.text.value, text); }
    case Array(items) =>
      if s.items.Some? {
        ItemsBelow(items, |items|, s.items.value);
        forall i | 0 <= i < |items|
          ensures Below(Observe(items[i]), s.items.value) <==>
            Fits(s.items.value, items[i]) && !Blurs(s.items.value, items[i])
        {
          FitsMatchesOrder(s.items.value, items[i]);
        }
      }
    case Object(members) =>
      if s.obj.Some? { ObjectFitsMatchesOrder(s, members); }
    case _ =>
  }

  lemma {:induction false} ObjectFitsMatchesOrder(s: Shape, members: map<string, Value>)
    requires s.obj.Some?
    ensures ObjectBelow(Observe(Object(members)).obj.value, s.obj.value) <==>
      ObjectFits(s.obj.value, members) && !Blurs(s, Object(members))
    decreases Object(members), 0
  {
    hide FormFits, FormBlurs, StringFormOf, DigitsOnlyUuid;
    match s.obj.value
    case Record(known) =>
      forall name | name in members && name in known
        ensures Below(Observe(members[name]), known[name].shape) <==>
          Fits(known[name].shape, members[name]) && !Blurs(known[name].shape, members[name])
      {
        FitsMatchesOrder(known[name].shape, members[name]);
      }
    case Map(names, values) =>
      forall name | name in members
        ensures FormBelow(StringFormOf(name), names) <==> FormFits(names, name) && !FormBlurs(names, name)
        ensures Below(Observe(members[name]), values) <==> Fits(values, members[name]) && !Blurs(values, members[name])
      {
        FormFitsMatchesOrder(names, name);
        FitsMatchesOrder(values, members[name]);
      }
  }

  /** The emitted schema accepts the whole contract, and beyond it exactly what blurs. */
  lemma SchemaAcceptsTheContract(s: Shape, v: Value)
    ensures Admits(s, v) <==> Validates(ToSubschema(s), v) && !Blurs(s, v)
  {
    hide Blurs, Fits, Validates, ToSubschema, Below, Observe;
    LeIsBelow(Observe(v), s);
    FitsMatchesOrder(s, v);
    EmissionIsExact(s, v);
  }

  /** What blurs can be accepted: `3.0` is an integer to JSON Schema. */
  lemma SchemaCanBeWider()
    ensures var integers := BOTTOM.(number := Some(BigInt));
      Validates(ToSubschema(integers), Value.Number("3.0")) && !Admits(integers, Value.Number("3.0"))
  {
    hide WholeFloat, NumberClassOf;
    var integers := BOTTOM.(number := Some(BigInt));
    var v := Value.Number("3.0");
    ThreeIsWhole();
    EmissionIsExact(integers, v);
    LeIsBelow(Observe(v), integers);
  }

  lemma ThreeIsWhole()
    ensures NumberClassOf("3.0") == Float && WholeFloat("3.0")
  {
    assert "3.0"[1] == '.';
    assert WholeFloat("3.0") by {
      assert Find("3.0", "eE") == 3;
      assert Find("3.0", ".") == 1;
      assert "3.0"[..3] == "3.0";
      assert "3.0"[..1] == "3";
      assert "3.0"[2..] == "0";
      assert StripZeros("0") == "";
      assert StripZeros("3") == "3";
    }
  }
}
