/** One rendering per logical value: members sorted by name, numbers in their canonical text. */
module CanonicalForm {
  import opened Json
  import opened Document
  import opened Merging
  import opened MergeDocuments
  import opened Numbers
  import opened Order
  import opened TheirsResolved

  /** The logical value: every number by its canonical text. */
  function Normal(v: Value): Value {
    match v
    case Number(lexeme) => Value.Number(CanonicalNumber(lexeme))
    case Array(items) => Array(seq(|items|, i requires 0 <= i < |items| => Normal(items[i])))
    case Object(members) => Object(map name | name in members :: Normal(members[name]))
    case _ => v
  }

  function NormalOption(v: Option<Value>): Option<Value> {
    if v.Some? then Some(Normal(v.value)) else None
  }

  function NormalScalar(s: Scalar): Scalar {
    if s.NumberScalar? then NumberScalar(CanonicalNumber(s.lexeme)) else s
  }

  function CompareNames(a: Entry, b: Entry): Ordering {
    CompareStrings(a.name, b.name)
  }

  /** The canonical form of a document, as conflict sides and hashes are written from. */
  function Canonical(t: Tree): Tree {
    match t
    case Leaf(scalar) => Leaf(NormalScalar(scalar))
    case List(items) => List(seq(|items|, i requires 0 <= i < |items| => Canonical(items[i])))
    case Dict(members) => Dict(Sort(CompareNames, CanonicalMembers(members)))
  }

  function CanonicalMembers(members: seq<Entry>): (c: seq<Entry>)
    ensures |c| == |members|
    ensures forall i | 0 <= i < |members| :: c[i] == Entry(members[i].name, Canonical(members[i].value))
  {
    if members == [] then []
    else
      var rest := CanonicalMembers(members[1..]);
      assert forall i | 1 <= i < |members| :: members[i] == members[1..][i - 1];
      [Entry(members[0].name, Canonical(members[0].value))] + rest
  }

  // ----- the same value ----------------------------------------------------------------------

  lemma {:induction false} NormalIsStable(v: Value)
    ensures Normal(Normal(v)) == Normal(v)
  {
    match v
    case Number(lexeme) => CanonicalIsStable(lexeme);
    case Array(items) =>
      forall i | 0 <= i < |items| ensures Normal(Normal(items[i])) == Normal(items[i]) { NormalIsStable(items[i]); }
    case Object(members) =>
      forall name | name in members ensures Normal(Normal(members[name])) == Normal(members[name]) {
        NormalIsStable(members[name]);
      }
    case _ =>
  }

  lemma NormalMember(v: Option<Value>, name: string)
    ensures Get(NormalOption(v), name) == NormalOption(Get(v, name))
  {
  }

  lemma NamesCompare()
    ensures Preorder(CompareNames)
  {
    forall a: string, b: string, c: string | CompareStrings(a, b) != Greater && CompareStrings(b, c) != Greater
      ensures CompareStrings(a, c) != Greater
    {
      NamesChain(a, b, c);
    }
    forall a: string, b: string ensures CompareStrings(a, b) == CompareStrings(b, a).Reverse() {
      StringsEqual(a, b);
    }
  }

  lemma {:induction false} NamesChain(a: string, b: string, c: string)
    requires CompareStrings(a, b) != Greater && CompareStrings(b, c) != Greater
    ensures CompareStrings(a, c) != Greater
  {
    StringsEqual(a, b);
    StringsEqual(b, c);
    hide CompareStrings;
    if CompareStrings(a, b) == Less && CompareStrings(b, c) == Less { StringsTransitive(a, b, c); }
  }

  /** Rearranging members keeps names distinct and changes nothing a name is looked up for. */
  lemma {:induction false} RearrangedMembers(members: seq<Entry>, now: seq<Entry>)
    requires DistinctNames(members) && multiset(members) == multiset(now)
    ensures DistinctNames(now)
    ensures forall name :: Lookup(now, name) == Lookup(members, name)
  {
    hide Lookup;
    forall i, j | 0 <= i < j < |now| ensures now[i].name != now[j].name {
      NamedOnce(members, now, i, j);
    }
    forall name ensures Lookup(now, name) == Lookup(members, name) {
      FoundSomewhere(members, name);
      FoundSomewhere(now, name);
      if Lookup(members, name).Some? {
        var e := Entry(name, Lookup(members, name).value);
        assert e in multiset(now);
        var i :| 0 <= i < |now| && now[i] == e;
        FoundAt(now, i);
      } else {
        assert forall i | 0 <= i < |now| :: now[i] in multiset(now) && now[i] in multiset(members);
      }
    }
  }

  lemma {:induction false} NamedOnce(members: seq<Entry>, now: seq<Entry>, i: nat, j: nat)
    requires DistinctNames(members) && multiset(members) == multiset(now)
    requires i < j < |now|
    ensures now[i].name != now[j].name
  {
    assert now[i] in multiset(now) && now[j] in multiset(now);
    assert now[i] in members && now[j] in members;
    if now[i] == now[j] {
      assert now == now[..i] + [now[i]] + now[i + 1..j] + [now[j]] + now[j + 1..];
      assert multiset(now)[now[i]] >= 2;
      OnceEach(members, now[i]);
    }
  }

  lemma {:induction false} OnceEach(members: seq<Entry>, e: Entry)
    requires DistinctNames(members)
    ensures multiset(members)[e] <= 1
  {
    if members != [] {
      var front, last := members[..|members| - 1], members[|members| - 1];
      OnceEach(front, e);
      assert members == front + [last];
      if e == last {
        assert e !in front;
        assert multiset(front)[e] == 0;
      }
    }
  }

  /** The canonical form is a document of the same logical value. */
  lemma {:induction false} CanonicalKeepsValue(t: Tree)
    requires WellFormed(t)
    ensures WellFormed(Canonical(t)) && Content(Canonical(t)) == Normal(Content(t))
  {
    match t
    case Leaf(_) =>
    case List(items) =>
      forall i | 0 <= i < |items|
        ensures WellFormed(Canonical(items[i])) && Content(Canonical(items[i])) == Normal(Content(items[i]))
      {
        CanonicalKeepsValue(items[i]);
      }
    case Dict(members) =>
      forall i | 0 <= i < |members|
        ensures WellFormed(Canonical(members[i].value))
        ensures Content(Canonical(members[i].value)) == Normal(Content(members[i].value))
      {
        CanonicalKeepsValue(members[i].value);
      }
      CanonicalMembersKeepValue(members);
  }

  lemma {:induction false} CanonicalMembersKeepValue(members: seq<Entry>)
    requires DistinctNames(members)
    requires forall i | 0 <= i < |members| ::
      WellFormed(Canonical(members[i].value))
        && Content(Canonical(members[i].value)) == Normal(Content(members[i].value))
    ensures var sorted := Dict(Sort(CompareNames, CanonicalMembers(members)));
      WellFormed(sorted) && Content(sorted) == Normal(Content(Dict(members)))
  {
    hide Content, Normal, Canonical, WellFormed, Sort, CanonicalMembers, Lookup;
    var each := CanonicalMembers(members);
    var sorted := Sort(CompareNames, each);
    SortKeepsAll(CompareNames, each);
    RearrangedMembers(each, sorted);
    SortedWellFormed(each, sorted);
    var plain := Content(Dict(members));
    BothAreObjects(members, sorted);
    forall name ensures Get(Some(Content(Dict(sorted))), name) == Get(Some(Normal(plain)), name) {
      ContentMember(sorted, name);
      ContentMember(members, name);
      NormalMember(Some(plain), name);
      CanonicalLookup(members, name);
      FoundSomewhere(members, name);
    }
    SameMembers(Content(Dict(sorted)), Normal(plain));
  }

  lemma BothAreObjects(members: seq<Entry>, sorted: seq<Entry>)
    ensures Content(Dict(sorted)).Object? && Normal(Content(Dict(members))).Object?
  {
    DictsAreObjects(Some(Dict(members)));
    DictsAreObjects(Some(Dict(sorted)));
    hide Content;
  }

  lemma {:induction false} SortedWellFormed(each: seq<Entry>, sorted: seq<Entry>)
    requires DistinctNames(sorted) && multiset(each) == multiset(sorted)
    requires forall i | 0 <= i < |each| :: WellFormed(each[i].value)
    ensures WellFormed(Dict(sorted))
  {
    forall i | 0 <= i < |sorted| ensures WellFormed(sorted[i].value) {
      assert sorted[i] in multiset(sorted);
      assert sorted[i] in each;
    }
  }

  lemma {:induction false} CanonicalLookup(members: seq<Entry>, name: string)
    requires DistinctNames(members)
    ensures Lookup(CanonicalMembers(members), name)
         == if Lookup(members, name).Some? then Some(Canonical(Lookup(members, name).value)) else None
  {
    hide Lookup, Canonical;
    var each := CanonicalMembers(members);
    FoundSomewhere(members, name);
    FoundSomewhere(each, name);
    if Lookup(members, name).Some? {
      var i :| 0 <= i < |members| && members[i] == Entry(name, Lookup(members, name).value);
      FoundAt(each, i);
    }
  }

  // ----- and the only form of it ---------------------------------------------------------------

  lemma EmptyTogether(xs: seq<Entry>, ys: seq<Entry>)
    requires forall e :: e in xs <==> e in ys
    ensures xs == [] <==> ys == []
  {
    if xs != [] { assert xs[0] in xs; }
    if ys != [] { assert ys[0] in ys; }
  }

  lemma {:induction false} SortedMembersAgree(xs: seq<Entry>, ys: seq<Entry>)
    requires DistinctNames(xs) && DistinctNames(ys)
    requires SortedBy(CompareNames, xs) && SortedBy(CompareNames, ys)
    requires forall e :: e in xs <==> e in ys
    ensures xs == ys
  {
    EmptyTogether(xs, ys);
    if xs != [] {
      var x, y := xs[|xs| - 1], ys[|ys| - 1];
      assert x in xs && y in ys;
      var k :| 0 <= k < |ys| && ys[k] == x;
      var m :| 0 <= m < |xs| && xs[m] == y;
      StringsEqual(x.name, y.name);
      assert x == y;
      var p, q := xs[..|xs| - 1], ys[..|ys| - 1];
      forall e ensures e in p <==> e in q {
        assert e in xs <==> e in p || e == x;
        assert e in ys <==> e in q || e == x;
      }
      SortedMembersAgree(p, q);
      assert xs == p + [x] && ys == q + [x];
    }
  }

  /** What a canonical object's members are: each member's canonical form, in order of name. */
  lemma {:induction false} CanonicalDict(members: seq<Entry>)
    requires DistinctNames(members)
    ensures Canonical(Dict(members)).Dict?
    ensures var sorted := Canonical(Dict(members)).members;
      && DistinctNames(sorted) && SortedBy(CompareNames, sorted)
      && forall e :: e in sorted <==> exists i | 0 <= i < |members| ::
        e == Entry(members[i].name, Canonical(members[i].value))
  {
    var each := CanonicalMembers(members);
    NamesCompare();
    SortSorts(CompareNames, each);
    SortKeepsAll(CompareNames, each);
    var sorted := Sort(CompareNames, each);
    RearrangedMembers(each, sorted);
    forall e ensures e in sorted <==> e in each {
      assert e in multiset(sorted) <==> e in multiset(each);
    }
  }

  lemma {:induction false} LikeMembers(left: seq<Entry>, right: seq<Entry>, i: nat)
    requires DistinctNames(left) && i < |left|
    requires Normal(Content(Dict(left))) == Normal(Content(Dict(right)))
    ensures exists j | 0 <= j < |right| ::
      right[j].name == left[i].name && Normal(Content(right[j].value)) == Normal(Content(left[i].value))
  {
    var name := left[i].name;
    var l, r := Some(Content(Dict(left))), Some(Content(Dict(right)));
    FoundAt(left, i);
    ContentMember(left, name);
    ContentMember(right, name);
    NormalMember(l, name);
    NormalMember(r, name);
    FoundSomewhere(right, name);
    hide Content, Normal, Lookup;
  }

  /** Two documents have one canonical form exactly when they are one logical value. */
  lemma {:induction false} OneFormPerValue(t: Tree, u: Tree)
    requires WellFormed(t) && WellFormed(u)
    ensures Canonical(t) == Canonical(u) <==> Normal(Content(t)) == Normal(Content(u))
  {
    CanonicalKeepsValue(t);
    CanonicalKeepsValue(u);
    if Normal(Content(t)) == Normal(Content(u)) { SameFormOfSameValue(t, u); }
  }

  lemma {:induction false} SameFormOfSameValue(t: Tree, u: Tree)
    requires WellFormed(t) && WellFormed(u) && Normal(Content(t)) == Normal(Content(u))
    ensures Canonical(t) == Canonical(u)
  {
    match (t, u)
    case (List(ts), List(us)) =>
      SameItems(ts, us);
      forall i | 0 <= i < |ts| ensures Canonical(ts[i]) == Canonical(us[i]) { SameFormOfSameValue(ts[i], us[i]); }
    case (Dict(ts), Dict(us)) =>
      CanonicalDict(ts);
      CanonicalDict(us);
      var left, right := Canonical(t).members, Canonical(u).members;
      forall e | e in left ensures e in right {
        var i :| 0 <= i < |ts| && e == Entry(ts[i].name, Canonical(ts[i].value));
        LikeMembers(ts, us, i);
        var j :| 0 <= j < |us| && us[j].name == ts[i].name
          && Normal(Content(us[j].value)) == Normal(Content(ts[i].value));
        SameFormOfSameValue(ts[i].value, us[j].value);
      }
      forall e | e in right ensures e in left {
        var j :| 0 <= j < |us| && e == Entry(us[j].name, Canonical(us[j].value));
        LikeMembers(us, ts, j);
        var i :| 0 <= i < |ts| && ts[i].name == us[j].name
          && Normal(Content(ts[i].value)) == Normal(Content(us[j].value));
        SameFormOfSameValue(ts[i].value, us[j].value);
      }
      SortedMembersAgree(left, right);
    case _ =>
  }

  lemma {:induction false} SameItems(ts: seq<Tree>, us: seq<Tree>)
    requires Normal(Content(List(ts))) == Normal(Content(List(us)))
    ensures |ts| == |us| && forall i | 0 <= i < |ts| :: Normal(Content(ts[i])) == Normal(Content(us[i]))
  {
    var l, r := Normal(Content(List(ts))).items, Normal(Content(List(us))).items;
    assert |l| == |ts| && |r| == |us|;
    assert forall i | 0 <= i < |ts| :: l[i] == Normal(Content(ts[i]));
    assert forall i | 0 <= i < |us| :: r[i] == Normal(Content(us[i]));
  }
}
