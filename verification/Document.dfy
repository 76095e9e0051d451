/**
 A JSON document as written: a tree whose objects keep the order of their
 members, the tokens it is spelled in, and the grammar that reads them back.
 */
module Document {
  import opened Json

  datatype Scalar = NullScalar | BoolScalar(flag: bool) | NumberScalar(lexeme: string) | StringScalar(text: string)

  datatype Tree =
    | Leaf(scalar: Scalar)
    | List(items: seq<Tree>)
    | Dict(members: seq<Entry>)

  datatype Entry = Entry(name: string, value: Tree)

  // ----- members -------------------------------------------------------------------------

  /** Where a member stands, or past the end. */
  function IndexOf(members: seq<Entry>, name: string): (i: nat)
    ensures i <= |members|
    ensures i < |members| ==> members[i].name == name
    ensures forall j | 0 <= j < i :: members[j].name != name
  {
    if members == [] || members[0].name == name then 0 else 1 + IndexOf(members[1..], name)
  }

  predicate Has(members: seq<Entry>, name: string) {
    IndexOf(members, name) < |members|
  }

  function Find(members: seq<Entry>, name: string): (t: Tree)
    requires Has(members, name)
    ensures exists i | 0 <= i < |members| :: members[i] == Entry(name, t)
  {
    members[IndexOf(members, name)].value
  }

  predicate DistinctNames(members: seq<Entry>) {
    forall i, j | 0 <= i < j < |members| :: members[i].name != members[j].name
  }

  /** No object names a member twice: what the strict parser accepts. */
  predicate WellFormed(t: Tree) {
    match t
    case Leaf(_) => true
    case List(items) => forall i | 0 <= i < |items| :: WellFormed(items[i])
    case Dict(members) => DistinctNames(members) && forall i | 0 <= i < |members| :: WellFormed(members[i].value)
  }

  lemma IndexOfMember(members: seq<Entry>, i: nat)
    requires DistinctNames(members) && i < |members|
    ensures IndexOf(members, members[i].name) == i
  {
    assert IndexOf(members, members[i].name) <= i;
  }

  // ----- the value a tree spells --------------------------------------------------------------

  function Names(members: seq<Entry>): set<string> {
    set i | 0 <= i < |members| :: members[i].name
  }

  /** The value, with member order forgotten. */
  function Content(t: Tree): Value {
    match t
    case Leaf(NullScalar) => Null
    case Leaf(BoolScalar(flag)) => Bool(flag)
    case Leaf(NumberScalar(lexeme)) => Number(lexeme)
    case Leaf(StringScalar(text)) => String(text)
    case List(items) => Array(seq(|items|, i requires 0 <= i < |items| => Content(items[i])))
    case Dict(members) =>
      Object(map name | name in Names(members) && Has(members, name) :: Content(Find(members, name)))
  }

  // ----- tokens --------------------------------------------------------------------------------

  datatype Token = Mark(c: char) | Atom(scalar: Scalar)

  function Tokens(t: Tree): (tokens: seq<Token>)
    ensures |tokens| >= 1
    decreases t, 1
  {
    match t
    case Leaf(scalar) => [Atom(scalar)]
    case List(items) => [Mark('[')] + ItemTokens(items) + [Mark(']')]
    case Dict(members) => [Mark('{')] + MemberTokens(members) + [Mark('}')]
  }

  function ItemTokens(items: seq<Tree>): seq<Token>
    decreases items, 0
  {
    if items == [] then []
    else if |items| == 1 then Tokens(items[0])
    else Tokens(items[0]) + [Mark(',')] + ItemTokens(items[1..])
  }

  function MemberTokens(members: seq<Entry>): seq<Token>
    decreases members, 0
  {
    if members == [] then []
    else if |members| == 1 then EntryTokens(members[0])
    else EntryTokens(members[0]) + [Mark(',')] + MemberTokens(members[1..])
  }

  function EntryTokens(e: Entry): (tokens: seq<Token>)
    ensures |tokens| >= 3
    decreases e, 1
  {
    [Atom(StringScalar(e.name)), Mark(':')] + Tokens(e.value)
  }

  // ----- reading tokens: the grammar of RFC 8259, refusing a repeated name ----------------------

  function ParseValue(ts: seq<Token>): (r: Option<(Tree, seq<Token>)>)
    ensures r.Some? ==> |r.value.1| < |ts|
    decreases |ts|, 0
  {
    if ts == [] then None
    else if ts[0].Atom? then Some((Leaf(ts[0].scalar), ts[1..]))
    else if ts[0].c == '[' then
      if |ts| >= 2 && ts[1] == Mark(']') then Some((List([]), ts[2..]))
      else
        var r := ParseItems(ts[1..]);
        if r.None? then None else Some((List(r.value.0), r.value.1))
    else if ts[0].c == '{' then
      if |ts| >= 2 && ts[1] == Mark('}') then Some((Dict([]), ts[2..]))
      else
        var r := ParseMembers(ts[1..]);
        if r.None? || !DistinctNames(r.value.0) then None else Some((Dict(r.value.0), r.value.1))
    else None
  }

  /** One or more elements, and the bracket that ends them. */
  function ParseItems(ts: seq<Token>): (r: Option<(seq<Tree>, seq<Token>)>)
    ensures r.Some? ==> |r.value.1| < |ts|
    decreases |ts|, 1
  {
    var first := ParseValue(ts);
    if first.None? || first.value.1 == [] then None
    else if first.value.1[0] == Mark(']') then Some(([first.value.0], first.value.1[1..]))
    else if first.value.1[0] == Mark(',') then
      var rest := ParseItems(first.value.1[1..]);
      if rest.None? then None else Some(([first.value.0] + rest.value.0, rest.value.1))
    else None
  }

  /** One or more members, and the brace that ends them. */
  function ParseMembers(ts: seq<Token>): (r: Option<(seq<Entry>, seq<Token>)>)
    ensures r.Some? ==> |r.value.1| < |ts|
    decreases |ts|, 1
  {
    if |ts| < 2 || !ts[0].Atom? || !ts[0].scalar.StringScalar? || ts[1] != Mark(':') then None
    else
      var first := ParseValue(ts[2..]);
      if first.None? || first.value.1 == [] then None
      else
        var entry := Entry(ts[0].scalar.text, first.value.0);
        if first.value.1[0] == Mark('}') then Some(([entry], first.value.1[1..]))
        else if first.value.1[0] == Mark(',') then
          var rest := ParseMembers(first.value.1[1..]);
          if rest.None? then None else Some(([entry] + rest.value.0, rest.value.1))
        else None
  }

  predicate IsJson(ts: seq<Token>) {
    var r := ParseValue(ts);
    r.Some? && r.value.1 == []
  }

  // ----- reading gives back what was written -------------------------------------------------------

  lemma {:induction false} TokensParse(t: Tree, rest: seq<Token>)
    requires WellFormed(t)
    ensures ParseValue(Tokens(t) + rest) == Some((t, rest))
    decreases t, 1
  {
    match t
    case Leaf(scalar) => assert (Tokens(t) + rest)[1..] == rest;
    case List(items) => ListParses(items, rest);
    case Dict(members) => DictParses(members, rest);
  }

  lemma {:induction false} ListParses(items: seq<Tree>, rest: seq<Token>)
    requires forall i | 0 <= i < |items| :: WellFormed(items[i])
    ensures ParseValue(Tokens(List(items)) + rest) == Some((List(items), rest))
    decreases List(items), 0
  {
    hide ParseItems, ItemTokens;
    var ts := Tokens(List(items)) + rest;
    assert ts[0] == Mark('[');
    if items == [] {
      assert ItemTokens([]) == [] by { NoTokens(); }
      assert ts[2..] == rest;
    } else {
      FirstItemToken(items);
      ItemsParse(items, rest);
      assert ts[1..] == ItemTokens(items) + ([Mark(']')] + rest);
      assert ts[1] == ItemTokens(items)[0];
    }
  }

  lemma {:induction false} DictParses(members: seq<Entry>, rest: seq<Token>)
    requires DistinctNames(members) && forall i | 0 <= i < |members| :: WellFormed(members[i].value)
    ensures ParseValue(Tokens(Dict(members)) + rest) == Some((Dict(members), rest))
    decreases Dict(members), 0
  {
    hide ParseMembers, MemberTokens;
    var ts := Tokens(Dict(members)) + rest;
    assert ts[0] == Mark('{');
    if members == [] {
      assert MemberTokens([]) == [] by { NoTokens(); }
      assert ts[2..] == rest;
    } else {
      FirstMemberToken(members);
      MembersParse(members, rest);
      assert ts[1..] == MemberTokens(members) + ([Mark('}')] + rest);
      assert ts[1] == MemberTokens(members)[0];
    }
  }

  lemma NoTokens()
    ensures ItemTokens([]) == [] && MemberTokens([]) == []
  {
  }

  lemma FirstToken(t: Tree)
    ensures Tokens(t)[0] != Mark(']') && Tokens(t)[0] != Mark('}')
  {
  }

  lemma FirstItemToken(items: seq<Tree>)
    requires items != []
    ensures ItemTokens(items) != [] && ItemTokens(items)[0] != Mark(']')
  {
    FirstToken(items[0]);
  }

  lemma FirstMemberToken(members: seq<Entry>)
    requires members != []
    ensures MemberTokens(members) != [] && MemberTokens(members)[0].Atom?
  {
  }

  lemma {:induction false} ItemsParse(items: seq<Tree>, rest: seq<Token>)
    requires items != [] && forall i | 0 <= i < |items| :: WellFormed(items[i])
    ensures ParseItems(ItemTokens(items) + ([Mark(']')] + rest)) == Some((items, rest))
    decreases items, 0
  {
    hide Tokens, ParseValue, ParseItems, WellFormed;
    var item := items[0];
    if |items| == 1 {
      var after := [Mark(']')] + rest;
      TokensParse(item, after);
      ItemParses(item, after);
      assert after[1..] == rest;
      assert items == [item];
    } else {
      var tail := ItemTokens(items[1..]);
      assert ItemTokens(items) == Tokens(item) + [Mark(',')] + tail;
      hide ItemTokens;
      var after := [Mark(',')] + (tail + ([Mark(']')] + rest));
      TokensParse(item, after);
      ItemParses(item, after);
      ItemsParse(items[1..], rest);
      assert after[1..] == tail + ([Mark(']')] + rest);
      assert Tokens(item) + after == ItemTokens(items) + ([Mark(']')] + rest);
      assert items == [item] + items[1..];
    }
  }

  lemma {:induction false} ItemParses(item: Tree, after: seq<Token>)
    requires after != [] && ParseValue(Tokens(item) + after) == Some((item, after))
    ensures after[0] == Mark(']') ==> ParseItems(Tokens(item) + after) == Some(([item], after[1..]))
    ensures after[0] == Mark(',') && ParseItems(after[1..]).Some? ==>
      ParseItems(Tokens(item) + after)
        == Some(([item] + ParseItems(after[1..]).value.0, ParseItems(after[1..]).value.1))
  {
    hide Tokens, ParseValue;
  }

  lemma {:induction false} EntryParses(entry: Entry, after: seq<Token>)
    requires after != [] && ParseValue(Tokens(entry.value) + after) == Some((entry.value, after))
    ensures after[0] == Mark('}') ==> ParseMembers(EntryTokens(entry) + after) == Some(([entry], after[1..]))
    ensures after[0] == Mark(',') && ParseMembers(after[1..]).Some? ==>
      ParseMembers(EntryTokens(entry) + after)
        == Some(([entry] + ParseMembers(after[1..]).value.0, ParseMembers(after[1..]).value.1))
  {
    hide Tokens, ParseValue;
    var ts := EntryTokens(entry) + after;
    assert ts[2..] == Tokens(entry.value) + after;
    assert ts[0] == Atom(StringScalar(entry.name)) && ts[1] == Mark(':');
  }

  lemma {:induction false} MembersParse(members: seq<Entry>, rest: seq<Token>)
    requires members != [] && forall i | 0 <= i < |members| :: WellFormed(members[i].value)
    ensures ParseMembers(MemberTokens(members) + ([Mark('}')] + rest)) == Some((members, rest))
    decreases members, 0
  {
    hide Tokens, EntryTokens, ParseValue, ParseMembers, WellFormed;
    var entry := members[0];
    if |members| == 1 {
      var after := [Mark('}')] + rest;
      TokensParse(entry.value, after);
      EntryParses(entry, after);
      assert after[1..] == rest;
      assert members == [entry];
    } else {
      var tail := MemberTokens(members[1..]);
      assert MemberTokens(members) == EntryTokens(entry) + [Mark(',')] + tail;
      hide MemberTokens;
      var after := [Mark(',')] + (tail + ([Mark('}')] + rest));
      TokensParse(entry.value, after);
      EntryParses(entry, after);
      MembersParse(members[1..], rest);
      assert after[1..] == tail + ([Mark('}')] + rest);
      assert EntryTokens(entry) + after == MemberTokens(members) + ([Mark('}')] + rest);
      assert members == [entry] + members[1..];
    }
  }

  // ----- and only what could have been written is read -----------------------------------------------

  lemma {:induction false} ParseIsSound(ts: seq<Token>)
    ensures ParseValue(ts).Some? ==>
      WellFormed(ParseValue(ts).value.0) && ts == Tokens(ParseValue(ts).value.0) + ParseValue(ts).value.1
    decreases |ts|, 0
  {
    hide ItemTokens, MemberTokens, ParseItems, ParseMembers, DistinctNames;
    EmptyContainers();
    var r := ParseValue(ts);
    if r.Some? {
      if ts[0].Atom? {
        assert ts == [ts[0]] + ts[1..];
      } else if ts[0].c == '[' && |ts| >= 2 && ts[1] == Mark(']') {
        assert ts == [ts[0], ts[1]] + ts[2..];
      } else if ts[0].c == '[' {
        ParseItemsIsSound(ts[1..]);
        assert ts == [ts[0]] + ts[1..];
      } else if |ts| >= 2 && ts[1] == Mark('}') {
        assert ts == [ts[0], ts[1]] + ts[2..];
      } else {
        ParseMembersIsSound(ts[1..]);
        assert ts == [ts[0]] + ts[1..];
      }
    }
  }

  lemma EmptyContainers()
    ensures ItemTokens([]) == [] && MemberTokens([]) == [] && DistinctNames([])
  {
  }

  lemma {:induction false} ParseItemsIsSound(ts: seq<Token>)
    ensures ParseItems(ts).Some? ==>
      var (items, rest) := ParseItems(ts).value;
      && items != [] && (forall i | 0 <= i < |items| :: WellFormed(items[i]))
      && ts == ItemTokens(items) + ([Mark(']')] + rest)
    decreases |ts|, 1
  {
    hide Tokens, ParseValue, WellFormed;
    if ParseItems(ts).Some? {
      ParseIsSound(ts);
      var first := ParseValue(ts).value;
      assert first.1 == [first.1[0]] + first.1[1..];
      if first.1[0] == Mark(',') {
        ParseItemsIsSound(first.1[1..]);
        var (items, rest) := ParseItems(ts).value;
        assert items[1..] == ParseItems(first.1[1..]).value.0;
      }
    }
  }

  lemma {:induction false} ParseMembersIsSound(ts: seq<Token>)
    ensures ParseMembers(ts).Some? ==>
      var (members, rest) := ParseMembers(ts).value;
      && members != [] && (forall i | 0 <= i < |members| :: WellFormed(members[i].value))
      && ts == MemberTokens(members) + ([Mark('}')] + rest)
    decreases |ts|, 1
  {
    hide Tokens, ParseValue, WellFormed, MemberTokens, EntryTokens;
    if ParseMembers(ts).Some? {
      ParseIsSound(ts[2..]);
      var first := ParseValue(ts[2..]).value;
      var entry := Entry(ts[0].scalar.text, first.0);
      assert first.1 == [first.1[0]] + first.1[1..];
      EntrySpells(ts, entry, first.1);
      if first.1[0] == Mark(',') {
        ParseMembersIsSound(first.1[1..]);
        var (more, rest) := ParseMembers(first.1[1..]).value;
        MembersSpell(ts, entry, first.1, more, rest);
      } else {
        OneEntry(entry);
        assert EntryTokens(entry) + first.1 == EntryTokens(entry) + ([Mark('}')] + first.1[1..]);
      }
    }
  }

  lemma EntrySpells(ts: seq<Token>, entry: Entry, after: seq<Token>)
    requires |ts| >= 2 && ts[0] == Atom(StringScalar(entry.name)) && ts[1] == Mark(':')
    requires ts[2..] == Tokens(entry.value) + after
    ensures ts == EntryTokens(entry) + after
  {
    hide Tokens;
    assert ts == [ts[0], ts[1]] + ts[2..];
  }

  lemma OneEntry(entry: Entry)
    ensures MemberTokens([entry]) == EntryTokens(entry)
  {
    hide EntryTokens;
  }

  lemma MembersSpell(ts: seq<Token>, entry: Entry, after: seq<Token>, more: seq<Entry>, rest: seq<Token>)
    requires ts == EntryTokens(entry) + after && more != [] && after != [] && after[0] == Mark(',')
    requires after[1..] == MemberTokens(more) + ([Mark('}')] + rest)
    ensures ts == MemberTokens([entry] + more) + ([Mark('}')] + rest)
  {
    hide EntryTokens;
    assert ([entry] + more)[1..] == more;
    assert after == [Mark(',')] + after[1..];
  }

  /** A text is JSON exactly when it spells a well-formed tree; and it spells only one. */
  lemma JsonIsSpelledTrees(ts: seq<Token>)
    ensures IsJson(ts) <==> exists t | WellFormed(t) :: Tokens(t) == ts
    ensures forall t, u | WellFormed(t) && WellFormed(u) && Tokens(t) == ts && Tokens(u) == ts :: t == u
  {
    ParseIsSound(ts);
    if IsJson(ts) {
      assert Tokens(ParseValue(ts).value.0) == ts;
    }
    forall t | WellFormed(t) && Tokens(t) == ts ensures ParseValue(ts) == Some((t, [])) {
      TokensParse(t, []);
      assert Tokens(t) + [] == ts;
    }
  }
}
