/** Every value of a document that repeats no name is found, once, where it begins. */
module LocateExactly {
  import opened Json
  import opened Lexical
  import opened Utf8
  import opened Pointer
  import opened Layouts
  import opened Locator
  import opened Locating
  import opened Locate

  /** No object of the document names a member twice. */
  ghost predicate NamesOnce(v: Layout, decode: Decoder) {
    match v
    case Listed(items, _) => forall i | 0 <= i < |items| :: NamesOnce(items[i].value, decode)
    case Braced(members, _) =>
      && (forall i, j | 0 <= i < j < |members| :: NameOf(members[i], decode) != NameOf(members[j], decode))
      && forall i | 0 <= i < |members| :: NamesOnce(members[i].value, decode)
    case _ => true
  }

  /** No two marks of one kind are of one path. */
  ghost predicate OnceEach(marks: seq<Mark>) {
    forall i, j | 0 <= i < j < |marks| :: marks[i].name == marks[j].name ==> marks[i].path != marks[j].path
  }

  // ----- indexes as text -----------------------------------------------------------------------------

  lemma {:induction false} IndexReads(n: nat)
    ensures Digits(IndexText(n)) && DecimalValue(IndexText(n)) == n
  {
    var s := IndexText(n);
    if n < 10 {
      assert s[..0] == "";
    } else {
      IndexReads(n / 10);
      assert s[..|s| - 1] == IndexText(n / 10);
    }
  }

  lemma IndexesDiffer(m: nat, n: nat)
    requires m != n
    ensures IndexText(m) != IndexText(n)
  {
    IndexReads(m);
    IndexReads(n);
  }

  // ----- paths under a path ----------------------------------------------------------------------------

  ghost predicate Under(path: seq<string>, marks: seq<Mark>) {
    forall m | m in marks :: path <= m.path
  }

  ghost predicate StrictlyUnder(path: seq<string>, marks: seq<Mark>) {
    forall m | m in marks :: |path| < |m.path| && path == m.path[..|path|]
  }

  lemma UnderChild(path: seq<string>, step: string, marks: seq<Mark>)
    requires Under(path + [step], marks)
    ensures StrictlyUnder(path, marks) && forall m | m in marks :: m.path[|path|] == step
  {
    forall m | m in marks ensures |path| < |m.path| && path == m.path[..|path|] && m.path[|path|] == step {
      assert path + [step] <= m.path;
      assert m.path[..|path| + 1] == path + [step];
      assert m.path[..|path|] == m.path[..|path| + 1][..|path|];
      assert m.path[|path|] == m.path[..|path| + 1][|path|];
    }
  }

  lemma {:induction false} MarksUnder(v: Layout, decode: Decoder, path: seq<string>, at: nat)
    ensures Under(path, Marks(v, decode, path, at))
    decreases v, 2
  {
    match v
    case Listed(items, _) => ItemsUnder(items, decode, path, 0, at + 1);
    case Braced(members, _) => MembersUnder(members, decode, path, at + 1);
    case _ =>
  }

  lemma {:induction false} ItemsUnder(items: seq<Element>, decode: Decoder, path: seq<string>, index: nat, at: nat)
    ensures StrictlyUnder(path, ItemMarks(items, decode, path, index, at))
    decreases items, 0
  {
    if items != [] {
      MarksUnder(items[0].value, decode, path + [IndexText(index)], at + |items[0].before|);
      UnderChild(path, IndexText(index),
        Marks(items[0].value, decode, path + [IndexText(index)], at + |items[0].before|));
      ItemsUnder(items[1..], decode, path, index + 1, at + |WrittenElement(items[0])| + 1);
    }
  }

  lemma {:induction false} MembersUnder(members: seq<Member>, decode: Decoder, path: seq<string>, at: nat)
    ensures StrictlyUnder(path, MemberMarks(members, decode, path, at))
    decreases members, 0
  {
    if members != [] {
      var child := path + [NameOf(members[0], decode)];
      MarksUnder(members[0].value, decode, child, at + |Head(members[0])|);
      UnderChild(path, NameOf(members[0], decode), Marks(members[0].value, decode, child, at + |Head(members[0])|));
      MembersUnder(members[1..], decode, path, at + |WrittenMember(members[0])| + 1);
    }
  }

  /** Which step each mark takes below a path. */
  ghost predicate StepsAre(path: seq<string>, marks: seq<Mark>, steps: iset<string>) {
    StrictlyUnder(path, marks) && forall m | m in marks :: m.path[|path|] in steps
  }

  lemma ApartBoth(path: seq<string>, first: seq<Mark>, second: seq<Mark>, step: string, steps: iset<string>)
    requires OnceEach(first) && OnceEach(second) && StepsAre(path, first, iset{step}) && StepsAre(path, second, steps)
    requires step !in steps
    ensures OnceEach(first + second)
  {
    forall i, j | 0 <= i < j < |first + second| && (first + second)[i].name == (first + second)[j].name
      ensures (first + second)[i].path != (first + second)[j].path
    {
      if i < |first| && j >= |first| { assert first[i] in first && second[j - |first|] in second; }
    }
  }

  ghost function IndexesFrom(index: nat): iset<string> {
    iset n: nat | index <= n :: IndexText(n)
  }

  ghost function NamesOf(members: seq<Member>, decode: Decoder): iset<string> {
    iset m | m in members :: NameOf(m, decode)
  }

  lemma {:induction false} MarksAreOnce(v: Layout, decode: Decoder, path: seq<string>, at: nat)
    requires NamesOnce(v, decode)
    ensures OnceEach(Marks(v, decode, path, at))
    decreases v, 2
  {
    match v
    case Listed(items, _) =>
      ItemsAreOnce(items, decode, path, 0, at + 1);
      FirstApart(path, at, ItemMarks(items, decode, path, 0, at + 1), IndexesFrom(0));
    case Braced(members, _) =>
      MembersAreOnce(members, decode, path, at + 1);
      FirstApart(path, at, MemberMarks(members, decode, path, at + 1), NamesOf(members, decode));
    case _ =>
  }

  lemma FirstApart(path: seq<string>, at: nat, rest: seq<Mark>, steps: iset<string>)
    requires OnceEach(rest) && StepsAre(path, rest, steps)
    ensures OnceEach([Mark(path, at, false)] + rest)
  {
    var all := [Mark(path, at, false)] + rest;
    forall i, j | 0 <= i < j < |all| && all[i].name == all[j].name ensures all[i].path != all[j].path {
      assert all[j] in rest;
    }
  }

  lemma {:induction false} ItemsAreOnce(items: seq<Element>, decode: Decoder, path: seq<string>, index: nat, at: nat)
    requires forall i | 0 <= i < |items| :: NamesOnce(items[i].value, decode)
    ensures OnceEach(ItemMarks(items, decode, path, index, at))
    ensures StepsAre(path, ItemMarks(items, decode, path, index, at), IndexesFrom(index))
    decreases items, 0
  {
    if items != [] {
      hide Marks, WrittenElement, OnceEach, IndexText;
      var step := IndexText(index);
      var first := Marks(items[0].value, decode, path + [step], at + |items[0].before|);
      var rest := ItemMarks(items[1..], decode, path, index + 1, at + |WrittenElement(items[0])| + 1);
      MarksAreOnce(items[0].value, decode, path + [step], at + |items[0].before|);
      MarksUnder(items[0].value, decode, path + [step], at + |items[0].before|);
      UnderChild(path, step, first);
      ItemsAreOnce(items[1..], decode, path, index + 1, at + |WrittenElement(items[0])| + 1);
      forall n: nat | index + 1 <= n ensures IndexText(n) != step { IndexesDiffer(n, index); }
      ApartBoth(path, first, rest, step, IndexesFrom(index + 1));
      assert step in IndexesFrom(index);
      assert forall s | s in IndexesFrom(index + 1) :: s in IndexesFrom(index);
    }
  }

  lemma {:induction false} MembersAreOnce(members: seq<Member>, decode: Decoder, path: seq<string>, at: nat)
    requires forall i, j | 0 <= i < j < |members| :: NameOf(members[i], decode) != NameOf(members[j], decode)
    requires forall i | 0 <= i < |members| :: NamesOnce(members[i].value, decode)
    ensures OnceEach(MemberMarks(members, decode, path, at))
    ensures StepsAre(path, MemberMarks(members, decode, path, at), NamesOf(members, decode))
    decreases members, 0
  {
    hide Marks, WrittenMember, NameOf, Head, OnceEach, StepsAre, NamesOf;
    if members == [] {
      NoMarks(path, NamesOf(members, decode));
    } else {
      var name, rest := NameOf(members[0], decode), members[1..];
      assert forall i | 0 <= i < |rest| :: rest[i] == members[i + 1];
      MembersAreOnce(rest, decode, path, at + |WrittenMember(members[0])| + 1);
      MarksAreOnce(members[0].value, decode, path + [name], at + |Head(members[0])|);
      FirstMember(members[0], decode, path, at);
      NamesSplit(members, decode);
      var first := [Mark(path + [name], at + |members[0].before|, true)]
        + Marks(members[0].value, decode, path + [name], at + |Head(members[0])|);
      var more := MemberMarks(rest, decode, path, at + |WrittenMember(members[0])| + 1);
      ApartBoth(path, first, more, name, NamesOf(rest, decode));
      StepsBoth(path, first, more, name, NamesOf(rest, decode), NamesOf(members, decode));
    }
  }

  lemma NoMarks(path: seq<string>, steps: iset<string>)
    ensures OnceEach([]) && StepsAre(path, [], steps)
  {
  }

  lemma NamesSplit(members: seq<Member>, decode: Decoder)
    requires members != []
    requires forall i, j | 0 <= i < j < |members| :: NameOf(members[i], decode) != NameOf(members[j], decode)
    ensures NameOf(members[0], decode) !in NamesOf(members[1..], decode)
    ensures NamesOf(members, decode) == iset{NameOf(members[0], decode)} + NamesOf(members[1..], decode)
  {
    hide NameOf;
    var rest := members[1..];
    forall m | m in rest ensures NameOf(m, decode) != NameOf(members[0], decode) {
      var i :| 0 <= i < |rest| && rest[i] == m;
      assert m == members[i + 1];
    }
    assert forall m :: m in members <==> m == members[0] || m in rest;
  }

  lemma StepsBoth(
    path: seq<string>, first: seq<Mark>, more: seq<Mark>, step: string, steps: iset<string>, all: iset<string>)
    requires StepsAre(path, first, iset{step}) && StepsAre(path, more, steps) && all == iset{step} + steps
    ensures StepsAre(path, first + more, all)
  {
  }

  /** A member's marks: its name, and its value's, all one step in. */
  lemma FirstMember(m: Member, decode: Decoder, path: seq<string>, at: nat)
    requires var child := path + [NameOf(m, decode)]; OnceEach(Marks(m.value, decode, child, at + |Head(m)|))
    ensures var child := path + [NameOf(m, decode)];
      var first := [Mark(child, at + |m.before|, true)] + Marks(m.value, decode, child, at + |Head(m)|);
      OnceEach(first) && StepsAre(path, first, iset{NameOf(m, decode)})
  {
    hide Marks, NameOf, Head, OnceEach;
    var name := NameOf(m, decode);
    var child := path + [name];
    NameIsApart(m.value, decode, child, at + |Head(m)|, at + |m.before|);
    MarksUnder(m.value, decode, child, at + |Head(m)|);
    var first := [Mark(child, at + |m.before|, true)] + Marks(m.value, decode, child, at + |Head(m)|);
    assert Under(child, first);
    UnderChild(path, name, first);
  }

  /** A member's name is marked once: its value's own name marks are further in. */
  lemma NameIsApart(v: Layout, decode: Decoder, child: seq<string>, at: nat, nameAt: nat)
    requires OnceEach(Marks(v, decode, child, at))
    ensures OnceEach([Mark(child, nameAt, true)] + Marks(v, decode, child, at))
  {
    var marks := Marks(v, decode, child, at);
    match v {
      case Listed(items, _) => ItemsUnder(items, decode, child, 0, at + 1);
      case Braced(members, _) => MembersUnder(members, decode, child, at + 1);
      case _ =>
    }
    var all := [Mark(child, nameAt, true)] + marks;
    forall i, j | 0 <= i < j < |all| && all[i].name == all[j].name ensures all[i].path != all[j].path {
      if i == 0 && j > 1 { assert marks[j - 1] in marks[1..]; }
    }
  }

  // ----- what is recorded ---------------------------------------------------------------------------------

  /** Each mark is recorded under its pointer, and nothing else is. */
  lemma {:induction false} RecordedExactly(raw: Bytes, marks: seq<Mark>)
    requires OnceEach(marks)
    ensures forall m | m in marks && !m.name ::
      Text(m.path) in Recorded(raw, marks).values && Recorded(raw, marks).values[Text(m.path)] == LocationOf(raw, m.at)
    ensures forall m | m in marks && m.name ::
      Text(m.path) in Recorded(raw, marks).keys && Recorded(raw, marks).keys[Text(m.path)] == LocationOf(raw, m.at)
    ensures forall p | p in Recorded(raw, marks).values :: exists m | m in marks :: !m.name && Text(m.path) == p
    ensures forall p | p in Recorded(raw, marks).keys :: exists m | m in marks :: m.name && Text(m.path) == p
  {
    hide Text, LocationOf;
    if marks != [] {
      var front, last := marks[..|marks| - 1], marks[|marks| - 1];
      RecordedExactly(raw, front);
      forall m | m in front && m.name == last.name ensures Text(m.path) != Text(last.path) {
        var i :| 0 <= i < |front| && front[i] == m;
        if Text(m.path) == Text(last.path) { TextIsInjective(m.path, last.path); }
      }
      assert forall m :: m in marks <==> m in front || m == last;
    }
  }

  /** The spans of a laid-out document that repeats no name are its values' pointers, each where the value begins. */
  lemma SpansAreExact(raw: Bytes, v: Layout, decode: Decoder, at: nat)
    requires NamesOnce(v, decode)
    ensures var marks, spans := Marks(v, decode, [], at), Recorded(raw, Marks(v, decode, [], at));
      && (forall m | m in marks && !m.name ::
        Text(m.path) in spans.values && spans.values[Text(m.path)] == LocationOf(raw, m.at))
      && (forall m | m in marks && m.name ::
        Text(m.path) in spans.keys && spans.keys[Text(m.path)] == LocationOf(raw, m.at))
      && (forall p | p in spans.values :: exists m | m in marks :: !m.name && Text(m.path) == p)
      && (forall p | p in spans.keys :: exists m | m in marks :: m.name && Text(m.path) == p)
  {
    hide Text, LocationOf, Marks, Recorded;
    MarksAreOnce(v, decode, [], at);
    RecordedExactly(raw, Marks(v, decode, [], at));
  }

  // ----- after a byte-order mark -------------------------------------------------------------------------

  const BYTE_ORDER_MARK: Bytes := [0xEF, 0xBB, 0xBF]

  /** A document with nothing inside it. */
  predicate Bare(v: Layout) {
    match v
    case Listed(items, _) => items == []
    case Braced(members, _) => members == []
    case _ => true
  }

  lemma {:induction false} RecordedHolds(raw: Bytes, marks: seq<Mark>, m: Mark)
    requires m in marks
    ensures var spans := Recorded(raw, marks); Text(m.path) in if m.name then spans.keys else spans.values
  {
    hide Text, LocationOf;
    var last := marks[|marks| - 1];
    assert marks == marks[..|marks| - 1] + [last];
    if m in marks[..|marks| - 1] { RecordedHolds(raw, marks[..|marks| - 1], m); }
  }

  lemma NotTheRoot(path: seq<string>)
    requires path != []
    ensures Text(path) != ""
  {
  }

  lemma NothingInside(v: Layout, decode: Decoder, at: nat)
    requires Bare(v)
    ensures Marks(v, decode, [], at) == [Mark([], at, false)]
  {
    match v
    case Listed(items, _) => assert ItemMarks(items, decode, [], 0, at + 1) == [];
    case Braced(members, _) => assert MemberMarks(members, decode, [], at + 1) == [];
    case _ =>
  }

  lemma SomethingInside(v: Layout, decode: Decoder, at: nat)
    requires !Bare(v)
    ensures exists m :: m in Marks(v, decode, [], at) && m.path != []
  {
    var marks := Marks(v, decode, [], at);
    if v.Listed? {
      var root: seq<string> := [];
      var first := Marks(v.items[0].value, decode, root + [IndexText(0)], at + 1 + |v.items[0].before|);
      assert first[0] in ItemMarks(v.items, decode, [], 0, at + 1);
      assert first[0] in marks;
    } else {
      var first := MemberMarks(v.members, decode, [], at + 1)[0];
      assert first in marks;
    }
  }

  /**
   A byte-order mark, which the parser takes, hides from the locator whatever the document holds:
   the root alone is located, which is every pointer exactly when there is nothing inside.
   */
  lemma MarkHidesWhatIsInside(document: Layout, decode: Decoder, text: Bytes, at: nat)
    ensures var raw := BYTE_ORDER_MARK + text;
      Unopened(raw) && RootAlone(raw) == Spans(map["" := Location(1, 1)], map[])
    ensures var spans := Recorded(text, Marks(document, decode, [], at));
      (spans.values.Keys == {""} && spans.keys == map[]) <==> Bare(document)
  {
    hide Marks, Bare;
    var raw := BYTE_ORDER_MARK + text;
    assert raw[0] == 0xEF && SpaceCount(raw) == 0;
    var marks := Marks(document, decode, [], at);
    if Bare(document) {
      NothingInside(document, decode, at);
      assert marks[..0] == [];
    } else {
      SomethingInside(document, decode, at);
      var m :| m in marks && m.path != [];
      NotTheRoot(m.path);
      RecordedHolds(text, marks, m);
    }
  }
}
