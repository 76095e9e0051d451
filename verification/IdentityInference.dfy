/**
 What the inferred identity promises: no file is renamed, no naming convention missed, and no
 listing order noticed.
 */
module IdentityInference {
  import opened Json
  import opened Lexical
  import opened Order
  import opened Sequences
  import opened Utf8
  import opened Alphabets
  import opened Percent
  import opened Naming
  import opened Identities

  // ----- observed alphabets ------------------------------------------------------------------------

  lemma RangesAreTotal()
    ensures Total(CompareRanges)
  {
  }

  lemma FromRangesIgnoresOrder(a: seq<Range>, b: seq<Range>)
    requires multiset(a) == multiset(b)
    ensures FromRanges(a) == FromRanges(b)
  {
    hide Merged, Sort;
    RangesAreTotal();
    SortIgnoresOrder(CompareRanges, a, b);
    assert |a| == |multiset(a)| == |multiset(b)| == |b|;
    forall c: char ensures In(c, a) <==> In(c, b) {
      assert forall r :: r in a <==> r in multiset(a);
      assert forall r :: r in b <==> r in multiset(b);
    }
  }

  lemma ObservedIgnoresOrder(a: string, b: string)
    requires multiset(a) == multiset(b)
    ensures Observed(a) == Observed(b)
  {
    ApplyPermutation(KindOf(), a, b);
    FromRangesIgnoresOrder(Apply(KindOf(), a), Apply(KindOf(), b));
  }

  /** What is observed holds everything seen; nothing is observed of nothing, or of a separator. */
  lemma ObservedHolds(chars: string)
    ensures Observed(chars).Ok? <==> chars != "" && '/' !in chars && '\0' !in chars
    ensures Observed(chars).Ok? ==> forall c | c in chars :: In(c, Observed(chars).value.ranges)
  {
    hide FromRanges;
    var ranges := Apply(KindOf(), chars);
    forall c | c in chars ensures In(c, ranges) {
      var i :| 0 <= i < |chars| && chars[i] == c;
      assert ranges[i] in ranges && Within(c, ranges[i]);
    }
    FromRangesHolds(ranges);
    KindsHoldNoSeparator(chars, '/');
    KindsHoldNoSeparator(chars, '\0');
  }

  lemma KindsHoldNoSeparator(chars: string, c: char)
    requires c == '/' || c == '\0'
    ensures In(c, Apply(KindOf(), chars)) ==> c in chars
  {
  }

  // ----- what it is for a rule to name a file ----------------------------------------------------------

  lemma OutsideNone(text: string, alphabet: Alphabet)
    ensures FirstOutside(text, alphabet) == |text| <==> forall c | c in text :: In(c, alphabet.ranges)
  {
    hide FirstOutside;
    var i := FirstOutside(text, alphabet);
    if i < |text| { assert text[i] in text; }
  }

  lemma VerbatimPart(alphabet: Alphabet, key: string, stem: string)
    ensures RenderPart(Verbatim(alphabet), [key]) == Named(stem) <==>
      stem == key && '/' !in key && '\0' !in key && forall c | c in key :: In(c, alphabet.ranges)
  {
    hide FirstOutside, In;
    OutsideNone(key, alphabet);
  }

  lemma ReldirPart(key: string)
    ensures RenderPart(Reldir, [key]) == Named(ReldirEncoded(key, true))
  {
    hide ReldirEncoded;
    assert Components([key], true) == [ReldirEncoded(key, true)];
  }

  /** A rule names a file by the part it renders, held to what every stem is held to. */
  lemma RenderIsPartChecked(rule: Rule, key: string, stem: string)
    ensures Render(rule, [key]) == Named(stem) <==>
      RenderPart(rule, [key]) == Named(stem) && Checked(stem) == Named(stem)
  {
    hide RenderPart, Checked;
    ArityIsOne(rule);
    var part := RenderPart(rule, [key]);
    if part.Named? { CheckedKeeps(part.value); }
  }

  lemma {:induction false} ArityIsOne(rule: Rule)
    ensures RuleArity(rule).Some? ==> RuleArity(rule).value == 1
  {
    if rule.Template? { ArityIsOne(rule.inner); }
  }

  lemma BetweenIs(prefix: string, suffix: string, middle: string)
    ensures Between(prefix, suffix, prefix + middle + suffix) == Some(middle)
  {
    var stem := prefix + middle + suffix;
    assert stem[|prefix|..] == middle + suffix;
    assert (middle + suffix)[|middle|..] == suffix && (middle + suffix)[..|middle|] == middle;
  }

  // ----- verbatim ----------------------------------------------------------------------------------------

  lemma FlatSees(f: Name -> string, names: seq<Name>, n: Name)
    requires n in names
    ensures forall c | c in f(n) :: c in Flat(f, names)
  {
    var i :| 0 <= i < |names| && names[i] == n;
    forall c | c in f(n) ensures c in Flat(f, names) { FlatHolds(f, names, c); }
  }

  /** Keys seen between the same ends of every name can be observed, when one of them is not empty. */
  lemma KeysAreObserved(f: Name -> string, names: seq<Name>)
    requires names != [] && names[0].key != ""
    requires forall n | n in names :: f(n) == n.key && '/' !in n.key && '\0' !in n.key
    ensures Observed(Flat(f, names)).Ok?
    ensures forall n, c | n in names && c in n.key :: In(c, Observed(Flat(f, names)).value.ranges)
  {
    hide Flat, Observed, In;
    var chars := Flat(f, names);
    FlatSees(f, names, names[0]);
    assert names[0].key[0] in chars;
    forall c | c == '/' || c == '\0' ensures c !in chars { FlatHolds(f, names, c); }
    ObservedHolds(chars);
    forall n | n in names ensures forall c | c in n.key :: c in chars { FlatSees(f, names, n); }
  }

  lemma VerbatimNames(alphabet: Alphabet, n: Name)
    requires Render(Verbatim(alphabet), [n.key]) == Named(n.stem)
    ensures n.stem == n.key && n.key != "" && '/' !in n.key && '\0' !in n.key && Checked(n.stem) == Named(n.stem)
  {
    hide Render, RenderPart, In, Checked;
    RenderIsPartChecked(Verbatim(alphabet), n.key, n.stem);
    VerbatimPart(alphabet, n.key, n.stem);
    CheckedKeeps(n.stem);
  }

  /** If any alphabet will do, the observed one does. */
  lemma VerbatimIsFound(alphabet: Alphabet, names: seq<Name>)
    requires names != [] && NamesAll(Verbatim(alphabet), names)
    ensures VerbatimOf(names).Some? && names[0].key != ""
  {
    hide Render, RenderPart, Flat, Observed, In, Checked;
    forall n | n in names
      ensures n.stem == n.key && n.key != "" && '/' !in n.key && '\0' !in n.key && Checked(n.stem) == Named(n.stem)
    {
      VerbatimNames(alphabet, n);
    }
    assert names[0] in names;
    KeysAreObserved(StemOf(), names);
    var observed := Observed(Flat(StemOf(), names)).value;
    forall n | n in names ensures Render(Verbatim(observed), [n.key]) == Named(n.stem) {
      VerbatimPart(observed, n.key, n.stem);
      RenderIsPartChecked(Verbatim(observed), n.key, n.stem);
    }
  }

  // ----- templates ----------------------------------------------------------------------------------------

  /** The template with this prefix and suffix names every file. */
  ghost predicate Workable(plain: bool, names: seq<Name>, prefix: string, suffix: string) {
    Wrapped(plain, names, prefix, suffix).Some? && NamesAll(Wrapped(plain, names, prefix, suffix).value, names)
  }

  lemma WrappedIs(plain: bool, names: seq<Name>, prefix: string, suffix: string)
    requires Wrapped(plain, names, prefix, suffix).Some?
    ensures var rule := Wrapped(plain, names, prefix, suffix).value;
      rule.Template? && rule.prefix == prefix && rule.suffix == suffix &&
      if plain then rule.inner.Verbatim? else rule.inner == Reldir
  {
    hide Observed, Between, Flat;
  }

  lemma InnerPart(plain: bool, inner: Rule, key: string)
    requires if plain then inner.Verbatim? else inner == Reldir
    ensures RenderPart(inner, [key]).Named? ==> RenderPart(inner, [key]).value == Needle(plain, key)
  {
    hide ReldirEncoded, FirstOutside, In;
    if plain {
      var part := RenderPart(inner, [key]);
      if part.Named? { VerbatimPart(inner.alphabet, key, part.value); }
    } else {
      ReldirPart(key);
    }
  }

  /** Whatever a template names is its prefix, the key's spelling and its suffix. */
  lemma WorkableSpells(plain: bool, names: seq<Name>, prefix: string, suffix: string)
    requires Workable(plain, names, prefix, suffix)
    ensures forall n | n in names :: n.stem == prefix + Needle(plain, n.key) + suffix
  {
    hide Wrapped, Render, Needle, RenderPart;
    WrappedIs(plain, names, prefix, suffix);
    var rule := Wrapped(plain, names, prefix, suffix).value;
    forall n | n in names ensures n.stem == prefix + Needle(plain, n.key) + suffix {
      RenderIsPartChecked(rule, n.key, n.stem);
      TemplatePart(rule, n.key);
      InnerPart(plain, rule.inner, n.key);
    }
  }

  lemma TemplatePart(rule: Rule, key: string)
    requires rule.Template?
    ensures RenderPart(rule, [key]).Named? <==> RenderPart(rule.inner, [key]).Named?
    ensures RenderPart(rule, [key]).Named? ==>
      RenderPart(rule, [key]).value == rule.prefix + RenderPart(rule.inner, [key]).value + rule.suffix
  {
  }

  /** Two templates of one kind with prefixes as long as each other are the same. */
  lemma WorkableIsOne(plain: bool, names: seq<Name>, prefix: string, suffix: string, prefix': string, suffix': string)
    requires names != [] && Workable(plain, names, prefix, suffix) && Workable(plain, names, prefix', suffix')
    requires |prefix| == |prefix'|
    ensures prefix == prefix' && suffix == suffix'
  {
    hide Wrapped, NamesAll, Needle;
    WorkableSpells(plain, names, prefix, suffix);
    WorkableSpells(plain, names, prefix', suffix');
    var stem, needle := names[0].stem, Needle(plain, names[0].key);
    assert names[0] in names;
    assert prefix == stem[..|prefix|] && prefix' == stem[..|prefix'|];
    assert suffix == stem[|prefix + needle|..] && suffix' == stem[|prefix' + needle|..];
  }

  lemma AroundIsWorkable(plain: bool, names: seq<Name>, prefix: string, suffix: string)
    requires names != [] && Workable(plain, names, prefix, suffix)
    ensures |prefix| <= |names[0].stem| && Around(plain, names, |prefix|) == Wrapped(plain, names, prefix, suffix)
  {
    hide Wrapped, NamesAll, Needle;
    WorkableSpells(plain, names, prefix, suffix);
    var stem, needle := names[0].stem, Needle(plain, names[0].key);
    assert names[0] in names;
    assert stem[|prefix|..] == needle + suffix;
    assert stem[..|prefix|] == prefix && stem[|prefix| + |needle|..] == suffix;
  }

  /** Searching down finds the longest workable prefix there is. */
  lemma {:induction false} LastIsLongest(plain: bool, names: seq<Name>, end: nat)
    returns (prefix: string, suffix: string)
    requires names != [] && end <= |names[0].stem|
    ensures LastBelow(plain, names, end).Some? ==>
      Workable(plain, names, prefix, suffix) && LastBelow(plain, names, end) == Wrapped(plain, names, prefix, suffix)
    ensures forall p, s :: Workable(plain, names, p, s) && |p| < end ==>
      LastBelow(plain, names, end).Some? && |p| <= |prefix|
  {
    hide Wrapped, NamesAll, Needle;
    prefix, suffix := "", "";
    if end > 0 {
      var stem, needle := names[0].stem, Needle(plain, names[0].key);
      if Around(plain, names, end - 1).Some? {
        prefix, suffix := stem[..end - 1], stem[end - 1 + |needle|..];
      } else {
        prefix, suffix := LastIsLongest(plain, names, end - 1);
        forall p, s | Workable(plain, names, p, s) && |p| < end ensures |p| < end - 1 {
          AroundIsWorkable(plain, names, p, s);
        }
      }
    }
  }

  /** A template is found exactly when one names every file, and no other of its kind has a longer prefix. */
  lemma LongestIsFound(plain: bool, names: seq<Name>) returns (prefix: string, suffix: string)
    requires names != [] && Needle(plain, names[0].key) != ""
    ensures Longest(plain, names).Some? ==>
      Workable(plain, names, prefix, suffix) && Longest(plain, names) == Wrapped(plain, names, prefix, suffix)
    ensures forall p, s :: Workable(plain, names, p, s) ==> Longest(plain, names).Some? && |p| <= |prefix|
  {
    hide Wrapped, NamesAll, Needle;
    prefix, suffix := LastIsLongest(plain, names, |names[0].stem|);
    forall p, s | Workable(plain, names, p, s) ensures |p| < |names[0].stem| {
      WorkableSpells(plain, names, p, s);
      assert names[0] in names;
    }
  }

  lemma NeedleIsSome(plain: bool, key: string)
    ensures Needle(plain, key) == "" <==> key == ""
  {
    hide ReldirEncoded;
    if !plain {
      if key != "" { NotHidden(key); } else { EmptyEncodes(); }
    }
  }

  lemma EmptyEncodes()
    ensures ReldirEncoded("", true) == ""
  {
    assert "" == [];
  }

  /** A template that names every file is one the search would make. */
  lemma TemplateIsWorkable(rule: Rule, names: seq<Name>)
    requires rule.Template? && Constructible(rule) && NamesAll(rule, names) && names != [] && names[0].key != ""
    ensures Workable(rule.inner.Verbatim?, names, rule.prefix, rule.suffix)
  {
    hide Render, RenderPart, Observed, Between, Flat, In, Checked, FirstOutside;
    var prefix, suffix := rule.prefix, rule.suffix;
    if rule.inner.Verbatim? {
      var f := MiddleOf(prefix, suffix);
      forall n | n in names
        ensures Between(prefix, suffix, n.stem) == Some(n.key) && f(n) == n.key && '/' !in n.key && '\0' !in n.key
        ensures n.stem == prefix + n.key + suffix && Checked(n.stem) == Named(n.stem)
      {
        TemplateSpells(rule, n);
      }
      KeysAreObserved(f, names);
      var observed := Observed(Flat(f, names)).value;
      var made := Template(prefix, suffix, Verbatim(observed));
      forall n | n in names ensures Render(made, [n.key]) == Named(n.stem) {
        VerbatimPart(observed, n.key, n.key);
        TemplatePart(made, n.key);
        RenderIsPartChecked(made, n.key, n.stem);
      }
    }
  }

  lemma TemplateSpells(rule: Rule, n: Name)
    requires rule.Template? && rule.inner.Verbatim? && Render(rule, [n.key]) == Named(n.stem)
    ensures Between(rule.prefix, rule.suffix, n.stem) == Some(n.key) && '/' !in n.key && '\0' !in n.key
    ensures n.stem == rule.prefix + n.key + rule.suffix && Checked(n.stem) == Named(n.stem)
  {
    hide Render, RenderPart, Between, In, Checked, FirstOutside;
    RenderIsPartChecked(rule, n.key, n.stem);
    TemplatePart(rule, n.key);
    var part := RenderPart(rule.inner, [n.key]).value;
    VerbatimPart(rule.inner.alphabet, n.key, part);
    BetweenIs(rule.prefix, rule.suffix, n.key);
  }

  // ----- no convention is missed ----------------------------------------------------------------------------

  /** Some rule names every file. */
  ghost predicate Nameable(names: seq<Name>) {
    exists rule :: Constructible(rule) && NamesAll(rule, names)
  }

  lemma WrappedIsConstructible(plain: bool, names: seq<Name>, prefix: string, suffix: string)
    ensures Wrapped(plain, names, prefix, suffix).Some? ==> Constructible(Wrapped(plain, names, prefix, suffix).value)
  {
    hide Observed, Between, Flat;
  }

  lemma FoundNames(names: seq<Name>)
    requires names != []
    ensures RuleOf(names).Some? ==> Constructible(RuleOf(names).value) && NamesAll(RuleOf(names).value, names)
    ensures RuleOf(names).Some? ==> names[0].key != ""
  {
    hide Wrapped, NamesAll, Render, Observed, Flat, LastBelow, ReldirEncoded;
    if VerbatimOf(names).Some? {
      VerbatimIsFound(VerbatimOf(names).value.alphabet, names);
    } else if NamesAll(Reldir, names) {
      ReldirNeedsKeys(names);
    } else if RuleOf(names).Some? {
      var plain := Longest(true, names).Some?;
      assert Longest(plain, names).Some?;
      NeedleIsSome(plain, names[0].key);
      var prefix, suffix := LongestIsFound(plain, names);
      WrappedIsConstructible(plain, names, prefix, suffix);
    }
  }

  lemma ReldirNeedsKeys(names: seq<Name>)
    requires names != [] && NamesAll(Reldir, names)
    ensures names[0].key != ""
  {
    hide RenderPart, Checked, ReldirEncoded, Render;
    var n := names[0];
    assert n in names;
    RenderIsPartChecked(Reldir, n.key, n.stem);
    ReldirPart(n.key);
    EmptyEncodes();
    CheckedKeeps(n.stem);
  }

  /** A rule is found exactly when some rule names every file and the first file's key is not empty. */
  lemma NoRuleIsMissed(names: seq<Name>)
    requires names != []
    ensures RuleOf(names).Some? <==> names[0].key != "" && Nameable(names)
  {
    hide Wrapped, NamesAll, Render, Observed, Flat, LastBelow, ReldirEncoded, MakeTemplate;
    FoundNames(names);
    if names[0].key != "" && Nameable(names) {
      var rule :| Constructible(rule) && NamesAll(rule, names);
      match rule
      case Verbatim(alphabet) => VerbatimIsFound(alphabet, names);
      case Reldir =>
      case Template(prefix, suffix, inner) =>
        var plain := inner.Verbatim?;
        TemplateIsWorkable(rule, names);
        NeedleIsSome(plain, names[0].key);
        var p, s := LongestIsFound(plain, names);
    }
  }

  // ----- no order is noticed -----------------------------------------------------------------------------------

  lemma SameElements<T>(xs: seq<T>, ys: seq<T>)
    requires multiset(xs) == multiset(ys)
    ensures |xs| == |ys| && forall x :: x in xs <==> x in ys
  {
    assert |xs| == |multiset(xs)| && |ys| == |multiset(ys)|;
    assert forall x :: x in xs <==> x in multiset(xs);
    assert forall x :: x in ys <==> x in multiset(ys);
  }

  lemma WorkableIgnoresOrder(plain: bool, names: seq<Name>, others: seq<Name>, prefix: string, suffix: string)
    requires multiset(names) == multiset(others)
    ensures Wrapped(plain, names, prefix, suffix) == Wrapped(plain, others, prefix, suffix)
    ensures Workable(plain, names, prefix, suffix) <==> Workable(plain, others, prefix, suffix)
  {
    hide Observed, Between, Flat, Render;
    SameElements(names, others);
    var f := MiddleOf(prefix, suffix);
    FlatPermutes(f, names, others);
    ObservedIgnoresOrder(Flat(f, names), Flat(f, others));
  }

  lemma LongestIgnoresOrder(plain: bool, names: seq<Name>, others: seq<Name>)
    requires multiset(names) == multiset(others) && names != []
    requires others != [] && names[0].key != "" && others[0].key != ""
    ensures Longest(plain, names) == Longest(plain, others)
  {
    hide Wrapped, NamesAll, Needle, Longest;
    NeedleIsSome(plain, names[0].key);
    NeedleIsSome(plain, others[0].key);
    var p, s := LongestIsFound(plain, names);
    var p', s' := LongestIsFound(plain, others);
    WorkableIgnoresOrder(plain, names, others, p, s);
    WorkableIgnoresOrder(plain, names, others, p', s');
    if Longest(plain, names).Some? { WorkableIsOne(plain, names, p, s, p', s'); }
  }

  lemma RuleIgnoresOrder(names: seq<Name>, others: seq<Name>)
    requires multiset(names) == multiset(others) && names != []
    requires others != [] && names[0].key != "" && others[0].key != ""
    ensures RuleOf(names) == RuleOf(others)
  {
    hide Longest, Observed, Flat, Render;
    SameElements(names, others);
    FlatPermutes(StemOf(), names, others);
    ObservedIgnoresOrder(Flat(StemOf(), names), Flat(StemOf(), others));
    LongestIgnoresOrder(true, names, others);
    LongestIgnoresOrder(false, names, others);
  }

  /**
   Listing the files in another order changes the rule exactly when it puts an empty key first, or
   last one there, and a rule exists.
   */
  lemma OrderMattersExactlyWhen(names: seq<Name>, others: seq<Name>)
    requires multiset(names) == multiset(others) && names != [] && others != []
    ensures RuleOf(names) != RuleOf(others) <==> Nameable(names) && (names[0].key == "" <==> others[0].key != "")
  {
    hide NamesAll, RuleOf, Constructible;
    NoRuleIsMissed(names);
    NoRuleIsMissed(others);
    SameElements(names, others);
    NameableIgnoresOrder(names, others);
    if names[0].key != "" && others[0].key != "" { RuleIgnoresOrder(names, others); }
  }

  lemma NameableIgnoresOrder(names: seq<Name>, others: seq<Name>)
    requires forall n :: n in names <==> n in others
    ensures Nameable(names) <==> Nameable(others)
  {
    hide Render, Constructible;
    forall rule ensures NamesAll(rule, names) <==> NamesAll(rule, others) {}
  }

  /** Two files, one with an empty key: what is inferred depends on which is listed first. */
  lemma OrderCanMatter()
    ensures var bare, full := Name("x-", ""), Name("x-a", "a");
      RuleOf([bare, full]).None? && RuleOf([full, bare]).Some?
  {
    hide RuleOf, NamesAll, Checked, RenderPart, Render, In;
    var bare, full := Name("x-", ""), Name("x-a", "a");
    var alphabet := Alphabet([Range('a', 'z')]);
    var rule := Template("x-", "", Verbatim(alphabet));
    PortableNames();
    LetterIsIn(alphabet);
    forall n | n == bare || n == full ensures Render(rule, [n.key]) == Named(n.stem) {
      VerbatimPart(alphabet, n.key, n.key);
      TemplatePart(rule, n.key);
      RenderIsPartChecked(rule, n.key, n.stem);
      assert "x-" + n.key + "" == n.stem;
    }
    NamesBoth(rule, bare, full);
    NoRuleIsMissed([bare, full]);
    NoRuleIsMissed([full, bare]);
  }

  lemma LetterIsIn(alphabet: Alphabet)
    requires alphabet.ranges == [Range('a', 'z')]
    ensures In('a', alphabet.ranges)
  {
    assert Within('a', alphabet.ranges[0]);
  }

  lemma NamesBoth(rule: Rule, a: Name, b: Name)
    requires Render(rule, [a.key]) == Named(a.stem) && Render(rule, [b.key]) == Named(b.stem)
    ensures NamesAll(rule, [a, b]) && NamesAll(rule, [b, a])
  {
    hide Render;
  }

  lemma PortableNames()
    ensures Checked("x-") == Named("x-") && Checked("x-a") == Named("x-a")
  {
    forall s | s == "x-" || s == "x-a" ensures Checked(s) == Named(s) {
      AsciiBytes(s + EXTENSION);
      assert Percent.Lower(s[..DotAt(s)])[0] == 'x' || DotAt(s) == 0;
    }
  }

  // ----- which rule is preferred -----------------------------------------------------------------------------

  /**
   The key as it is, where that will do; then reldir's encoding; then a template, around the key
   as it is if one will do.
   */
  lemma RuleIsPreferred(names: seq<Name>)
    requires names != [] && RuleOf(names).Some?
    ensures var rule := RuleOf(names).value;
      && (!rule.Verbatim? ==> forall alphabet :: !NamesAll(Verbatim(alphabet), names))
      && (rule.Template? ==> !NamesAll(Reldir, names))
      && (rule.Template? ==> forall other | Outdoes(other, rule) :: !NamesAll(other, names))
  {
    hide Wrapped, NamesAll, Render, Observed, Flat, LastBelow, ReldirEncoded, MakeTemplate;
    var rule := RuleOf(names).value;
    FoundNames(names);
    if !rule.Verbatim? {
      forall alphabet ensures !NamesAll(Verbatim(alphabet), names) {
        if NamesAll(Verbatim(alphabet), names) { VerbatimIsFound(alphabet, names); }
      }
    }
    if rule.Template? {
      forall other | Outdoes(other, rule) ensures !NamesAll(other, names) {
        if NamesAll(other, names) { CannotBeOutdone(other, names); }
      }
    }
  }

  /** A template around the key as it is outdoes one around its encoding; and of one kind, the longer prefix. */
  ghost predicate Outdoes(other: Rule, rule: Rule) {
    && other.Template? && rule.Template? && Constructible(other)
    && (other.inner.Verbatim? ==> rule.inner.Verbatim? ==> |other.prefix| > |rule.prefix|)
    && (!other.inner.Verbatim? ==> !rule.inner.Verbatim? && |other.prefix| > |rule.prefix|)
  }

  lemma CannotBeOutdone(other: Rule, names: seq<Name>)
    requires other.Template? && Constructible(other) && NamesAll(other, names) && names != [] && names[0].key != ""
    ensures TemplateOf(names).Some? && !Outdoes(other, TemplateOf(names).value)
  {
    hide Wrapped, NamesAll, LastBelow, ReldirEncoded, MakeTemplate;
    var plain := other.inner.Verbatim?;
    TemplateIsWorkable(other, names);
    NeedleIsSome(plain, names[0].key);
    NeedleIsSome(!plain, names[0].key);
    var p, s := LongestIsFound(plain, names);
    WrappedIs(plain, names, p, s);
    var p', s' := LongestIsFound(!plain, names);
    if Longest(!plain, names).Some? { WrappedIs(!plain, names, p', s'); }
  }

  // ----- the identity of a table -----------------------------------------------------------------------------

  lemma NameOfRow(rows: seq<Row>, column: string, row: Row)
    requires row in rows
    ensures NameIn(column)(row) in Apply(NameIn(column), rows)
  {
    var i :| 0 <= i < |rows| && rows[i] == row;
    assert Apply(NameIn(column), rows)[i] == NameIn(column)(row);
  }

  /**
   An identity in the body renames nothing: every row's key names the very file it is in, and that
   name gives the key back.
   */
  lemma BodyRenamesNothing(table: string, rows: seq<Row>, columns: seq<string>)
    requires IdentityOf(table, rows, columns).Body?
    ensures var identity := IdentityOf(table, rows, columns);
      |identity.columns| == 1 && identity.columns[0] in columns && forall row | row in rows ::
        NamedByItsKey(identity, row)
  {
    hide RuleOf, Render, Parse, Singular;
    var identity := IdentityOf(table, rows, columns);
    ChosenNames(table, rows, columns);
    var column := Chosen(table, rows, columns).value;
    var names := Apply(NameIn(column), rows);
    FoundNames(names);
    forall row | row in rows ensures NamedByItsKey(identity, row) {
      NameOfRow(rows, column, row);
      var key := KeyText(row.body[column]).value;
      ParseInvertsRender(identity.rule, [key], row.stem);
      OneKey(column, row.body);
    }
  }

  ghost predicate NamedByItsKey(identity: Identity, row: Row)
    requires identity.Body?
  {
    var keys := KeyTexts(identity.columns, row.body);
    && StemFor(identity, row.body) == Some(Named(row.stem))
    && keys.Some? && Parse(identity.rule, row.stem) == Named(keys.value)
  }

  lemma OneKey(column: string, body: map<string, Value>)
    requires column in body && KeyText(body[column]).Some?
    ensures KeyTexts([column], body) == Some([KeyText(body[column]).value])
  {
    assert [column][1..] == [];
    assert [KeyText(body[column]).value] + [] == [KeyText(body[column]).value];
  }

  lemma IntegersAreKeys(n: int)
    ensures KeyText(Value.Number(IntText(n))) == Some(IntText(n))
  {
    assert forall i | 0 <= i < |IntText(n)| :: Digit(IntText(n)[i]) || IntText(n)[i] == '-';
  }

  /** A stem that is the key is a column no body has, and every file's stem is the key text of the value it gives. */
  lemma StemsReadBack(table: string, rows: seq<Row>, columns: seq<string>)
    requires IdentityOf(table, rows, columns).FileStem?
    ensures var identity := IdentityOf(table, rows, columns); forall row | row in rows ::
      && identity.column !in row.body
      && StemValue(identity, row.stem).Some?
      && KeyText(StemValue(identity, row.stem).value) == Some(row.stem)
      && StemFor(identity, row.body[identity.column := StemValue(identity, row.stem).value]) == Some(StemName(row.stem))
  {
    hide RuleFor, Singular, StemColumn, IntText, ReadI64, StemName;
    var identity := IdentityOf(table, rows, columns);
    StemColumnIsFree(Used(rows));
    ChosenNames(table, rows, columns);
    forall n ensures KeyText(Value.Number(IntText(n))) == Some(IntText(n)) { IntegersAreKeys(n); }
    forall row | row in rows ensures identity.column !in row.body {
      assert forall name | name in row.body :: name in Used(rows);
    }
  }

  /** The stem is the key exactly when no rule whatever makes some column's key every file's name. */
  lemma StemIsKeyExactlyWhen(table: string, rows: seq<Row>, columns: seq<string>)
    ensures IdentityOf(table, rows, columns).FileStem? <==>
      rows == [] || forall column | column in columns :: !NamesTheFiles(rows, column)
  {
    hide RuleOf, Singular, Nameable;
    ChosenNames(table, rows, columns);
    if rows != [] {
      forall column ensures NamesTheFiles(rows, column) <==> RuleFor(rows, column).Some? {
        NoRuleIsMissed(Apply(NameIn(column), rows));
      }
      assert forall column :: Names(rows, columns, column) <==> column in columns && NamesTheFiles(rows, column);
    }
  }

  ghost predicate NamesTheFiles(rows: seq<Row>, column: string)
    requires rows != []
  {
    && (forall row | row in rows :: Keyed(column, row))
    && NameIn(column)(rows[0]).key != ""
    && Nameable(Apply(NameIn(column), rows))
  }

  /** No empty key is listed first one way and not the other. */
  ghost predicate FirstsAgree(rows: seq<Row>, others: seq<Row>, column: string)
    requires rows != [] && others != []
  {
    NameIn(column)(rows[0]).key == "" <==> NameIn(column)(others[0]).key == ""
  }

  /** A rule names the column's files, and one listing begins with an empty key where the other does not. */
  ghost predicate OrderShows(rows: seq<Row>, others: seq<Row>, column: string)
    requires rows != [] && others != []
  {
    && (forall row | row in rows :: Keyed(column, row))
    && Nameable(Apply(NameIn(column), rows)) && !FirstsAgree(rows, others, column)
  }

  lemma ColumnIgnoresOrder(rows: seq<Row>, others: seq<Row>, column: string)
    requires multiset(rows) == multiset(others) && rows != [] && others != []
    ensures RuleFor(rows, column) == RuleFor(others, column) <==> !OrderShows(rows, others, column)
  {
    hide RuleOf, Nameable;
    SameElements(rows, others);
    var names, names' := Apply(NameIn(column), rows), Apply(NameIn(column), others);
    ApplyPermutation(NameIn(column), rows, others);
    OrderMattersExactlyWhen(names, names');
  }

  lemma {:induction false} FirstNamingIgnoresOrder(rows: seq<Row>, others: seq<Row>, columns: seq<string>)
    requires forall column | column in columns :: RuleFor(rows, column) == RuleFor(others, column)
    ensures FirstNaming(rows, columns) == FirstNaming(others, columns)
  {
    hide RuleFor;
    if columns != [] { FirstNamingIgnoresOrder(rows, others, columns[1..]); }
  }

  /**
   What is inferred, and the rule found for each column, changes with the listing exactly when it
   shows in some column.
   */
  lemma InferenceIgnoresOrder(table: string, rows: seq<Row>, others: seq<Row>, columns: seq<string>)
    requires multiset(rows) == multiset(others) && rows != [] && others != []
    ensures Infer(table, rows, columns) == Infer(table, others, columns) <==>
      forall column | column in columns :: !OrderShows(rows, others, column)
  {
    hide RuleFor, Singular, StemColumn, OrderShows, CanonicalInteger;
    SameElements(rows, others);
    assert Used(rows) == Used(others);
    forall column ensures RuleFor(rows, column) == RuleFor(others, column) <==> !OrderShows(rows, others, column) {
      ColumnIgnoresOrder(rows, others, column);
    }
    if forall column | column in columns :: !OrderShows(rows, others, column) {
      FirstNamingIgnoresOrder(rows, others, columns);
      ChosenNames(table, rows, columns);
      assert Apply(Judged(rows), columns) == Apply(Judged(others), columns);
    }
    if Infer(table, rows, columns) == Infer(table, others, columns) {
      forall column | column in columns ensures RuleFor(rows, column) == RuleFor(others, column) {
        var i :| 0 <= i < |columns| && columns[i] == column;
        assert Apply(Judged(rows), columns)[i] == Apply(Judged(others), columns)[i];
      }
    }
  }

  // ----- integer stems -------------------------------------------------------------------------------------------

  /** Digits without a leading zero are how their number is written. */
  lemma {:induction false} DigitsWriteBack(digits: string)
    requires Digits(digits) && (digits[0] == '0' ==> digits == "0")
    ensures NatText(DecimalValue(digits)) == digits
    ensures digits[0] != '0' ==> DecimalValue(digits) > 0
  {
    var front, last := digits[..|digits| - 1], digits[|digits| - 1];
    assert Digit(last) && digits == front + [last];
    if front == "" {
      assert DecimalValue(front) == 0;
    } else {
      assert forall i | 0 <= i < |front| :: front[i] == digits[i];
      DigitsWriteBack(front);
      assert DecimalValue(digits) / 10 == DecimalValue(front);
    }
  }

  /**
   A stem is an integer's own text when it has no sign but a minus, no leading zero, is not minus
   zero, and fits 64 bits.
   */
  lemma CanonicalExactly(stem: string)
    ensures CanonicalInteger(stem) <==>
      && ParsesAsI64(stem) && stem[0] != '+' && stem != "-0"
      && var digits := if stem[0] == '-' then stem[1..] else stem;
        digits[0] == '0' ==> digits == "0"
  {
    hide NatText;
    if ParsesAsI64(stem) {
      var digits := if stem[0] in "+-" then stem[1..] else stem;
      if digits[0] == '0' ==> digits == "0" { DigitsWriteBack(digits); }
      var n := ReadI64(stem).value;
      assert stem[0] == '-' ==> stem == ['-'] + digits;
      assert n < 0 ==> IntText(n)[1..] == NatText(-n);
      assert digits == "0" ==> DecimalValue(digits) == 0 by { assert "0"[..0] == ""; }
    }
  }
}
