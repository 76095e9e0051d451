/** Where a table's keys come from, inferred from how its files are already named. */
module Identities {
  import opened Json
  import opened Lexical
  import opened Order
  import opened Sequences
  import opened Utf8
  import opened Alphabets
  import opened Percent
  import opened Naming

  /** A file's stem and its body. */
  datatype Row = Row(stem: string, body: map<string, Value>)

  /** A file's stem, beside the key text that is to name it. */
  datatype Name = Name(stem: string, key: string)

  datatype Identity =
    | FileStem(column: string, numeric: bool)
    | Body(columns: seq<string>, rule: Rule)

  datatype Evidence = Evidence(column: string, rule: Option<Rule>)

  datatype Inferred = Inferred(identity: Identity, evidence: seq<Evidence>)

  /** A string as written, or an integer by its lexeme; nothing else names a file. */
  function KeyText(v: Value): Option<string> {
    match v
    case String(text) => Some(text)
    case Number(lexeme) => if HasFractionOrExponent(lexeme) then None else Some(lexeme)
    case _ => None
  }

  // ----- integers as text ----------------------------------------------------------------------------

  function NatText(n: nat): (s: string)
    ensures Digits(s) && DecimalValue(s) == n
    ensures s[0] == '0' ==> s == "0"
  {
    var last := ('0' as int + n % 10) as char;
    if n < 10 then [last]
    else
      var front := NatText(n / 10);
      var s := front + [last];
      assert s[..|s| - 1] == front && Digit(last) && forall i | 0 <= i < |front| :: Digit(s[i]);
      assert n / 10 > 0 ==> front[0] != '0';
      s
  }

  function IntText(n: int): string {
    if n < 0 then ['-'] + NatText(-n) else NatText(n)
  }

  /** The signed 64-bit integer a text reads as: a sign either way, and leading zeros, allowed. */
  function ReadI64(text: string): (n: Option<int>)
    ensures n.Some? ==> MIN_I64 <= n.value <= MAX_I64
  {
    if !ParsesAsI64(text) then None
    else
      var digits := if text[0] in "+-" then text[1..] else text;
      var magnitude: int := DecimalValue(digits);
      Some(if text[0] == '-' then -magnitude else magnitude)
  }

  predicate CanonicalInteger(stem: string) {
    var n := ReadI64(stem);
    n.Some? && IntText(n.value) == stem
  }

  // ----- an alphabet observed --------------------------------------------------------------------------

  /**
   The kind of character one stands for: its whole class if a letter or digit, all beyond ASCII if
   it is beyond it.
   */
  function KindOf(): char -> Range {
    c =>
      if 'a' <= c <= 'z' then Range('a', 'z')
      else if 'A' <= c <= 'Z' then Range('A', 'Z')
      else if '0' <= c <= '9' then Range('0', '9')
      else if c as int >= 0xA0 then Range('\U{A0}', '\U{10FFFF}')
      else Range(c, c)
  }

  function Observed(chars: string): Result<Alphabet> {
    FromRanges(Apply(KindOf(), chars))
  }

  // ----- rules that name every file --------------------------------------------------------------------

  predicate NamesAll(rule: Rule, names: seq<Name>) {
    forall n | n in names :: Render(rule, [n.key]) == Named(n.stem)
  }

  /** A template, unless it could name no file or adds nothing to its inner rule. */
  function MakeTemplate(prefix: string, suffix: string, inner: Rule): Option<Rule> {
    if prefix == "" && suffix == "" then None
    else if '/' in prefix || '\0' in prefix || '/' in suffix || '\0' in suffix then None
    else if inner.Template? then None
    else Some(Template(prefix, suffix, inner))
  }

  /** The rules that can be built at all. */
  predicate Constructible(rule: Rule) {
    rule.Template? ==> MakeTemplate(rule.prefix, rule.suffix, rule.inner) == Some(rule)
  }

  /** What stands between a prefix and a suffix. */
  function Between(prefix: string, suffix: string, stem: string): Option<string> {
    if !(prefix <= stem) then None
    else
      var rest := stem[|prefix|..];
      if |suffix| > |rest| || rest[|rest| - |suffix|..] != suffix then None else Some(rest[..|rest| - |suffix|])
  }

  function StemOf(): Name -> string {
    (n: Name) => n.stem
  }

  function MiddleOf(prefix: string, suffix: string): Name -> string {
    (n: Name) => if Between(prefix, suffix, n.stem).Some? then Between(prefix, suffix, n.stem).value else ""
  }

  /** The template with this prefix and suffix: around the key as it is, or around reldir's encoding of it. */
  function Wrapped(plain: bool, names: seq<Name>, prefix: string, suffix: string): Option<Rule> {
    if !plain then MakeTemplate(prefix, suffix, Reldir)
    else if exists n :: n in names && Between(prefix, suffix, n.stem).None? then None
    else
      var alphabet := Observed(Flat(MiddleOf(prefix, suffix), names));
      if alphabet.Err? then None else MakeTemplate(prefix, suffix, Verbatim(alphabet.value))
  }

  function Needle(plain: bool, key: string): string {
    if plain then key else ReldirEncoded(key, true)
  }

  /** The template around the first file's key where it occurs at `start`, if it names every file. */
  function Around(plain: bool, names: seq<Name>, start: nat): Option<Rule>
    requires names != [] && start <= |names[0].stem|
  {
    var stem, needle := names[0].stem, Needle(plain, names[0].key);
    if !(needle <= stem[start..]) then None
    else
      var rule := Wrapped(plain, names, stem[..start], stem[start + |needle|..]);
      if rule.Some? && NamesAll(rule.value, names) then rule else None
  }

  /** The first template found from below `end` down. */
  function LastBelow(plain: bool, names: seq<Name>, end: nat): Option<Rule>
    requires names != [] && end <= |names[0].stem|
  {
    if end == 0 then None
    else
      var rule := Around(plain, names, end - 1);
      if rule.Some? then rule else LastBelow(plain, names, end - 1)
  }

  function Longest(plain: bool, names: seq<Name>): Option<Rule> {
    if names == [] || Needle(plain, names[0].key) == "" then None else LastBelow(plain, names, |names[0].stem|)
  }

  function TemplateOf(names: seq<Name>): Option<Rule> {
    if Longest(true, names).Some? then Longest(true, names) else Longest(false, names)
  }

  function VerbatimOf(names: seq<Name>): Option<Rule> {
    var alphabet := Observed(Flat(StemOf(), names));
    if alphabet.Ok? && NamesAll(Verbatim(alphabet.value), names) then Some(Verbatim(alphabet.value)) else None
  }

  /** The rule that names every file: the key as it is, then reldir's encoding, then a template around either. */
  function RuleOf(names: seq<Name>): Option<Rule> {
    if VerbatimOf(names).Some? then VerbatimOf(names)
    else if NamesAll(Reldir, names) then Some(Reldir)
    else TemplateOf(names)
  }

  // ----- the identity ----------------------------------------------------------------------------------

  predicate Keyed(column: string, row: Row) {
    column in row.body && KeyText(row.body[column]).Some?
  }

  function NameIn(column: string): Row -> Name {
    (row: Row) => Name(row.stem, if Keyed(column, row) then KeyText(row.body[column]).value else "")
  }

  function RuleFor(rows: seq<Row>, column: string): Option<Rule> {
    if forall row | row in rows :: Keyed(column, row) then RuleOf(Apply(NameIn(column), rows)) else None
  }

  function Judged(rows: seq<Row>): string -> Evidence {
    (column: string) => Evidence(column, RuleFor(rows, column))
  }

  predicate EndsWith(s: string, t: string) {
    |t| <= |s| && s[|s| - |t|..] == t
  }

  function Dropped(s: string, n: nat): string {
    if n <= |s| then s[..|s| - n] else s
  }

  const PLURALS := ["ses", "xes", "zes", "ches", "shes"]

  /** The singular of a plural in `es`, from the `k`th ending on. */
  function SingularFrom(table: string, k: nat): string
    decreases |PLURALS| - k
  {
    if k >= |PLURALS| then
      if |table| > 1 && EndsWith(table, "s") && !EndsWith(table, "ss") then Dropped(table, 1) else table
    else if EndsWith(table, PLURALS[k]) && |table| > |PLURALS[k]| then Dropped(table, 2)
    else SingularFrom(table, k + 1)
  }

  function Singular(table: string): string {
    if |table| > 3 && EndsWith(table, "ies") then Dropped(table, 3) + "y" else SingularFrom(table, 0)
  }

  predicate Names(rows: seq<Row>, columns: seq<string>, column: string) {
    column in columns && RuleFor(rows, column).Some?
  }

  function FirstNaming(rows: seq<Row>, columns: seq<string>): Option<string> {
    if columns == [] then None
    else if RuleFor(rows, columns[0]).Some? then Some(columns[0])
    else FirstNaming(rows, columns[1..])
  }

  /** The column that names the files: `id` first, then `<singular>_id`, then the first in order. */
  function Chosen(table: string, rows: seq<Row>, columns: seq<string>): Option<string> {
    if rows == [] then None
    else if Names(rows, columns, "id") then Some("id")
    else if Names(rows, columns, Singular(table) + "_id") then Some(Singular(table) + "_id")
    else FirstNaming(rows, columns)
  }

  function Used(rows: seq<Row>): set<string> {
    set row, name | row in rows && name in row.body :: name
  }

  function Numbered(n: nat): string {
    "_file_" + NatText(n)
  }

  /** The first numbered name, from `n` on, that is not used. */
  function FirstFree(used: set<string>, n: nat): (name: string)
    decreases |used|
  {
    if Numbered(n) in used then FirstFree(used - {Numbered(n)}, n + 1) else Numbered(n)
  }

  function StemColumn(used: set<string>): string {
    if "id" !in used then "id" else if "_file" !in used then "_file" else FirstFree(used, 2)
  }

  predicate Numeric(rows: seq<Row>) {
    rows != [] && forall row | row in rows :: CanonicalInteger(row.stem)
  }

  function IdentityOf(table: string, rows: seq<Row>, columns: seq<string>): Identity {
    var chosen := Chosen(table, rows, columns);
    if chosen.Some? && RuleFor(rows, chosen.value).Some?
    then Body([chosen.value], RuleFor(rows, chosen.value).value)
    else FileStem(StemColumn(Used(rows)), Numeric(rows))
  }

  function Infer(table: string, rows: seq<Row>, columns: seq<string>): Inferred {
    Inferred(IdentityOf(table, rows, columns), if rows == [] then [] else Apply(Judged(rows), columns))
  }

  // ----- what an identity means -------------------------------------------------------------------------

  /** The stem a file-stem key names: its own text, where a portable file could have that name. */
  function StemName(key: string): Named<string> {
    if key == "" then Refused(Empty)
    else if '/' in key || '\\' in key || '\0' in key then Refused(ContainsSeparator(key))
    else Checked(key)
  }

  /** The key texts of some columns, where all have one. */
  function KeyTexts(columns: seq<string>, body: map<string, Value>): Option<seq<string>> {
    if columns == [] then Some([])
    else
      var first := if columns[0] in body then KeyText(body[columns[0]]) else None;
      var rest := KeyTexts(columns[1..], body);
      if first.None? || rest.None? then None else Some([first.value] + rest.value)
  }

  /** The stem a row's key names, if it has a key. */
  function StemFor(identity: Identity, body: map<string, Value>): Option<Named<string>> {
    match identity
    case FileStem(column, _) =>
      if column in body && KeyText(body[column]).Some? then Some(StemName(KeyText(body[column]).value)) else None
    case Body(columns, rule) =>
      var keys := KeyTexts(columns, body);
      if keys.Some? then Some(Render(rule, keys.value)) else None
  }

  /** The value a file's stem gives the stem column. */
  function StemValue(identity: Identity, stem: string): Option<Value> {
    match identity
    case FileStem(_, true) =>
      var n := ReadI64(stem);
      if n.Some? then Some(Value.Number(IntText(n.value))) else None
    case FileStem(_, false) => Some(String(stem))
    case Body(_, _) => None
  }

  // ----- inferring it -----------------------------------------------------------------------------------

  /** The template around the first file's key, trying the longest prefix first. */
  method FindTemplate(names: seq<Name>) returns (rule: Option<Rule>)
    ensures rule == TemplateOf(names)
  {
    hide ReldirEncoded, NamesAll, Wrapped;
    if names == [] { return None; }
    var stem := names[0].stem;
    var plain := true;
    while true
      invariant !plain ==> Longest(true, names).None?
      decreases plain
    {
      var needle := Needle(plain, names[0].key);
      if needle != "" {
        for start := |stem| downto 0
          invariant LastBelow(plain, names, |stem|) == LastBelow(plain, names, start)
        {
          if needle <= stem[start..] {
            var around := Wrapped(plain, names, stem[..start], stem[start + |needle|..]);
            if around.Some? && NamesAll(around.value, names) { return around; }
          }
        }
      }
      if !plain { return None; }
      plain := false;
    }
  }

  /** The identity a table's files already have, and what each column showed. */
  method InferIdentity(table: string, rows: seq<Row>, columns: seq<string>) returns (inferred: Inferred)
    ensures inferred == Infer(table, rows, columns)
  {
    hide RuleFor, Singular, StemColumn, Numeric, Used;
    var conventional := Singular(table) + "_id";
    var evidence: seq<Evidence> := [];
    var byId, byName, first: Option<string> := None, None, None;
    if rows != [] {
      for i := 0 to |columns|
        invariant evidence == Apply(Judged(rows), columns[..i])
        invariant byId == if Names(rows, columns[..i], "id") then Some("id") else None
        invariant byName == if Names(rows, columns[..i], conventional) then Some(conventional) else None
        invariant FirstNaming(rows, columns) == if first.Some? then first else FirstNaming(rows, columns[i..])
      {
        var column := columns[i];
        var rule := RuleFor(rows, column);
        assert columns[..i + 1] == columns[..i] + [column];
        assert columns[i..][0] == column && columns[i..][1..] == columns[i + 1..];
        if rule.Some? {
          if column == "id" { byId := Some(column); }
          if column == conventional { byName := Some(column); }
          if first.None? { first := Some(column); }
        }
        evidence := evidence + [Evidence(column, rule)];
      }
      assert columns[..|columns|] == columns;
    }
    var chosen := if byId.Some? then byId else if byName.Some? then byName else first;
    ChosenNames(table, rows, columns);
    assert chosen == Chosen(table, rows, columns);
    if chosen.Some? {
      return Inferred(Body([chosen.value], RuleFor(rows, chosen.value).value), evidence);
    }
    inferred := Inferred(FileStem(StemColumn(Used(rows)), Numeric(rows)), evidence);
  }

  lemma {:induction false} FirstNames(rows: seq<Row>, columns: seq<string>)
    ensures FirstNaming(rows, columns).Some? ==> Names(rows, columns, FirstNaming(rows, columns).value)
    ensures FirstNaming(rows, columns).None? ==> forall c | c in columns :: RuleFor(rows, c).None?
  {
    hide RuleFor;
    if columns != [] {
      FirstNames(rows, columns[1..]);
    }
  }

  /** A column is chosen exactly when one names every file. */
  lemma ChosenNames(table: string, rows: seq<Row>, columns: seq<string>)
    ensures Chosen(table, rows, columns).Some? <==> rows != [] && exists c :: Names(rows, columns, c)
    ensures Chosen(table, rows, columns).Some? ==> Names(rows, columns, Chosen(table, rows, columns).value)
  {
    hide RuleFor, Singular;
    FirstNames(rows, columns);
  }

  // ----- a name no body uses ------------------------------------------------------------------------------

  lemma NumberedApart(m: nat, n: nat)
    requires m != n
    ensures Numbered(m) != Numbered(n)
  {
    assert Numbered(m)[6..] == NatText(m) && Numbered(n)[6..] == NatText(n);
  }

  /** The search ends, at the first numbered name that is free. */
  lemma {:induction false} FirstFreeIs(used: set<string>, n: nat) returns (m: nat)
    ensures m >= n && FirstFree(used, n) == Numbered(m) && Numbered(m) !in used
    ensures forall k | n <= k < m :: Numbered(k) in used
    decreases |used|
  {
    hide Numbered;
    if Numbered(n) in used {
      m := FirstFreeIs(used - {Numbered(n)}, n + 1);
      NumberedApart(m, n);
    } else {
      m := n;
    }
  }

  lemma StemColumnIsFree(used: set<string>)
    ensures StemColumn(used) !in used
  {
    var m := FirstFreeIs(used, 2);
  }
}
