/** Findings, their one order, and patching an old verdict into a new one. */
module Verdicts {
  import opened Json
  import opened Sequences
  import opened Order

  /** What a diagnostic says. `record` is all of it as serialized, what two findings are told apart by. */
  datatype Finding = Finding(
    path: Option<string>,
    at: Option<(nat, nat)>,
    code: string,
    pointer: Option<string>,
    message: string,
    table: Option<string>,
    record: string)

  datatype Verdict = Verdict(errors: seq<Finding>, warnings: seq<Finding>)

  // ----- the one order ---------------------------------------------------------------------

  function ComparePlaces(a: (nat, nat), b: (nat, nat)): Ordering {
    CompareInts(a.0, b.0).Then(CompareInts(a.1, b.1))
  }

  /** By file, then position, code, pointer and message; then by everything else a finding says. */
  function CompareFindings(a: Finding, b: Finding): Ordering {
    CompareOptional(CompareStrings, a.path, b.path)
      .Then(CompareOptional(ComparePlaces, a.at, b.at))
      .Then(CompareStrings(a.code, b.code))
      .Then(CompareOptional(CompareStrings, a.pointer, b.pointer))
      .Then(CompareStrings(a.message, b.message))
      .Then(CompareOptional(CompareStrings, a.table, b.table))
      .Then(CompareStrings(a.record, b.record))
  }

  lemma PlacesAreTotal()
    ensures Total(ComparePlaces)
  {
  }

  /** How three comparisons of one column bear on each other. */
  ghost predicate Chains(ab: Ordering, bc: Ordering, ac: Ordering) {
    && (ab == Less && bc == Less ==> ac == Less)
    && (ab == Equal ==> ac == bc)
    && (bc == Equal ==> ac == ab)
  }

  lemma TotalChains<T(!new)>(compare: (T, T) -> Ordering, a: T, b: T, c: T)
    requires Total(compare)
    ensures Chains(compare(a, b), compare(b, c), compare(a, c))
  {
  }

  lemma OptionalChains<T(!new)>(compare: (T, T) -> Ordering, a: Option<T>, b: Option<T>, c: Option<T>)
    requires Total(compare)
    ensures Chains(CompareOptional(compare, a, b), CompareOptional(compare, b, c), CompareOptional(compare, a, c))
  {
  }

  lemma ThenChains(ab: Ordering, bc: Ordering, ac: Ordering, ab': Ordering, bc': Ordering, ac': Ordering)
    requires Chains(ab, bc, ac) && Chains(ab', bc', ac')
    ensures Chains(ab.Then(ab'), bc.Then(bc'), ac.Then(ac'))
  {
  }

  lemma FindingsChain(a: Finding, b: Finding, c: Finding)
    ensures Chains(CompareFindings(a, b), CompareFindings(b, c), CompareFindings(a, c))
  {
    hide Total, CompareStrings, ComparePlaces, CompareOptional, Chains, Ordering.Then;
    StringsAreTotal();
    PlacesAreTotal();
    var path := (x: Finding, y: Finding) => CompareOptional(CompareStrings, x.path, y.path);
    var at := (x: Finding, y: Finding) => CompareOptional(ComparePlaces, x.at, y.at);
    var code := (x: Finding, y: Finding) => CompareStrings(x.code, y.code);
    var pointer := (x: Finding, y: Finding) => CompareOptional(CompareStrings, x.pointer, y.pointer);
    var message := (x: Finding, y: Finding) => CompareStrings(x.message, y.message);
    var table := (x: Finding, y: Finding) => CompareOptional(CompareStrings, x.table, y.table);
    OptionalChains(CompareStrings, a.path, b.path, c.path);
    OptionalChains(ComparePlaces, a.at, b.at, c.at);
    TotalChains(CompareStrings, a.code, b.code, c.code);
    OptionalChains(CompareStrings, a.pointer, b.pointer, c.pointer);
    TotalChains(CompareStrings, a.message, b.message, c.message);
    OptionalChains(CompareStrings, a.table, b.table, c.table);
    TotalChains(CompareStrings, a.record, b.record, c.record);
    var ab, bc, ac := path(a, b), path(b, c), path(a, c);
    ThenChains(ab, bc, ac, at(a, b), at(b, c), at(a, c));
    ab, bc, ac := ab.Then(at(a, b)), bc.Then(at(b, c)), ac.Then(at(a, c));
    ThenChains(ab, bc, ac, code(a, b), code(b, c), code(a, c));
    ab, bc, ac := ab.Then(code(a, b)), bc.Then(code(b, c)), ac.Then(code(a, c));
    ThenChains(ab, bc, ac, pointer(a, b), pointer(b, c), pointer(a, c));
    ab, bc, ac := ab.Then(pointer(a, b)), bc.Then(pointer(b, c)), ac.Then(pointer(a, c));
    ThenChains(ab, bc, ac, message(a, b), message(b, c), message(a, c));
    ab, bc, ac := ab.Then(message(a, b)), bc.Then(message(b, c)), ac.Then(message(a, c));
    ThenChains(ab, bc, ac, table(a, b), table(b, c), table(a, c));
    ab, bc, ac := ab.Then(table(a, b)), bc.Then(table(b, c)), ac.Then(table(a, c));
    ThenChains(ab, bc, ac, CompareStrings(a.record, b.record), CompareStrings(b.record, c.record),
      CompareStrings(a.record, c.record));
  }

  lemma FindingsTie(a: Finding, b: Finding)
    ensures CompareFindings(a, b) == Equal <==> a == b
    ensures CompareFindings(a, b) == CompareFindings(b, a).Reverse()
  {
    hide Total, CompareStrings;
    StringsAreTotal();
    StringsCompare();
  }

  lemma StringsCompare()
    ensures forall a: string, b: string :: CompareStrings(a, b) == Equal <==> a == b
    ensures forall a: string, b: string :: CompareStrings(a, b) == CompareStrings(b, a).Reverse()
  {
    StringsAreTotal();
  }

  /** The order leaves no two findings tied, so a verdict's order does not depend on how it was found. */
  lemma FindingsAreTotal()
    ensures Total(CompareFindings)
  {
    forall a: Finding, b: Finding
      ensures CompareFindings(a, b) == Equal <==> a == b
      ensures CompareFindings(a, b) == CompareFindings(b, a).Reverse()
    {
      FindingsTie(a, b);
    }
    forall a: Finding, b: Finding, c: Finding | CompareFindings(a, b) == Less && CompareFindings(b, c) == Less
      ensures CompareFindings(a, c) == Less
    {
      FindingsChain(a, b, c);
    }
  }

  // ----- verdicts ------------------------------------------------------------------------------

  function Canonical(v: Verdict): Verdict {
    Verdict(Sort(CompareFindings, v.errors), Sort(CompareFindings, v.warnings))
  }

  /** The same findings, however arranged. */
  ghost predicate SameFindings(a: Verdict, b: Verdict) {
    multiset(a.errors) == multiset(b.errors) && multiset(a.warnings) == multiset(b.warnings)
  }

  /** One canonical verdict for the same findings, and only for them. */
  lemma CanonicalIsOne(a: Verdict, b: Verdict)
    ensures Canonical(a) == Canonical(b) <==> SameFindings(a, b)
  {
    FindingsAreTotal();
    SortKeepsAll(CompareFindings, a.errors);
    SortKeepsAll(CompareFindings, b.errors);
    SortKeepsAll(CompareFindings, a.warnings);
    SortKeepsAll(CompareFindings, b.warnings);
    hide Sort, Total;
    if SameFindings(a, b) {
      SortIgnoresOrder(CompareFindings, a.errors, b.errors);
      SortIgnoresOrder(CompareFindings, a.warnings, b.warnings);
    }
  }

  // ----- revalidating ------------------------------------------------------------------------------

  function IndexOf(held: seq<Finding>, gone: Finding): (i: nat)
    ensures i <= |held|
    ensures i < |held| ==> held[i] == gone
    ensures i == |held| <==> gone !in held
  {
    if held == [] || held[0] == gone then 0 else 1 + IndexOf(held[1..], gone)
  }

  /** The last element takes the place of the one removed. */
  function SwapRemoved(held: seq<Finding>, i: nat): seq<Finding>
    requires i < |held|
  {
    held[i := held[|held| - 1]][..|held| - 1]
  }

  lemma SwapRemoveLosesOne(held: seq<Finding>, i: nat)
    requires i < |held|
    ensures multiset(SwapRemoved(held, i)) == multiset(held) - multiset{held[i]}
  {
    var last := held[|held| - 1];
    var swapped := held[i := last];
    assert swapped == swapped[..|held| - 1] + [last];
    assert held == held[..|held| - 1] + [last];
    assert multiset(swapped) == multiset(held) - multiset{held[i]} + multiset{last};
    CancelOne(multiset(SwapRemoved(held, i)), multiset(held) - multiset{held[i]}, last);
  }

  lemma OneGone(previous: seq<Finding>, before: seq<Finding>, k: nat, held: seq<Finding>, at: nat)
    requires k < |before| && at < |held| && held[at] == before[k]
    requires multiset(before[..k]) <= multiset(previous)
    requires multiset(held) == multiset(previous) - multiset(before[..k])
    ensures multiset(before[..k + 1]) <= multiset(previous)
    ensures multiset(SwapRemoved(held, at)) == multiset(previous) - multiset(before[..k + 1])
  {
    assert before[..k + 1] == before[..k] + [before[k]];
    SwapRemoveLosesOne(held, at);
    hide SwapRemoved;
    assert held[at] in multiset(held);
  }

  lemma NotHeld(previous: seq<Finding>, before: seq<Finding>, k: nat, held: seq<Finding>)
    requires k < |before| && before[k] !in held
    requires multiset(before[..k]) <= multiset(previous)
    requires multiset(held) == multiset(previous) - multiset(before[..k])
    ensures !(multiset(before) <= multiset(previous))
  {
    var gone := before[k];
    assert before == before[..k] + [gone] + before[k + 1..];
    assert multiset(held)[gone] == 0;
    assert multiset(before)[gone] > multiset(previous)[gone];
  }

  /**
   What is held, less what was found before, and what is found now: nothing, if something found
   before is not held.
   */
  method Rebuild(previous: seq<Finding>, before: seq<Finding>, after: seq<Finding>) returns (out: Option<seq<Finding>>)
    ensures out.Some? <==> multiset(before) <= multiset(previous)
    ensures out.Some? ==> multiset(out.value) == multiset(previous) - multiset(before) + multiset(after)
  {
    var held := previous;
    for k := 0 to |before|
      invariant multiset(before[..k]) <= multiset(previous)
      invariant multiset(held) == multiset(previous) - multiset(before[..k])
    {
      var at := IndexOf(held, before[k]);
      if at == |held| {
        NotHeld(previous, before, k, held);
        return None;
      }
      OneGone(previous, before, k, held, at);
      held := SwapRemoved(held, at);
    }
    assert before[..|before|] == before;
    out := Some(held + after);
  }

  /** The new verdict from the old: one order, whichever way it was patched. */
  method Revalidate(previous: Verdict, before: Verdict, after: Verdict) returns (verdict: Option<Verdict>)
    ensures verdict.Some? <==>
      multiset(before.errors) <= multiset(previous.errors) && multiset(before.warnings) <= multiset(previous.warnings)
    ensures forall whole: Verdict | verdict.Some?
      && multiset(whole.errors) == multiset(previous.errors) - multiset(before.errors) + multiset(after.errors)
      && multiset(whole.warnings) == multiset(previous.warnings) - multiset(before.warnings) + multiset(after.warnings)
      :: verdict.value == Canonical(whole)
  {
    var errors := Rebuild(previous.errors, before.errors, after.errors);
    if errors.None? { return None; }
    var warnings := Rebuild(previous.warnings, before.warnings, after.warnings);
    if warnings.None? { return None; }
    var patched := Verdict(errors.value, warnings.value);
    verdict := Some(Canonical(patched));
    forall whole: Verdict | SameFindings(patched, whole) ensures Canonical(patched) == Canonical(whole) {
      CanonicalIsOne(patched, whole);
    }
  }
}
