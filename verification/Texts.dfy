/** Texts joined by commas, and split at them. */
module Texts {

  function Joined(parts: seq<string>): string {
    if parts == [] then "" else if |parts| == 1 then parts[0] else parts[0] + [','] + Joined(parts[1..])
  }

  /** Where the first comma stands, or past the end. */
  function CommaAt(s: string): (i: nat)
    ensures i <= |s|
    ensures i < |s| ==> s[i] == ','
    ensures forall j | 0 <= j < i :: s[j] != ','
  {
    if s == "" || s[0] == ',' then 0 else 1 + CommaAt(s[1..])
  }

  /** The parts between commas: one more than there are commas. */
  function Split(s: string): (parts: seq<string>)
    ensures parts != []
    decreases |s|
  {
    var i := CommaAt(s);
    if i == |s| then [s] else [s[..i]] + Split(s[i + 1..])
  }

  /** Parts without commas come apart as they were joined. */
  lemma {:induction false} JoinedSplits(parts: seq<string>)
    requires parts != [] && forall p | p in parts :: ',' !in p
    ensures Split(Joined(parts)) == parts
  {
    var first, s := parts[0], Joined(parts);
    assert first in parts;
    if |parts| == 1 {
      assert CommaAt(s) == |s|;
    } else {
      JoinedSplits(parts[1..]);
      assert s[|first|] == ',';
      assert forall j | 0 <= j < |first| :: s[j] == first[j] && first[j] in first;
      assert CommaAt(s) == |first|;
      assert s[..|first|] == first && s[|first| + 1..] == Joined(parts[1..]);
      assert parts == [first] + parts[1..];
    }
  }
}
