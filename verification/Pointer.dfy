/** JSON Pointers as text: RFC 6901 section 4 escaping, and splitting a pointer from its last token. */
module Pointer {

  /** Every occurrence of one character, replaced. */
  function ReplaceChar(s: string, c: char, with: string): string {
    if s == "" then ""
    else (if s[0] == c then with else [s[0]]) + ReplaceChar(s[1..], c, with)
  }

  /** Every occurrence of two characters in a row, replaced from the left. */
  function ReplacePair(s: string, a: char, b: char, with: char): string {
    if |s| >= 2 && s[0] == a && s[1] == b then [with] + ReplacePair(s[2..], a, b, with)
    else if s == "" then ""
    else [s[0]] + ReplacePair(s[1..], a, b, with)
  }

  function Escape(token: string): string {
    ReplaceChar(ReplaceChar(token, '~', "~0"), '/', "~1")
  }

  function Unescape(token: string): string {
    ReplacePair(ReplacePair(token, '~', '1', '/'), '~', '0', '~')
  }

  /** The pointer of a member of what `pointer` names. */
  function Child(pointer: string, name: string): string {
    pointer + "/" + Escape(name)
  }

  function LastSlash(pointer: string): (at: int)
    ensures -1 <= at < |pointer|
    ensures at >= 0 ==> pointer[at] == '/'
    ensures forall i | at < i < |pointer| :: pointer[i] != '/'
  {
    if pointer == "" then -1
    else if pointer[|pointer| - 1] == '/' then |pointer| - 1
    else LastSlash(pointer[..|pointer| - 1])
  }

  /** A pointer's parent and last token, decoded. */
  function Split(pointer: string): (string, string) {
    var at := LastSlash(pointer);
    if at < 0 then ("", Unescape(pointer)) else (pointer[..at], Unescape(pointer[at + 1..]))
  }

  function Text(path: seq<string>): string {
    if path == [] then "" else Child(Text(path[..|path| - 1]), path[|path| - 1])
  }

  // ----- escaping loses nothing -----------------------------------------------------------

  lemma {:induction false} TildesComeBack(t: string)
    ensures ReplacePair(ReplaceChar(t, '~', "~0"), '~', '0', '~') == t
  {
    if t != "" {
      TildesComeBack(t[1..]);
      var rest := ReplaceChar(t[1..], '~', "~0");
      var all := ReplaceChar(t, '~', "~0");
      if t[0] == '~' {
        assert all[2..] == rest;
      } else {
        assert all[1..] == rest;
      }
      assert t == [t[0]] + t[1..];
    }
  }

  /** No tilde is followed by a `1`. */
  predicate TildesAreMarked(u: string) {
    forall i | 0 <= i < |u| - 1 && u[i] == '~' :: u[i + 1] != '1'
  }

  lemma {:induction false} SlashesComeBack(u: string)
    requires TildesAreMarked(u)
    ensures ReplacePair(ReplaceChar(u, '/', "~1"), '~', '1', '/') == u
  {
    if u != "" {
      var rest := u[1..];
      assert TildesAreMarked(rest) by {
        forall i | 0 <= i < |rest| - 1 && rest[i] == '~' ensures rest[i + 1] != '1' {
          assert u[i + 1] == '~' && u[i + 1 + 1] != '1';
        }
      }
      SlashesComeBack(rest);
      var all, tail := ReplaceChar(u, '/', "~1"), ReplaceChar(rest, '/', "~1");
      if u[0] == '/' {
        assert all[2..] == tail;
      } else {
        assert all[1..] == tail;
        if u[0] == '~' && rest != "" {
          assert u[0 + 1] != '1';
          assert tail[0] == if rest[0] == '/' then '~' else rest[0];
        }
      }
      assert u == [u[0]] + rest;
    }
  }

  lemma {:induction false} EscapedTildesAreMarked(t: string)
    ensures TildesAreMarked(ReplaceChar(t, '~', "~0"))
  {
    if t != "" {
      EscapedTildesAreMarked(t[1..]);
      var rest, all := ReplaceChar(t[1..], '~', "~0"), ReplaceChar(t, '~', "~0");
      var k := |all| - |rest|;
      forall i | 0 <= i < |all| - 1 && all[i] == '~' ensures all[i + 1] != '1' {
        if i >= k {
          assert all[i] == rest[i - k] && all[i + 1] == rest[i - k + 1];
        }
      }
    }
  }

  lemma {:induction false} EscapedHasNoSlash(s: string)
    ensures '/' !in ReplaceChar(s, '/', "~1")
  {
    if s != "" { EscapedHasNoSlash(s[1..]); }
  }

  /** A token reads back from its escaped form, and from the end of a pointer. */
  lemma SplitChild(pointer: string, name: string)
    ensures Split(Child(pointer, name)) == (pointer, name)
  {
    var marked := ReplaceChar(name, '~', "~0");
    EscapedTildesAreMarked(name);
    SlashesComeBack(marked);
    TildesComeBack(name);
    EscapedHasNoSlash(marked);
    var all := Child(pointer, name);
    assert all[|pointer|] == '/';
    assert all[|pointer| + 1..] == Escape(name);
    forall i | |pointer| < i < |all| ensures all[i] != '/' {
      assert all[i] == Escape(name)[i - |pointer| - 1];
    }
    assert LastSlash(all) == |pointer|;
    assert all[..|pointer|] == pointer;
  }

  /** A pointer's text names one path only. */
  lemma {:induction false} TextIsInjective(p: seq<string>, q: seq<string>)
    requires Text(p) == Text(q)
    ensures p == q
    decreases |p|
  {
    if p != [] && q != [] {
      var m, n := |p| - 1, |q| - 1;
      SplitChild(Text(p[..m]), p[m]);
      SplitChild(Text(q[..n]), q[n]);
      TextIsInjective(p[..m], q[..n]);
      assert p == p[..m] + [p[m]] && q == q[..n] + [q[n]];
    }
  }
}
