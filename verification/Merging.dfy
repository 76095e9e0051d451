/**
 Three-way merge of JSON values, member by member: what it makes of two sides,
 where they conflict, and why it does not matter which side is called ours.
 */
module Merging {
  import opened Json

  /** The decoded tokens of a JSON Pointer. */
  type Path = seq<string>

  function Get(v: Option<Value>, name: string): Option<Value> {
    if v.Some? && v.value.Object? && name in v.value.members then Some(v.value.members[name]) else None
  }

  function At(v: Option<Value>, p: Path): Option<Value>
    decreases p
  {
    if p == [] then v else At(Get(v, p[0]), p[1..])
  }

  /** The value to recur into, if there is one. */
  function Core(v: Option<Value>): Value {
    if v.Some? then v.value else Null
  }

  predicate BothObjects(ours: Option<Value>, theirs: Option<Value>) {
    ours.Some? && theirs.Some? && ours.value.Object? && theirs.value.Object?
  }

  /** Both sides changed the value, and not alike. */
  predicate Forked(base: Option<Value>, ours: Option<Value>, theirs: Option<Value>) {
    ours != theirs && base != ours && base != theirs
  }

  /** What merges without looking inside: the side that changed; or, of a fork, the one named. */
  function Outright(base: Option<Value>, ours: Option<Value>, theirs: Option<Value>, takeTheirs: bool): Option<Value> {
    if ours == theirs then ours
    else if base == ours then theirs
    else if base == theirs then ours
    else if takeTheirs then theirs else ours
  }

  ghost function Tails(paths: iset<Path>, name: string): iset<Path> {
    iset q | [name] + q in paths
  }

  /** The merge, with the conflicts at `theirWay` resolved as theirs and every other as ours. */
  ghost function Merged(
    base: Option<Value>, ours: Option<Value>, theirs: Option<Value>, theirWay: iset<Path>): Option<Value>
    decreases Core(ours), 1
  {
    if !Forked(base, ours, theirs) || !BothObjects(ours, theirs)
    then Outright(base, ours, theirs, [] in theirWay)
    else
      var names := ours.value.members.Keys + theirs.value.members.Keys;
      Some(Object(map name | name in names && Member(base, ours, theirs, theirWay, name).Some?
        :: Member(base, ours, theirs, theirWay, name).value))
  }

  /** The merge of one member. */
  ghost function Member(
    base: Option<Value>, ours: Option<Value>, theirs: Option<Value>, theirWay: iset<Path>, name: string): Option<Value>
    decreases Core(ours), 0
  {
    if Get(ours, name).Some? && Get(theirs, name).Some?
    then Merged(Get(base, name), Get(ours, name), Get(theirs, name), Tails(theirWay, name))
    else Outright(Get(base, name), Get(ours, name), Get(theirs, name), [name] in theirWay)
  }

  lemma MergedMember(
    base: Option<Value>, ours: Option<Value>, theirs: Option<Value>, theirWay: iset<Path>, name: string)
    requires Forked(base, ours, theirs) && BothObjects(ours, theirs)
    ensures Get(Merged(base, ours, theirs, theirWay), name) == Member(base, ours, theirs, theirWay, name)
  {
  }

  /** Values holding the same members are the same object. */
  lemma SameMembers(a: Value, b: Value)
    requires a.Object? && b.Object?
    requires forall name :: Get(Some(a), name) == Get(Some(b), name)
    ensures a == b
  {
    forall name ensures name in a.members <==> name in b.members {
      assert Get(Some(a), name) == Get(Some(b), name);
    }
    forall name | name in a.members ensures a.members[name] == b.members[name] {
      assert Get(Some(a), name) == Get(Some(b), name);
    }
    assert a.members == b.members;
  }

  /** Whether the sides conflict at a path. */
  ghost predicate Conflicting(p: Path, base: Option<Value>, ours: Option<Value>, theirs: Option<Value>) {
    Forked(base, ours, theirs) &&
    if BothObjects(ours, theirs)
    then p != [] && Conflicting(p[1..], Get(base, p[0]), Get(ours, p[0]), Get(theirs, p[0]))
    else p == []
  }

  ghost predicate Clean(base: Option<Value>, ours: Option<Value>, theirs: Option<Value>) {
    forall p :: !Conflicting(p, base, ours, theirs)
  }

  // ----- symmetry --------------------------------------------------------------------------

  lemma {:induction false} ConflictsAreSymmetric(
    p: Path, base: Option<Value>, ours: Option<Value>, theirs: Option<Value>)
    ensures Conflicting(p, base, ours, theirs) <==> Conflicting(p, base, theirs, ours)
  {
    if p != [] { ConflictsAreSymmetric(p[1..], Get(base, p[0]), Get(ours, p[0]), Get(theirs, p[0])); }
  }

  ghost predicate Complements(s: iset<Path>, t: iset<Path>) {
    forall p :: p in s <==> p !in t
  }

  /** Exchanging the sides and the choices changes nothing. */
  lemma {:induction false} MergeIsSymmetric(
    base: Option<Value>, ours: Option<Value>, theirs: Option<Value>, s: iset<Path>, t: iset<Path>)
    requires Complements(s, t)
    ensures Merged(base, ours, theirs, s) == Merged(base, theirs, ours, t)
    decreases Core(ours)
  {
    if Forked(base, ours, theirs) && BothObjects(ours, theirs) {
      forall name ensures Member(base, ours, theirs, s, name) == Member(base, theirs, ours, t, name) {
        if Get(ours, name).Some? && Get(theirs, name).Some? {
          MergeIsSymmetric(Get(base, name), Get(ours, name), Get(theirs, name), Tails(s, name), Tails(t, name));
        }
      }
      var left, right := Merged(base, ours, theirs, s), Merged(base, theirs, ours, t);
      forall name ensures Get(left, name) == Get(right, name) {
        MergedMember(base, ours, theirs, s, name);
        MergedMember(base, theirs, ours, t, name);
      }
      SameMembers(left.value, right.value);
    }
  }

  /** A choice made where the sides do not conflict makes no difference. */
  lemma {:induction false} OnlyConflictsMatter(
    base: Option<Value>, ours: Option<Value>, theirs: Option<Value>, s: iset<Path>, t: iset<Path>)
    requires forall p | Conflicting(p, base, ours, theirs) :: p in s <==> p in t
    ensures Merged(base, ours, theirs, s) == Merged(base, ours, theirs, t)
    decreases Core(ours)
  {
    if Forked(base, ours, theirs) && BothObjects(ours, theirs) {
      forall name ensures Member(base, ours, theirs, s, name) == Member(base, ours, theirs, t, name) {
        var b, o, h := Get(base, name), Get(ours, name), Get(theirs, name);
        forall q | Conflicting(q, b, o, h) ensures q in Tails(s, name) <==> q in Tails(t, name) {
          assert ([name] + q)[1..] == q;
          assert Conflicting([name] + q, base, ours, theirs);
        }
        if o.Some? && h.Some? {
          OnlyConflictsMatter(b, o, h, Tails(s, name), Tails(t, name));
        } else if Forked(b, o, h) {
          assert Conflicting([], b, o, h);
          assert [name] + [] == [name];
        }
      }
      var left, right := Merged(base, ours, theirs, s), Merged(base, ours, theirs, t);
      forall name ensures Get(left, name) == Get(right, name) {
        MergedMember(base, ours, theirs, s, name);
        MergedMember(base, ours, theirs, t, name);
      }
      SameMembers(left.value, right.value);
    } else if Forked(base, ours, theirs) {
      assert Conflicting([], base, ours, theirs);
    }
  }

  ghost predicate Anywhere(p: Path) { true }

  ghost function Everywhere(): iset<Path> { iset p | Anywhere(p) }

  /** All conflicts their way is the merge with the sides exchanged; so a clean merge commutes. */
  lemma TheirWayIsOursExchanged(base: Option<Value>, ours: Option<Value>, theirs: Option<Value>)
    ensures Merged(base, ours, theirs, Everywhere()) == Merged(base, theirs, ours, iset{})
    ensures Clean(base, ours, theirs) ==> Merged(base, ours, theirs, iset{}) == Merged(base, theirs, ours, iset{})
  {
    MergeIsSymmetric(base, ours, theirs, Everywhere(), iset{});
    if Clean(base, ours, theirs) {
      OnlyConflictsMatter(base, ours, theirs, Everywhere(), iset{});
    }
  }

  // ----- conflicts are apart ---------------------------------------------------------------------

  /** No conflict lies inside another. */
  lemma {:induction false} ConflictsAreApart(
    p: Path, q: Path, base: Option<Value>, ours: Option<Value>, theirs: Option<Value>)
    requires Conflicting(p, base, ours, theirs) && Conflicting(q, base, ours, theirs)
    requires p <= q
    ensures p == q
  {
    if p != [] {
      assert p[0] == q[0] && p[1..] <= q[1..];
      ConflictsAreApart(p[1..], q[1..], Get(base, p[0]), Get(ours, p[0]), Get(theirs, p[0]));
      assert p == [p[0]] + p[1..] && q == [q[0]] + q[1..];
    }
  }

  /** A conflict is between values that differ, on a path both sides reach as objects. */
  lemma {:induction false} ConflictsAreForks(p: Path, base: Option<Value>, ours: Option<Value>, theirs: Option<Value>)
    requires Conflicting(p, base, ours, theirs)
    ensures Forked(At(base, p), At(ours, p), At(theirs, p)) && !BothObjects(At(ours, p), At(theirs, p))
    ensures forall n | 0 <= n < |p| :: BothObjects(At(ours, p[..n]), At(theirs, p[..n]))
  {
    if p != [] {
      ConflictsAreForks(p[1..], Get(base, p[0]), Get(ours, p[0]), Get(theirs, p[0]));
      forall n | 0 <= n < |p| ensures BothObjects(At(ours, p[..n]), At(theirs, p[..n])) {
        if n > 0 {
          assert p[..n][0] == p[0] && p[..n][1..] == p[1..][..n - 1];
        }
      }
    }
  }

  // ----- resolving conflicts one by one ------------------------------------------------------------

  /** Put a value at a path, or take the member away; a path that does not lead into objects changes nothing. */
  function SetAt(root: Value, p: Path, v: Option<Value>): Value {
    if p == [] then (if v.Some? then v.value else root)
    else if !root.Object? then root
    else if |p| == 1 then
      Object(if v.Some? then root.members[p[0] := v.value] else root.members - {p[0]})
    else if p[0] in root.members then
      Object(root.members[p[0] := SetAt(root.members[p[0]], p[1..], v)])
    else root
  }

  /** Putting theirs at one more conflict is resolving one more conflict their way. */
  lemma {:induction false} SetResolvesOne(
    p: Path, base: Option<Value>, ours: Option<Value>, theirs: Option<Value>, done: iset<Path>)
    requires ours.Some? && theirs.Some? && Conflicting(p, base, ours, theirs)
    ensures Merged(base, ours, theirs, done).Some?
    ensures Merged(base, ours, theirs, done + iset{p})
         == Some(SetAt(Merged(base, ours, theirs, done).value, p, At(theirs, p)))
    decreases p
  {
    if p != [] {
      var after := done + iset{p};
      var before, now := Merged(base, ours, theirs, done), Merged(base, ours, theirs, after);
      var b, o, h := Get(base, p[0]), Get(ours, p[0]), Get(theirs, p[0]);
      MergedMember(base, ours, theirs, done, p[0]);
      MergedMember(base, ours, theirs, after, p[0]);
      if |p| == 1 {
        assert p == [p[0]] && p[1..] == [];
        assert At(theirs, p) == At(h, []) == h;
        ForkedMember(base, ours, theirs, after, p[0]);
      } else {
        ConflictsAreForks(p[1..], b, o, h);
        assert BothObjects(At(o, p[1..][..0]), At(h, p[1..][..0]));
        SetResolvesOne(p[1..], b, o, h, Tails(done, p[0]));
        TailsGainOne(done, p);
      }
      forall name ensures Get(now, name) == Get(Some(SetAt(before.value, p, At(theirs, p))), name) {
        if name != p[0] {
          OtherMembersStand(base, ours, theirs, done, p, name);
          MergedMember(base, ours, theirs, done, name);
          MergedMember(base, ours, theirs, after, name);
        }
      }
      SameMembers(now.value, SetAt(before.value, p, At(theirs, p)));
    }
  }

  lemma TailsGainOne(done: iset<Path>, p: Path)
    requires p != []
    ensures Tails(done + iset{p}, p[0]) == Tails(done, p[0]) + iset{p[1..]}
    ensures forall name | name != p[0] :: Tails(done + iset{p}, name) == Tails(done, name)
  {
    forall q ensures q in Tails(done + iset{p}, p[0]) <==> q in Tails(done, p[0]) + iset{p[1..]} {
      assert ([p[0]] + q == p) <==> q == p[1..] by {
        assert ([p[0]] + q)[1..] == q;
        assert p == [p[0]] + p[1..];
      }
    }
    forall name | name != p[0] ensures Tails(done + iset{p}, name) == Tails(done, name) {
      forall q ensures [name] + q != p {
        assert ([name] + q)[0] == name;
      }
    }
  }

  lemma OtherMembersStand(
    base: Option<Value>, ours: Option<Value>, theirs: Option<Value>, done: iset<Path>, p: Path, name: string)
    requires p != [] && name != p[0]
    ensures Member(base, ours, theirs, done + iset{p}, name) == Member(base, ours, theirs, done, name)
  {
    TailsGainOne(done, p);
    assert [name][0] != p[0];
  }

  lemma ForkedMember(
    base: Option<Value>, ours: Option<Value>, theirs: Option<Value>, theirWay: iset<Path>, name: string)
    requires Conflicting([], Get(base, name), Get(ours, name), Get(theirs, name)) && [name] in theirWay
    ensures Member(base, ours, theirs, theirWay, name) == Get(theirs, name)
  {
    assert [name] + [] == [name];
    assert [] in Tails(theirWay, name);
  }
}
