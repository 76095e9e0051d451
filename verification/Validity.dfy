/** What judging a state whole decides: when a rule finds nothing. */
module Validity {
  import opened Json
  import opened Sequences
  import opened Order
  import opened Verdicts
  import opened Judging
  import opened Scoping

  /** No two files of the tables hold one key under the constraint. */
  ghost predicate HeldOnce(files: seq<File>, tables: seq<string>, constraint: string) {
    forall key :: KeyHeldOnce(files, tables, constraint, key)
  }

  ghost predicate KeyHeldOnce(files: seq<File>, tables: seq<string>, constraint: string, key: string) {
    forall i, j | 0 <= i < j < |files| ::
      !(HoldsKey(files[i], tables, constraint, key) && HoldsKey(files[j], tables, constraint, key))
  }

  /** No key is held in two of the tables. */
  ghost predicate HeldInOneTable(files: seq<File>, tables: seq<string>, constraint: string) {
    forall key :: KeyInOneTable(files, tables, constraint, key)
  }

  ghost predicate KeyInOneTable(files: seq<File>, tables: seq<string>, constraint: string, key: string) {
    forall f, g | f in files && g in files && f.table != g.table ::
      !(HoldsKey(f, tables, constraint, key) && HoldsKey(g, tables, constraint, key))
  }

  /** Every reference under the rule names a key some allowed row holds. */
  ghost predicate AllNamed(files: seq<File>, rule: string, constraint: string, tables: seq<string>) {
    forall f, r | f in files && r in f.references && r.rule == rule :: exists g ::
      g in files && HoldsKey(g, tables, constraint, r.target)
  }

  lemma {:induction false} FlatIsEmpty<T, U>(f: T -> seq<U>, xs: seq<T>)
    ensures Flat(f, xs) == [] <==> forall x | x in xs :: f(x) == []
  {
    if xs != [] {
      var front, last := xs[..|xs| - 1], xs[|xs| - 1];
      FlatIsEmpty(f, front);
      assert last in xs && forall x | x in front :: x in xs;
    }
  }

  lemma {:induction false} FilterShort<T>(keep: T -> bool, xs: seq<T>)
    ensures |Filter(keep, xs)| <= 1 <==> forall i, j | 0 <= i < j < |xs| :: !(keep(xs[i]) && keep(xs[j]))
  {
    if xs != [] {
      var front, last := xs[..|xs| - 1], xs[|xs| - 1];
      FilterShort(keep, front);
      if keep(last) && Filter(keep, front) != [] {
        var x := Filter(keep, front)[0];
        assert x in Filter(keep, front);
        var i :| 0 <= i < |front| && front[i] == x;
        assert keep(xs[i]) && keep(xs[|xs| - 1]);
      }
      assert forall i | 0 <= i < |front| :: front[i] == xs[i] && (keep(front[i]) ==> front[i] in Filter(keep, front));
    }
  }

  /** A candidate key's rule finds nothing exactly when the key is held once. */
  lemma {:induction false} UniqueFindsNothing(db: Database, files: seq<File>, schema: Schema, columns: seq<string>)
    ensures Found(db, files, None, Unique(schema, columns)) == []
       <==> HeldOnce(files, [schema.table], ConstraintName(schema, columns))
  {
    hide Flat, KeysHeld, Filter, KeyHeldOnce, DuplicateOf, UniqueOf;
    var tables, constraint := [schema.table], ConstraintName(schema, columns);
    var duplicate, tell := DuplicateOf(files, tables, constraint, false, None), UniqueOf(db, schema, columns);
    var keys := KeysHeld(files, tables, constraint);
    FlatNests(tell, duplicate, keys);
    FlatIsEmpty(Nested(tell, duplicate), keys);
    forall key
      ensures Nested(tell, duplicate)(key) == [] <==> KeyHeldOnce(files, tables, constraint, key)
      ensures key !in keys ==> KeyHeldOnce(files, tables, constraint, key)
    {
      KeyFindsNothing(db, files, schema, columns, key);
    }
  }

  lemma {:induction false} KeyFindsNothing(
    db: Database, files: seq<File>, schema: Schema, columns: seq<string>, key: string)
    ensures Flat(UniqueOf(db, schema, columns),
      DuplicateOf(files, [schema.table], ConstraintName(schema, columns), false, None)(key)) == []
       <==> KeyHeldOnce(files, [schema.table], ConstraintName(schema, columns), key)
    ensures key !in KeysHeld(files, [schema.table], ConstraintName(schema, columns)) ==>
      KeyHeldOnce(files, [schema.table], ConstraintName(schema, columns), key)
  {
    hide Flat, KeysHeld, Filter;
    var tables, constraint := [schema.table], ConstraintName(schema, columns);
    var holders := Filter(Holding(tables, constraint, key), files);
    FlatNothing(UniqueOf(db, schema, columns));
    FlatOne(UniqueOf(db, schema, columns), Duplicate(key, holders));
    FilterShort(Holding(tables, constraint, key), files);
    KeyIsHeld(files, tables, constraint, key);
    HeldIsFiltered(files, tables, constraint, key);
  }

  /** A foreign key's rule finds nothing exactly when every reference names a row. */
  lemma {:induction false} ForeignFindsNothing(
    db: Database, files: seq<File>, schema: Schema, fk: ForeignKey, constraint: string, targets: seq<string>)
    ensures Found(db, files, None, Foreign(schema, fk, constraint, targets)) == []
       <==> AllNamed(files, ForeignRule(schema.table, fk.name), constraint, targets)
  {
    hide Flat, Filter;
    var rule := ForeignRule(schema.table, fk.name);
    var from := DanglingFrom(files, rule, constraint, targets, None);
    FlatIsEmpty(from, files);
    forall f ensures from(f) == [] <==>
      forall r | r in f.references && r.rule == rule :: exists g ::
        g in files && HoldsKey(g, targets, constraint, r.target)
    {
      var dangling := DanglingOf(files, rule, constraint, targets, None, f);
      var some := Filter(dangling, f.references);
      forall r: Reference
        ensures dangling(r) <==>
          r.rule == rule && !(exists g :: g in files && HoldsKey(g, targets, constraint, r.target))
      {
        HeldIsFiltered(files, targets, constraint, r.target);
      }
      if some != [] {
        assert some[0] in some;
        InFilter(dangling, f.references, some[0]);
      }
      forall r | r in f.references && dangling(r) ensures some != [] {
        InFilter(dangling, f.references, r);
      }
    }
  }

  lemma InFilter<T>(keep: T -> bool, xs: seq<T>, x: T)
    ensures x in Filter(keep, xs) <==> x in xs && keep(x)
  {
  }

  /** A namespace's rule finds nothing exactly when no key is held in two of its tables. */
  lemma {:induction false} NamespaceFindsNothing(
    db: Database, files: seq<File>, tables: seq<string>, domain: Option<string>)
    ensures Found(db, files, None, Namespace(tables, domain)) == [] <==> HeldInOneTable(files, tables, PRIMARY)
  {
    hide Flat, KeysHeld, Filter, KeyInOneTable, DuplicateOf, NamespaceOf;
    var duplicate, tell := DuplicateOf(files, tables, PRIMARY, true, None), NamespaceOf(db, domain);
    var keys := KeysHeld(files, tables, PRIMARY);
    FlatNests(tell, duplicate, keys);
    FlatIsEmpty(Nested(tell, duplicate), keys);
    forall key
      ensures Nested(tell, duplicate)(key) == [] <==> KeyInOneTable(files, tables, PRIMARY, key)
      ensures key !in keys ==> KeyInOneTable(files, tables, PRIMARY, key)
    {
      NamespaceKeyFindsNothing(db, files, tables, domain, key);
    }
  }

  lemma {:induction false} NamespaceKeyFindsNothing(
    db: Database, files: seq<File>, tables: seq<string>, domain: Option<string>, key: string)
    ensures Flat(NamespaceOf(db, domain), DuplicateOf(files, tables, PRIMARY, true, None)(key)) == []
       <==> KeyInOneTable(files, tables, PRIMARY, key)
    ensures key !in KeysHeld(files, tables, PRIMARY) ==> KeyInOneTable(files, tables, PRIMARY, key)
  {
    hide Flat, KeysHeld, Filter, Distinct, TablesOf, NamespaceOf;
    var holders := Filter(Holding(tables, PRIMARY, key), files);
    FlatNothing(NamespaceOf(db, domain));
    FlatOne(NamespaceOf(db, domain), Duplicate(key, holders));
    NamespaceTells(db, domain, key, holders);
    OneTableCounts(holders);
    KeyIsHeld(files, tables, PRIMARY, key);
    HeldIsFiltered(files, tables, PRIMARY, key);
    forall f ensures f in holders <==> f in files && HoldsKey(f, tables, PRIMARY, key) {
      InFilter(Holding(tables, PRIMARY, key), files, f);
    }
    OneTableMeans(files, tables, key, holders);
  }

  lemma OneTableMeans(files: seq<File>, tables: seq<string>, key: string, holders: seq<File>)
    requires forall f :: f in holders <==> f in files && HoldsKey(f, tables, PRIMARY, key)
    ensures OneTable(holders) <==> KeyInOneTable(files, tables, PRIMARY, key)
  {
    hide HoldsKey;
  }

  ghost predicate OneTable(files: seq<File>) {
    forall f, g | f in files && g in files :: f.table == g.table
  }

  lemma {:induction false} NamespaceTells(db: Database, domain: Option<string>, key: string, holders: seq<File>)
    ensures NamespaceOf(db, domain)(Duplicate(key, holders)) == [] <==> OneTable(holders)
  {
    if holders != [] {
      FlatIsEmpty(NamespaceAt(db, domain, key, holders[0]), holders[1..]);
      forall f ensures f in holders <==> f == holders[0] || f in holders[1..] {
        assert holders == [holders[0]] + holders[1..];
      }
      forall f ensures NamespaceAt(db, domain, key, holders[0])(f) == [] <==> f.table == holders[0].table {
      }
    }
  }

  lemma {:induction false} OneTableCounts(holders: seq<File>)
    ensures |TablesOf(holders)| <= 1 <==> OneTable(holders)
  {
    var each := Apply((file: File) => file.table, holders);
    var tables := TablesOf(holders);
    DistinctIsOnce(each);
    forall t ensures t in tables <==> exists f :: f in holders && f.table == t {
      DistinctHolds(each, t);
      if f :| f in holders && f.table == t {
        var i :| 0 <= i < |holders| && holders[i] == f;
        assert each[i] == t;
      }
      if t in each {
        var i :| 0 <= i < |each| && each[i] == t;
        assert holders[i] in holders;
      }
    }
    if |tables| <= 1 {
      forall f, g | f in holders && g in holders ensures f.table == g.table {
        assert f.table in tables && g.table in tables;
      }
    } else {
      assert tables[0] in tables && tables[1] in tables && tables[0] != tables[1];
      var f :| f in holders && f.table == tables[0];
      var g :| g in holders && g.table == tables[1];
    }
  }
}
