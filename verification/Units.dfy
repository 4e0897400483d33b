/** Dropping the tables of a migration unit leaves the database as it was (schema/unit.go). */
module Units {
  import opened Common
  import opened Ordering
  import opened TableOrder
  import opened DdlEffects

  // ---------- dropping tables

  /** A table names no later table. */
  lemma NoLaterTarget(base: Catalog, ts: seq<Table>, i: nat, k: nat)
    requires InOrder(base, ts) && UniqueNames(ts) && i < k < |ts| && ts[k].name !in base.tables
    ensures ts[k].name !in Targets(ts[i])
  {
    LaterName(ts, i, k);
    assert Targets(ts[i]) <= base.tables.Keys + Names(ts[..i]) + {ts[i].name};
    hide *;
  }

  lemma MemberAt(ts: seq<Table>, name: string) returns (i: nat)
    requires name in Names(ts)
    ensures i < |ts| && ts[i].name == name
  {
    var t :| t in ts && t.name == name;
    i :| 0 <= i < |ts| && ts[i] == t;
  }

  lemma FitsFacts(base: Catalog, ts: seq<Table>, i: nat)
    requires Fits(base, ts) && i < |ts|
    ensures UniqueNames(ts) && ts[i].name !in base.tables && ts[i].name in Names(ts)
  {
    hide UniqueNames, TableOk, OneIndexPerName, IndexNames, Targets;
    NameOfMember(ts, ts[i]);
  }

  /** Where the tables of the catalog come from. */
  lemma ReachesFacts(cat: Catalog, base: Catalog, ts: seq<Table>, i: nat)
    requires Reaches(cat, base, ts) && i < |ts|
    ensures ts[i].name in cat.tables && cat.tables[ts[i].name].references == Targets(ts[i])
    ensures forall n | n in cat.tables :: n in base.tables || n in Names(ts)
    ensures forall n | n in base.tables :: n in cat.tables && cat.tables[n] == base.tables[n]
  {
    hide Names, Targets, IndexNames;
  }

  ghost predicate OwnReferences(base: Catalog) {
    forall n | n in base.tables :: base.tables[n].references <= base.tables.Keys
  }

  lemma FreeOfOthers(cat: Catalog, base: Catalog, ts: seq<Table>, k: nat, other: string)
    requires Reaches(cat, base, ts) && Fits(base, ts) && InOrder(base, ts) && OwnReferences(base) && k == |ts| - 1
    requires other in cat.tables && other != ts[k].name
    ensures ts[k].name !in cat.tables[other].references
  {
    hide *;
    FitsFacts(base, ts, k);
    ReachesFacts(cat, base, ts, k);
    if other in base.tables {
      BaseReferences(base, other);
    } else {
      var i := MemberAt(ts, other);
      ReachesFacts(cat, base, ts, i);
      NoLaterTarget(base, ts, i, k);
    }
  }

  lemma BaseReferences(base: Catalog, n: string)
    requires OwnReferences(base) && n in base.tables
    ensures base.tables[n].references <= base.tables.Keys
  {
  }

  /** Nothing in the catalog stands in the way of dropping the last table. */
  lemma LastIsFree(cat: Catalog, base: Catalog, ts: seq<Table>)
    requires Reaches(cat, base, ts) && Fits(base, ts) && InOrder(base, ts) && Closed(base) && ts != []
    ensures ts[|ts| - 1].name in cat.tables && !IsReferenced(cat, ts[|ts| - 1].name)
  {
    var k := |ts| - 1;
    assert OwnReferences(base);
    hide Reaches, Fits, InOrder, Closed, OwnReferences;
    ReachesFacts(cat, base, ts, k);
    forall other | other in cat.tables && other != ts[k].name ensures ts[k].name !in cat.tables[other].references {
      FreeOfOthers(cat, base, ts, k, other);
    }
  }

  /** An index belongs to the last table exactly when no earlier owner has it. */
  lemma IndexOwner(cat: Catalog, base: Catalog, done: seq<Table>, t: Table, x: string)
    requires Reaches(cat, base, done + [t]) && Closed(base) && x in cat.indexes
    requires t.name !in Names(done) && t.name !in base.tables
    ensures x in base.indexes || x in IndexNames(done) <==> cat.indexes[x].on != t.name
  {
    NamesSnoc(done, t);
    hide Targets;
    if x in base.indexes {
    } else if x in IndexNames(done) {
      var u, ix :| u in done && ix in u.indexes && ix.name == x;
      NameOfMember(done, u);
    } else {
      var ix :| ix in t.indexes && ix.name == x;
    }
  }

  /** What dropping an unreferenced table leaves. */
  lemma DropEffect(db: Engine, cat: Catalog, name: string)
    requires name in cat.tables && !IsReferenced(cat, name)
    ensures var r := Exec(db, cat, DropTable(name));
            && r.Some? && r.value.tables == cat.tables - {name}
            && (forall x :: x in r.value.indexes <==> x in cat.indexes && cat.indexes[x].on != name)
            && (forall x | x in r.value.indexes :: r.value.indexes[x] == cat.indexes[x])
  {
    hide IsReferenced;
  }

  lemma DropOne(db: Engine, cat: Catalog, base: Catalog, done: seq<Table>, t: Table)
    requires Reaches(cat, base, done + [t]) && Closed(base) && t.name !in Names(done) && t.name !in base.tables
    requires t.name in cat.tables && !IsReferenced(cat, t.name)
    ensures var r := Exec(db, cat, DropTable(t.name)); r.Some? && Reaches(r.value, base, done)
  {
    DropEffect(db, cat, t.name);
    var after := Exec(db, cat, DropTable(t.name)).value;
    forall x | x in cat.indexes ensures x in base.indexes || x in IndexNames(done) <==> cat.indexes[x].on != t.name {
      hide *;
      IndexOwner(cat, base, done, t, x);
    }
    ReachesLess(cat, base, done, t);
    hide *;
    RestReaches(cat, after, base, done, t);
  }

  /** The part of the catalog that belongs to the earlier tables. */
  ghost predicate Holds(cat: Catalog, base: Catalog, ts: seq<Table>) {
    && (forall n | n in base.tables :: n in cat.tables && cat.tables[n] == base.tables[n])
    && (forall x | x in base.indexes :: x in cat.indexes && cat.indexes[x] == base.indexes[x])
    && (forall t | t in ts ::
          t.name in cat.tables && t.name in Names(ts) && cat.tables[t.name] == CatalogTable(t.columns, Targets(t)))
    && (forall t, x | t in ts && x in t.indexes ::
          x.name in cat.indexes && x.name in IndexNames(ts) &&
          cat.indexes[x.name] == CatalogIndex(t.name, x.columns, x.unique))
  }

  lemma ReachesLess(cat: Catalog, base: Catalog, done: seq<Table>, t: Table)
    requires Reaches(cat, base, done + [t])
    ensures Holds(cat, base, done) && cat.tables.Keys == base.tables.Keys + Names(done) + {t.name}
    ensures base.indexes.Keys + IndexNames(done) <= cat.indexes.Keys
  {
    NamesSnoc(done, t);
    forall u | u in done ensures u.name in Names(done) {
      NameOfMember(done, u);
    }
    assert forall u, x | u in done && x in u.indexes :: x.name in IndexNames(done);
    hide Names, IndexNames, Targets;
  }

  lemma RestReaches(cat: Catalog, after: Catalog, base: Catalog, done: seq<Table>, t: Table)
    requires Holds(cat, base, done) && cat.tables.Keys == base.tables.Keys + Names(done) + {t.name}
    requires t.name !in Names(done) && t.name !in base.tables
    requires base.indexes.Keys + IndexNames(done) <= cat.indexes.Keys
    requires after.tables == cat.tables - {t.name}
    requires forall x :: x in after.indexes <==> x in cat.indexes && cat.indexes[x].on != t.name
    requires forall x | x in after.indexes :: after.indexes[x] == cat.indexes[x]
    requires forall x | x in cat.indexes :: x in base.indexes || x in IndexNames(done) <==> cat.indexes[x].on != t.name
    ensures Reaches(after, base, done)
  {
    hide Names, IndexNames, Targets;
    assert after.indexes.Keys == base.indexes.Keys + IndexNames(done);
  }

  lemma FewerInOrder(base: Catalog, ts: seq<Table>, i: nat)
    requires InOrder(base, ts) && i <= |ts|
    ensures InOrder(base, ts[..i])
  {
    hide Names, Targets;
    var done := ts[..i];
    assert forall j | 0 <= j < i :: done[j] == ts[j] && done[..j] == ts[..j];
  }

  lemma FewerTargets(base: Catalog, ts: seq<Table>, t: Table)
    requires InOrder(base, ts) && t in ts
    ensures Targets(t) <= base.tables.Keys + Names(ts)
  {
    var j :| 0 <= j < |ts| && ts[j] == t;
    assert Targets(ts[j]) <= base.tables.Keys + Names(ts[..j]) + {ts[j].name};
    hide *;
    NameOfMember(ts, t);
    PrefixNames(ts[..j], ts);
  }

  lemma PrefixIndexNames(a: seq<Table>, b: seq<Table>)
    requires a <= b
    ensures IndexNames(a) <= IndexNames(b)
  {
    assert forall u | u in a :: u in b;
  }

  lemma FewerFit(base: Catalog, ts: seq<Table>, i: nat)
    requires Fits(base, ts) && InOrder(base, ts) && i <= |ts|
    ensures Fits(base, ts[..i]) && InOrder(base, ts[..i])
  {
    var done := ts[..i];
    hide InOrder, Names, IndexNames, Targets, TableOk;
    FewerInOrder(base, ts, i);
    assert forall u | u in done :: u in ts;
    PrefixNames(done, ts);
    PrefixIndexNames(done, ts);
    forall u | u in done ensures Targets(u) <= base.tables.Keys + Names(done) {
      FewerTargets(base, done, u);
    }
  }

  lemma NothingLeft(cat: Catalog, base: Catalog)
    requires Reaches(cat, base, [])
    ensures cat == base
  {
  }

  /** Dropping in the reverse order never meets a table that is still referenced, and leaves the base as it was. */
  lemma {:induction false} DropsUndo(db: Engine, cat: Catalog, base: Catalog, ts: seq<Table>)
    requires Reaches(cat, base, ts) && Fits(base, ts) && InOrder(base, ts) && Closed(base)
    ensures Run(db, cat, DropDdl(ts)) == Some(base)
    decreases |ts|
  {
    hide Reaches, Fits, InOrder, Closed, Exec, IsReferenced, UniqueNames, Names;
    if ts == [] {
      NothingLeft(cat, base);
    } else {
      var done, t := ts[..|ts| - 1], ts[|ts| - 1];
      assert ts == done + [t];
      LastIsFree(cat, base, ts);
      FitsFacts(base, ts, |done|);
      LaterName(ts, |done|, |done|);
      DropOne(db, cat, base, done, t);
      FewerFit(base, ts, |ts| - 1);
      DropsUndo(db, Exec(db, cat, DropTable(t.name)).value, base, done);
      assert DropDdl(ts)[1..] == DropDdl(done);
    }
  }
}
