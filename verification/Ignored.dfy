/**
 The changes the model takes no notice of. Since it stays as it was, it still matches exactly when the database
 shows no change; for each kind of change this comes to a condition on the catalogue before it.
 */
module Ignored {
  import opened Sql
  import opened SchemaModel
  import opened Catalog
  import opened Simulation

  /** Equal in all that a schema shows of a table. */
  predicate SameTable(x: CatTable, y: CatTable) {
    x.name == y.name && x.columns == y.columns && x.primaryKey == y.primaryKey &&
        Flat(x.foreignKeys) == Flat(y.foreignKeys)
  }

  predicate ShowsSame(x: Tables, y: Tables) {
    |x| == |y| && forall i :: 0 <= i < |x| ==> SameTable(x[i], y[i])
  }

  lemma {:induction false} MatchesSame(b: Backend, tables: seq<ModelTable>, x: Tables, y: Tables)
    requires Matches(b, tables, x)
    ensures Matches(b, tables, y) <==> ShowsSame(x, y)
  {
    if |x| == |y| {
      forall i | 0 <= i < |x|
        ensures MatchesTable(b, tables[i], y[i]) <==> SameTable(x[i], y[i])
      {
        assert MatchesTable(b, tables[i], x[i]);
        MatchesSameColumns(b, tables[i].columns, x[i].columns, y[i].columns);
      }
    }
  }

  lemma {:induction false} MatchesSameColumns(b: Backend, ms: seq<ModelColumn>, xs: seq<CatColumn>, ys: seq<CatColumn>)
    requires MatchesColumns(b, ms, xs)
    ensures MatchesColumns(b, ms, ys) <==> xs == ys
  {
    if MatchesColumns(b, ms, ys) {
      forall i | 0 <= i < |xs|
        ensures xs[i] == ys[i]
      {
        assert MatchesColumn(b, ms[i], xs[i]) && MatchesColumn(b, ms[i], ys[i]);
      }
    }
  }

  /** Only the table at k is replaced. */
  lemma {:induction false} ShowsUpdate(cat: Tables, k: nat, t: CatTable)
    requires k < |cat|
    ensures ShowsSame(cat, cat[k := t]) <==> SameTable(cat[k], t)
  {
    assert cat[k := t][k] == t;
  }

  // ----- ALTER COLUMN -----

  /** The column is already as the change would have it. */
  predicate ChangeFollowed(t: CatTable, column: string, change: ColumnChange) {
    forall i :: 0 <= i < |t.columns| && t.columns[i].name == column ==>
      match change
      case SetNotNull => t.columns[i].notNull
      case DropNotNull => !t.columns[i].notNull
      case SetType(dt) => t.columns[i].dataType == PostgresType(dt)
  }

  lemma {:induction false} AlterColumnShows(db: Database, cat: Tables, k: nat, column: string, change: ColumnChange)
    requires k < |cat| && ExecAlterColumn(db, cat, k, column, change).Some?
    ensures ShowsSame(cat, ExecAlterColumn(db, cat, k, column, change).value) <==>
            ChangeFollowed(cat[k], column, change)
  {
    var t := cat[k];
    var next := ExecAlterColumn(db, cat, k, column, change).value;
    ShowsUpdate(cat, k, next[k]);
    assert next == cat[k := next[k]];
    var columns := next[k].columns;
    assert forall i :: 0 <= i < |columns| ==>
      columns[i] == if t.columns[i].name == column then Changed(t.columns[i], change) else t.columns[i];
    if ChangeFollowed(t, column, change) {
      assert columns == t.columns;
    }
  }

  // ----- DROP CONSTRAINT -----

  /** What is dropped is neither the primary key nor a foreign key over any column. */
  predicate DropConstraintFollowed(db: Database, t: CatTable, name: string) {
    match db.denotes(t, name)
    case TheKey => false
    case ForeignKeyAt(j) => j < |t.foreignKeys| ==> t.foreignKeys[j].columns == []
    case _ => true
  }

  lemma {:induction false} DropConstraintShows(db: Database, cat: Tables, k: nat, ifExists: bool, name: string,
                                               cascade: bool)
    requires k < |cat| && ExecDropConstraint(db, cat, k, ifExists, name, cascade).Some?
    ensures ShowsSame(cat, ExecDropConstraint(db, cat, k, ifExists, name, cascade).value)
            <==> DropConstraintFollowed(db, cat[k], name)
  {
    var t := cat[k];
    var next := ExecDropConstraint(db, cat, k, ifExists, name, cascade).value;
    match db.denotes(t, name)
    case TheKey =>
      assert !SameTable(cat[k], next[k]);
    case ForeignKeyAt(j) =>
      FlatWithout(t.foreignKeys, j);
      ShowsUpdate(cat, k, t.(foreignKeys := t.foreignKeys[..j] + t.foreignKeys[j + 1..]));
    case _ =>
      assert next == cat;
  }

  lemma {:induction false} FlatWithout(fks: seq<CatKey>, j: nat)
    requires j < |fks|
    ensures Flat(fks[..j] + fks[j + 1..]) == Flat(fks) <==> fks[j].columns == []
  {
    var x, y := fks[..j], fks[j + 1..];
    assert fks == x + [fks[j]] + y;
    FlatAppend(x + [fks[j]], y);
    FlatAppend(x, [fks[j]]);
    FlatAppend(x, y);
    FlatOne(fks[j]);
    if fks[j].columns == [] {
      assert Flat(x) + [] == Flat(x);
    }
  }

  // ----- Renames -----

  lemma {:induction false} RenamesShow(cat: Tables, k: nat, from: string, to: string)
    requires k < |cat|
    ensures ExecRenameColumn(cat, k, from, to).Some? ==> !ShowsSame(cat, ExecRenameColumn(cat, k, from, to).value)
    ensures ExecRenameTable(cat, k, to).Some? ==> !ShowsSame(cat, ExecRenameTable(cat, k, to).value)
  {
    if ExecRenameColumn(cat, k, from, to).Some? {
      var next := ExecRenameColumn(cat, k, from, to).value;
      var j :| 0 <= j < |cat[k].columns| && cat[k].columns[j].name == from;
      assert next[k].columns[j].name == to;
      assert !SameTable(cat[k], next[k]);
    }
    if ExecRenameTable(cat, k, to).Some? {
      assert !SameTable(cat[k], ExecRenameTable(cat, k, to).value[k]);
    }
  }

  // ----- DROP TABLE -----

  lemma {:induction false} FewerTables(cat: Tables, names: seq<string>)
    ensures |WithoutTables(cat, names)| <= |cat|
    ensures |WithoutTables(cat, names)| == |cat| <==> !SomeNamed(cat, names)
  {
    if cat != [] {
      FewerTables(cat[1..], names);
      assert forall i :: 0 <= i < |cat[1..]| ==> cat[1..][i] == cat[i + 1];
      assert forall i :: 1 <= i < |cat| ==> cat[i] == cat[1..][i - 1];
    }
  }

  lemma {:induction false} DropTableShows(b: Backend, cat: Tables, names: seq<string>, ifExists: bool, cascade: bool)
    requires ExecDrop(b, cat, names, ifExists, cascade).Some?
    ensures ShowsSame(cat, ExecDrop(b, cat, names, ifExists, cascade).value) <==> !SomeNamed(cat, names)
  {
    FewerTables(cat, names);
  }
}
