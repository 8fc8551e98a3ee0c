/** One change to a table that both the model and the database know: when they still match after it. */
module Altering {
  import opened Sql
  import opened SchemaModel
  import opened Rendering
  import opened Catalog
  import opened Simulation
  import opened Ignored

  // ----- The changes the model takes part in -----

  lemma {:induction false} DropColumnSqlite(tables: seq<ModelTable>, cat: Tables, k: nat, ifExists: bool, column: Ident,
                                            cascade: bool)
    requires Matches(Sqlite, tables, cat) && k < |cat|
    requires ExecDropColumn(Sqlite, cat, k, ifExists, column.value, cascade).Some?
    ensures Matches(Sqlite, tables[k := Altered(tables[k], DropColumn(ifExists, column, cascade))],
                    ExecDropColumn(Sqlite, cat, k, ifExists, column.value, cascade).value)
  {
    var m, t := tables[k], cat[k];
    assert MatchesTable(Sqlite, m, t);
    RetainedMatchesWithout(Sqlite, m.columns, t.columns, column.value);
    RetainedKey(m, column.value);
    MatchesUpdate(Sqlite, tables, cat, k, m.(columns := Retained(m.columns, column.value)),
                  t.(columns := Without(t.columns, column.value)));
  }

  lemma {:induction false} DropColumnPostgres(tables: seq<ModelTable>, cat: Tables, k: nat, ifExists: bool,
                                              column: Ident, cascade: bool)
    requires Matches(Postgres, tables, cat) && k < |cat|
    requires ExecDropColumn(Postgres, cat, k, ifExists, column.value, cascade).Some?
    ensures Matches(Postgres, tables[k := Altered(tables[k], DropColumn(ifExists, column, cascade))],
                    ExecDropColumn(Postgres, cat, k, ifExists, column.value, cascade).value)
            <==> DropFollowed(Postgres, tables[k], cat, k, column.value)
  {
    var m, t, name := tables[k], cat[k], column.value;
    var next := ExecDropColumn(Postgres, cat, k, ifExists, name, cascade).value;
    var m' := m.(columns := Retained(m.columns, name));
    var tables' := tables[k := m'];
    assert MatchesTable(Postgres, m, t);
    if !HasColumn(t, name) {
      AbsentColumn(Postgres, m, t, name);
      assert tables' == tables && next == cat;
    } else {
      forall i | 0 <= i < |cat|
        ensures MatchesTable(Postgres, tables'[i], next[i]) <==> NoKeyLost(tables[i], cat, k, i, name)
      {
        assert MatchesTable(Postgres, tables[i], cat[i]);
        DroppedAt(tables[i], cat, k, i, ifExists, name, cascade);
      }
    }
  }

  /** The table at i keeps its keys when a column of the one at k goes, or shows none that it loses. */
  predicate NoKeyLost(m: ModelTable, cat: Tables, k: nat, i: nat, column: string)
    requires k < |cat| && i < |cat|
  {
    && (i == k ==> column !in cat[k].primaryKey || (m.primaryKey == [] && Without(cat[k].columns, column) == []))
    && forall j :: 0 <= j < |cat[i].foreignKeys| ==> !Loses(cat[i].foreignKeys[j], i == k, cat[k].name, column)
  }

  lemma {:induction false} DroppedAt(m: ModelTable, cat: Tables, k: nat, i: nat, ifExists: bool, name: string,
                                     cascade: bool)
    requires k < |cat| && i < |cat| && MatchesTable(Postgres, m, cat[i]) && HasColumn(cat[k], name)
    requires ExecDropColumn(Postgres, cat, k, ifExists, name, cascade).Some?
    ensures var next := ExecDropColumn(Postgres, cat, k, ifExists, name, cascade).value;
            && |next| == |cat|
            && (MatchesTable(Postgres, if i == k then m.(columns := Retained(m.columns, name)) else m, next[i]) <==>
                NoKeyLost(m, cat, k, i, name))
  {
    KeysLeftIff(cat[i].foreignKeys, i == k, cat[k].name, name);
    if i == k {
      DroppedKey(m, cat[k], name);
    }
  }

  /** The printed key and the database's after a column is gone from both. */
  lemma {:induction false} DroppedKey(m: ModelTable, t: CatTable, name: string)
    requires MatchesTable(Postgres, m, t)
    ensures MatchesColumns(Postgres, Retained(m.columns, name), Without(t.columns, name))
    ensures m.(columns := Retained(m.columns, name)).PrimaryKeyCols() ==
            (if name in t.primaryKey then [] else t.primaryKey)
            <==> name !in t.primaryKey || (m.primaryKey == [] && Without(t.columns, name) == [])
  {
    RetainedMatchesWithout(Postgres, m.columns, t.columns, name);
    RetainedKey(m, name);
  }

  lemma {:induction false} AbsentColumn(b: Backend, m: ModelTable, t: CatTable, name: string)
    requires MatchesTable(b, m, t) && !HasColumn(t, name)
    ensures m.(columns := Retained(m.columns, name)) == m
  {
    forall i | 0 <= i < |m.columns|
      ensures m.columns[i].name != name
    {
      assert MatchesColumn(b, m.columns[i], t.columns[i]);
    }
    RetainedOfAbsent(m.columns, name);
  }

  lemma {:induction false} DropColumnStep(b: Backend, tables: seq<ModelTable>, cat: Tables, k: nat, ifExists: bool,
                                          column: Ident, cascade: bool)
    requires Matches(b, tables, cat) && k < |cat|
    requires ExecDropColumn(b, cat, k, ifExists, column.value, cascade).Some?
    ensures Matches(b, tables[k := Altered(tables[k], DropColumn(ifExists, column, cascade))],
                    ExecDropColumn(b, cat, k, ifExists, column.value, cascade).value)
            <==> DropFollowed(b, tables[k], cat, k, column.value)
  {
    if b.Sqlite? {
      DropColumnSqlite(tables, cat, k, ifExists, column, cascade);
    } else {
      DropColumnPostgres(tables, cat, k, ifExists, column, cascade);
    }
  }

  /** On a matching state a table without a key has no columns, so no key can be added to it. */
  lemma {:induction false} NoKeyToAdd(b: Backend, m: ModelTable, t: CatTable, key: seq<string>)
    requires MatchesTable(b, m, t) && t.primaryKey == []
    ensures !KeyUsable(b, key, t)
  {
    assert m.columns == [] && t.columns == [];
    assert key != [] ==> !HasColumn(t, key[0]);
  }

  /** What a foreign key added to a table adds to the flat list. */
  lemma {:induction false} AddedFlat(before: seq<CatKey>, cat: Tables, c: TableConstraint)
    requires c.ForeignKey?
    ensures Flat(before + WithReferred(cat, ConstraintFks([c]))) == Flat(before) + Pairs(c.columns, LastIdent(c.parent))
  {
    var fks := ConstraintFks([c]);
    var fk := CatKey(Names(c.columns), LastIdent(c.parent), Names(c.referred));
    assert [c][..0] == [];
    assert fks == ConstraintFks([]) + [fk];
    FlatIgnoresReferred(WithReferred(cat, fks), fks);
    FlatOne(fk);
    FlatAppend(before, WithReferred(cat, fks));
    assert PairsOf(fk.columns, fk.parent) == Pairs(c.columns, fk.parent);
  }

  /** An accepted foreign key changes one table, and of it only the foreign keys. */
  lemma {:induction false} AddForeignKey(b: Backend, cat: Tables, k: nat, c: TableConstraint)
    requires k < |cat| && c.ForeignKey? && ExecAddConstraint(b, cat, k, c).Some?
    ensures var next := ExecAddConstraint(b, cat, k, c).value; var t := cat[k];
            && k < |next| && next == cat[k := next[k]] && next[k] == t.(foreignKeys := next[k].foreignKeys)
            && Flat(next[k].foreignKeys) == Flat(t.foreignKeys) + Pairs(c.columns, LastIdent(c.parent))
  {
    AddedFlat(cat[k].foreignKeys, cat, c);
  }

  lemma {:induction false} AddConstraintStep(b: Backend, tables: seq<ModelTable>, cat: Tables, k: nat,
                                             c: TableConstraint)
    requires Matches(b, tables, cat) && k < |cat| && ExecAddConstraint(b, cat, k, c).Some?
    ensures !c.PrimaryKey?
    ensures Matches(b, tables[k := Altered(tables[k], AddConstraint(c))], ExecAddConstraint(b, cat, k, c).value)
  {
    var m, t := tables[k], cat[k];
    var m' := Altered(m, AddConstraint(c));
    assert MatchesTable(b, m, t);
    match c
    case ForeignKey(_, _, _) =>
      AddForeignKey(b, cat, k, c);
      MatchesUpdate(b, tables, cat, k, m', ExecAddConstraint(b, cat, k, c).value[k]);
    case PrimaryKey(columns) =>
      if t.primaryKey == [] {
        NoKeyToAdd(b, m, t, Names(columns));
      }
    case UniqueOrCheck(_) =>
      assert tables[k := m'] == tables;
  }

  // ----- One operation -----

  /** The operation shows nothing in the table, because there is nothing for it to do. */
  predicate OpIgnored(db: Database, t: CatTable, op: AlterOp) {
    match op
    case AddColumn(_, def) => HasColumn(t, def.name.value)
    case DropColumn(_, column, _) => !HasColumn(t, column.value)
    case AddConstraint(c) => c.UniqueOrCheck?
    case DropConstraint(_, name, _) => DropConstraintFollowed(db, t, name.value)
    case AlterColumn(column, change) => ChangeFollowed(t, column.value, change)
    case RenameColumn(_, _) => false
    case RenameTable(_) => false
    case OtherOp(_) => true
  }

  lemma {:induction false} OpShowsIff(db: Database, cat: Tables, k: nat, op: AlterOp)
    requires k < |cat| && ExecTableOp(db, cat, k, op).Some?
    ensures ShowsSame(cat, ExecTableOp(db, cat, k, op).value) <==> OpIgnored(db, cat[k], op)
  {
    match op
    case AddColumn(ifNotExists, def) =>
      if !HasColumn(cat[k], def.name.value) {
        assert !SameTable(cat[k], ExecTableOp(db, cat, k, op).value[k]);
      }
    case DropColumn(ifExists, column, cascade) =>
      DropColumnShows(db.backend, cat, k, ifExists, column.value, cascade);
    case AddConstraint(c) => AddConstraintShows(db.backend, cat, k, c);
    case DropConstraint(ifExists, name, cascade) => DropConstraintShows(db, cat, k, ifExists, name.value, cascade);
    case AlterColumn(column, change) => AlterColumnShows(db, cat, k, column.value, change);
    case RenameColumn(from, to) => RenamesShow(cat, k, from.value, to.value);
    case RenameTable(newName) => RenamesShow(cat, k, "", LastIdent(newName));
    case OtherOp(_) =>
  }

  lemma {:induction false} FewerColumns(columns: seq<CatColumn>, name: string)
    ensures |Without(columns, name)| <= |columns|
    ensures (exists i :: 0 <= i < |columns| && columns[i].name == name) ==> |Without(columns, name)| < |columns|
  {
    if columns != [] {
      var n := |columns| - 1;
      FewerColumns(columns[..n], name);
      if i :| 0 <= i < |columns| && columns[i].name == name {
        assert i < n ==> columns[..n][i].name == name;
      }
    }
  }

  lemma {:induction false} DropColumnShows(b: Backend, cat: Tables, k: nat, ifExists: bool, column: string,
                                           cascade: bool)
    requires k < |cat| && ExecDropColumn(b, cat, k, ifExists, column, cascade).Some?
    ensures ShowsSame(cat, ExecDropColumn(b, cat, k, ifExists, column, cascade).value) <==> !HasColumn(cat[k], column)
  {
    if HasColumn(cat[k], column) {
      FewerColumns(cat[k].columns, column);
      assert !SameTable(cat[k], ExecDropColumn(b, cat, k, ifExists, column, cascade).value[k]);
    }
  }

  lemma {:induction false} AddConstraintShows(b: Backend, cat: Tables, k: nat, c: TableConstraint)
    requires k < |cat| && ExecAddConstraint(b, cat, k, c).Some?
    ensures ShowsSame(cat, ExecAddConstraint(b, cat, k, c).value) <==> c.UniqueOrCheck?
  {
    var next := ExecAddConstraint(b, cat, k, c).value;
    match c
    case ForeignKey(columns, parent, _) =>
      AddForeignKey(b, cat, k, c);
      UsableHasColumns(c, cat[k]);
      assert |Pairs(columns, LastIdent(parent))| == |columns|;
      assert !SameTable(cat[k], next[k]);
    case PrimaryKey(_) =>
      assert !SameTable(cat[k], next[k]);
    case UniqueOrCheck(_) =>
  }

  lemma {:induction false} UsableHasColumns(c: TableConstraint, t: CatTable)
    requires c.ForeignKey? && KeysUsable(ConstraintFks([c]), t)
    ensures c.columns != []
  {
    var fk := CatKey(Names(c.columns), LastIdent(c.parent), Names(c.referred));
    assert [c][..0] == [];
    assert ConstraintFks([c]) == ConstraintFks([]) + [fk];
    assert ConstraintFks([c])[0] == fk;
  }

  /** Whether the model, holding m, follows an operation that the database has accepted on the table at k. */
  predicate OpFollowed(db: Database, m: ModelTable, cat: Tables, k: nat, op: AlterOp)
    requires k < |cat|
  {
    match op
    case AddColumn(_, def) => AddFollowed(db, m, cat[k], def)
    case DropColumn(_, column, _) => DropFollowed(db.backend, m, cat, k, column.value)
    case AddConstraint(c) => true
    case _ => OpIgnored(db, cat[k], op)
  }

  lemma {:induction false} OpStep(db: Database, tables: seq<ModelTable>, cat: Tables, k: nat, op: AlterOp)
    requires Matches(db.backend, tables, cat) && k < |cat| && OpMapped(op)
    requires ExecTableOp(db, cat, k, NativeOp(op, db.backend)).Some?
    ensures Matches(db.backend, tables[k := Altered(tables[k], op)],
                    ExecTableOp(db, cat, k, NativeOp(op, db.backend)).value)
            <==> OpFollowed(db, tables[k], cat, k, op)
  {
    match op
    case AddColumn(ifNotExists, def) => AddColumnStep(db, tables, cat, k, ifNotExists, def);
    case DropColumn(ifExists, column, cascade) => DropColumnStep(db.backend, tables, cat, k, ifExists, column, cascade);
    case AddConstraint(c) => AddConstraintStep(db.backend, tables, cat, k, c);
    case _ =>
      assert tables[k := Altered(tables[k], op)] == tables;
      OpShowsIff(db, cat, k, op);
      MatchesSame(db.backend, tables, cat, ExecTableOp(db, cat, k, op).value);
  }
}
