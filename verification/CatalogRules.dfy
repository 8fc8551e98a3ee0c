/**
 What the two databases take and what comes of it, rule by rule: the catalogue's steps by quantifiers over options,
 keys and tables, apart from the functions that compute them.
 */
module CatalogRules {
  import opened Wrappers
  import opened Sql
  import opened SchemaModel
  import opened Catalog

  lemma {:induction false} OptionDeclsCount(name: string, options: seq<ColumnOption>)
    ensures |OptionDecls(name, options)| == multiset(options)[Unique(true)]
    ensures forall i :: 0 <= i < |OptionDecls(name, options)| ==> OptionDecls(name, options)[i] == [name]
  {
    if options != [] {
      OptionDeclsCount(name, options[..|options| - 1]);
      assert options == options[..|options| - 1] + [options[|options| - 1]];
    }
  }

  lemma {:induction false} OptionFkFrom(name: string, options: seq<ColumnOption>, fk: CatKey)
    requires fk in OptionFks(name, options)
    ensures fk.columns == [name]
    ensures exists j :: 0 <= j < |options| && options[j].References? && fk.parent == LastIdent(options[j].parent)
  {
    var n := |options| - 1;
    if fk in OptionFks(name, options[..n]) {
      OptionFkFrom(name, options[..n], fk);
      var j :| 0 <= j < n && options[..n][j].References? && fk.parent == LastIdent(options[..n][j].parent);
      assert options[j] == options[..n][j];
    } else {
      assert options[n].References?;
    }
  }

  lemma {:induction false} OptionFkOf(name: string, options: seq<ColumnOption>, j: nat)
    requires j < |options| && options[j].References?
    ensures CatKey([name], LastIdent(options[j].parent), Names(options[j].referred)) in OptionFks(name, options)
  {
    var n := |options| - 1;
    if j < n {
      OptionFkOf(name, options[..n], j);
    }
  }

  // ----- ADD COLUMN -----

  /** Every table the options refer to is there. */
  predicate ParentsThere(cat: Tables, options: seq<ColumnOption>) {
    forall j :: 0 <= j < |options| && options[j].References? ==> Named(cat, LastIdent(options[j].parent))
  }

  lemma {:induction false} FindIff(cat: Tables, name: string)
    ensures CatFind(cat, name).Some? <==> Named(cat, name)
  {
  }

  lemma {:induction false} ParentsThereIff(b: Backend, cat: Tables, name: string, options: seq<ColumnOption>)
    ensures ParentsExist(b, cat, OptionFks(name, options)) <==> b.Sqlite? || ParentsThere(cat, options)
  {
    var fks := OptionFks(name, options);
    if b.Postgres? && ParentsExist(b, cat, fks) {
      forall j | 0 <= j < |options| && options[j].References?
        ensures Named(cat, LastIdent(options[j].parent))
      {
        OptionFkOf(name, options, j);
        var i :| 0 <= i < |fks| && fks[i] == CatKey([name], LastIdent(options[j].parent), Names(options[j].referred));
        FindIff(cat, fks[i].parent);
      }
    }
    if ParentsThere(cat, options) {
      forall i | 0 <= i < |fks|
        ensures CatFind(cat, fks[i].parent).Some?
      {
        OptionFkFrom(name, options, fks[i]);
        FindIff(cat, fks[i].parent);
      }
    }
  }

  /** SQLite takes no IF NOT EXISTS and no key, PostgreSQL one key at most, and no reference to a missing table. */
  lemma {:induction false} AddColumnIsTaken(db: Database, cat: Tables, k: nat, ifNotExists: bool, def: ColumnDef)
    requires k < |cat|
    ensures ExecAddColumn(db, cat, k, ifNotExists, def).Some? <==>
            var keys := multiset(def.options)[Unique(true)];
            && (db.backend.Sqlite? ==> !ifNotExists && keys == 0)
            && if exists i :: 0 <= i < |cat[k].columns| && cat[k].columns[i].name == def.name.value then ifNotExists
               else
                 && keys <= 1 && (keys == 1 ==> cat[k].primaryKey == [])
                 && (db.backend.Postgres? ==> ParentsThere(cat, def.options))
  {
    OptionDeclsCount(def.name.value, def.options);
    ParentsThereIff(db.backend, cat, def.name.value, def.options);
  }

  /** The table has the column behind its others, and its key if it is one; no other table changes. */
  lemma {:induction false} AddColumnAdds(db: Database, cat: Tables, k: nat, ifNotExists: bool, def: ColumnDef)
    requires k < |cat| && ExecAddColumn(db, cat, k, ifNotExists, def).Some?
    ensures var t, next := cat[k], ExecAddColumn(db, cat, k, ifNotExists, def).value;
            if exists i :: 0 <= i < |t.columns| && t.columns[i].name == def.name.value then next == cat
            else
              && |next| == |cat| && (forall i :: 0 <= i < |cat| && i != k ==> next[i] == cat[i])
              && next[k].name == t.name && |next[k].columns| == |t.columns| + 1
              && next[k].columns[..|t.columns|] == t.columns
              && (var c := next[k].columns[|t.columns|];
                  && c.name == def.name.value && c.dataType == def.dataType
                  && (c.notNull <==> NotNull in def.options || Unique(true) in def.options || OptionForbids(db, def)))
              && next[k].primaryKey == (if Unique(true) in def.options then [def.name.value] else t.primaryKey)
  {
    OptionDeclsCount(def.name.value, def.options);
  }

  // ----- DROP COLUMN -----

  /**
   SQLite drops a column of no key, without IF EXISTS or CASCADE; PostgreSQL any that no key refers to, or with
   CASCADE, except for keys of the table itself that start from it.
   */
  lemma {:induction false} DropColumnIsTaken(b: Backend, cat: Tables, k: nat, ifExists: bool, column: string,
                                             cascade: bool)
    requires k < |cat|
    ensures ExecDropColumn(b, cat, k, ifExists, column, cascade).Some? <==>
            var t := cat[k]; var there := exists i :: 0 <= i < |t.columns| && t.columns[i].name == column;
            match b {
              case Sqlite =>
                && there && !ifExists && !cascade && column !in t.primaryKey
                && forall j :: 0 <= j < |t.foreignKeys| ==> column !in t.foreignKeys[j].columns
              case Postgres =>
                if !there then ifExists
                else
                  cascade || forall i, j :: 0 <= i < |cat| && 0 <= j < |cat[i].foreignKeys| ==>
                    var fk := cat[i].foreignKeys[j];
                    (fk.parent == t.name && column in fk.referred) ==> (i == k && column in fk.columns)
            }
  {
  }

  lemma {:induction false} KeysLeftMember(fks: seq<CatKey>, own: bool, table: string, column: string, fk: CatKey)
    ensures fk in KeysLeft(fks, own, table, column) <==>
            && fk in fks && !(own && column in fk.columns) && !(fk.parent == table && column in fk.referred)
  {
    if fks != [] {
      assert fks == fks[..|fks| - 1] + [fks[|fks| - 1]];
      KeysLeftMember(fks[..|fks| - 1], own, table, column, fk);
    }
  }

  lemma {:induction false} WithoutColumnMember(columns: seq<CatColumn>, name: string, c: CatColumn)
    ensures c in Without(columns, name) <==> c in columns && c.name != name
  {
    if columns != [] {
      assert columns == columns[..|columns| - 1] + [columns[|columns| - 1]];
      WithoutColumnMember(columns[..|columns| - 1], name, c);
    }
  }

  /** In PostgreSQL the column takes with it the primary key and every foreign key it takes part in, at either end. */
  lemma {:induction false} DropColumnTakes(cat: Tables, k: nat, ifExists: bool, column: string, cascade: bool, i: nat,
                                           c: CatColumn, fk: CatKey)
    requires k < |cat| && i < |cat| && HasColumn(cat[k], column)
    requires ExecDropColumn(Postgres, cat, k, ifExists, column, cascade).Some?
    ensures var next := ExecDropColumn(Postgres, cat, k, ifExists, column, cascade).value;
            && |next| == |cat| && next[i].name == cat[i].name
            && (c in next[i].columns <==> c in cat[i].columns && (i == k ==> c.name != column))
            && (next[i].primaryKey == if i == k && column in cat[k].primaryKey then [] else cat[i].primaryKey)
            && (fk in next[i].foreignKeys <==>
                fk in cat[i].foreignKeys && !(i == k && column in fk.columns) &&
                !(fk.parent == cat[k].name && column in fk.referred))
  {
    KeysLeftMember(cat[i].foreignKeys, i == k, cat[k].name, column, fk);
    WithoutColumnMember(cat[k].columns, column, c);
  }

  // ----- ADD CONSTRAINT -----

  /** SQLite has no ADD CONSTRAINT. PostgreSQL adds keys of columns that are there, and only one primary key. */
  lemma {:induction false} AddConstraintIsTaken(b: Backend, cat: Tables, k: nat, c: TableConstraint)
    requires k < |cat|
    ensures ExecAddConstraint(b, cat, k, c).Some? <==>
            b.Postgres? &&
            match c {
              case ForeignKey(columns, parent, _) =>
                && columns != [] && Named(cat, LastIdent(parent))
                && forall i :: 0 <= i < |columns| ==> HasColumn(cat[k], columns[i].value)
              case PrimaryKey(columns) =>
                && cat[k].primaryKey == [] && columns != []
                && (forall i :: 0 <= i < |columns| ==> HasColumn(cat[k], columns[i].value))
                && forall i, j :: 0 <= i < j < |columns| ==> columns[i].value != columns[j].value
              case UniqueOrCheck(_) => true
            }
  {
    match c
    case ForeignKey(columns, parent, referred) =>
      OneForeignKey(c);
      FindIff(cat, LastIdent(parent));
      var fk := CatKey(Names(columns), LastIdent(parent), Names(referred));
      assert [fk][0] == fk && |fk.columns| == |columns|;
      assert (forall j :: 0 <= j < |fk.columns| ==> HasColumn(cat[k], fk.columns[j])) <==>
             (forall i :: 0 <= i < |columns| ==> HasColumn(cat[k], columns[i].value)) by {
        assert forall i :: 0 <= i < |columns| ==> fk.columns[i] == columns[i].value;
      }
    case PrimaryKey(columns) =>
      var key := Names(columns);
      assert |key| == |columns| && forall i :: 0 <= i < |columns| ==> key[i] == columns[i].value;
    case UniqueOrCheck(_) =>
  }

  lemma {:induction false} OneForeignKey(c: TableConstraint)
    requires c.ForeignKey?
    ensures ConstraintFks([c]) == [CatKey(Names(c.columns), LastIdent(c.parent), Names(c.referred))]
  {
    assert [c][..0] == [];
  }

  /** A primary key forbids NULL in its columns; a foreign key is put behind the others. */
  lemma {:induction false} AddConstraintAdds(b: Backend, cat: Tables, k: nat, c: TableConstraint, i: nat)
    requires k < |cat| && i < |cat[k].columns| && ExecAddConstraint(b, cat, k, c).Some?
    ensures var t, next := cat[k], ExecAddConstraint(b, cat, k, c).value;
            && |next| == |cat| && |next[k].columns| == |t.columns|
            && next[k].columns[i].name == t.columns[i].name && next[k].columns[i].dataType == t.columns[i].dataType
            && (next[k].columns[i].notNull <==>
                t.columns[i].notNull || (c.PrimaryKey? && t.columns[i].name in Names(c.columns)))
            && next[k].primaryKey == (if c.PrimaryKey? then Names(c.columns) else t.primaryKey)
            && (c.ForeignKey? ==>
                  && |next[k].foreignKeys| == |t.foreignKeys| + 1
                  && next[k].foreignKeys[..|t.foreignKeys|] == t.foreignKeys
                  && next[k].foreignKeys[|t.foreignKeys|].columns == Names(c.columns)
                  && next[k].foreignKeys[|t.foreignKeys|].parent == LastIdent(c.parent))
  {
    if c.ForeignKey? {
      OneForeignKey(c);
    }
  }

  /** A foreign key refers to the columns it names, or else to the primary key of its parent. */
  lemma {:induction false} ReferredColumns(cat: Tables, fks: seq<CatKey>, i: nat, p: nat)
    requires i < |fks| && p < |cat| && cat[p].name == fks[i].parent
    requires forall j :: 0 <= j < p ==> cat[j].name != fks[i].parent
    ensures WithReferred(cat, fks)[i].referred == if fks[i].referred != [] then fks[i].referred else cat[p].primaryKey
  {
  }

  // ----- DROP TABLE and names -----

  lemma {:induction false} WithoutTablesMember(cat: Tables, names: seq<string>, t: CatTable)
    ensures t in WithoutTables(cat, names) <==> t in cat && t.name !in names
  {
    if cat != [] {
      assert cat == [cat[0]] + cat[1..];
      WithoutTablesMember(cat[1..], names, t);
    }
  }

  /**
   SQLite drops one table at a time. PostgreSQL drops several, but none that one which stays refers to, unless with
   CASCADE. Without IF EXISTS all must be there.
   */
  lemma {:induction false} DropTableIsTaken(b: Backend, cat: Tables, names: seq<string>, ifExists: bool, cascade: bool)
    ensures ExecDrop(b, cat, names, ifExists, cascade).Some? <==>
            && (b.Sqlite? ==> |names| == 1 && !cascade)
            && (!ifExists ==> forall i :: 0 <= i < |names| ==> Named(cat, names[i]))
            && (b.Postgres? && !cascade && (exists i :: 0 <= i < |cat| && cat[i].name in names) ==>
                  forall i, j :: 0 <= i < |cat| && 0 <= j < |cat[i].foreignKeys| ==>
                    cat[i].foreignKeys[j].parent in names ==> cat[i].name in names)
  {
  }

  /**
   Under a name that something else has, CREATE TABLE fails; IF NOT EXISTS makes it do nothing, except that SQLite
   fails even then on the name of an index.
   */
  lemma {:induction false} TakenNames(db: Database, cat: Catalogue, s: Statement)
    requires s.CreateTable? && !s.form.Temporary? && |s.name| == 1 && db.legal(s.name[0])
    requires exists r :: r in cat.others && r.name == Some(db.readAs(s.name[0]))
    ensures Exec(db, cat, Whole(s)) ==
            if s.ifNotExists && (db.backend.Postgres? ||
                                 exists r :: r in cat.others && r.name == Some(db.readAs(s.name[0])) && !r.bond.Goes?)
            then Some(cat) else None
  {
    var name := db.readAs(s.name[0]);
    assert Taken(cat, name);
    assert Mistaken(db.backend, cat, name) <==>
           db.backend.Postgres? || exists r :: r in cat.others && r.name == Some(name) && !r.bond.Goes? by {
      if db.backend.Postgres? {
        var r :| r in cat.others && r.name == Some(name);
        assert Trips(db.backend, r, name);
      }
      assert forall r :: r in cat.others && r.name == Some(name) && !r.bond.Goes? ==> Trips(db.backend, r, name);
    }
  }

  /** A drop takes indexes and triggers of its tables with it, and views only with CASCADE. */
  lemma {:induction false} DropTakesWithIt(b: Backend, cat: Catalogue, names: seq<string>, ifExists: bool,
                                           cascade: bool, r: Relation)
    requires ExecDropTable(b, cat, names, ifExists, cascade).Some? && r in cat.others
    ensures r in ExecDropTable(b, cat, names, ifExists, cascade).value.others <==>
            (r.bond.Goes? || (cascade && r.bond.Pins?) ==>
               forall name :: name in r.on && name in names ==> !Named(cat.tables, name))
    ensures b.Postgres? && r.bond.Pins? && !cascade ==>
              forall name :: name in r.on && name in names ==> !Named(cat.tables, name)
  {
    if b.Postgres? && r.bond.Pins? && !cascade {
      assert !Pinned(b, cat, names);
      assert !HangsOn(r, cat.tables, names);
    }
  }
}
