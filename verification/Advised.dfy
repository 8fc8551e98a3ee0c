/**
 The other side of drift: tables of the shape the documentation shows are accepted by both databases, and `schema.rs`
 follows them.
 */
module Advised {
  import opened Wrappers
  import opened Sql
  import opened SchemaModel
  import opened Rendering
  import opened Catalog
  import opened Simulation
  import opened CatalogRules

  /** An option that the model reads as both databases do. */
  predicate PlainOption(o: ColumnOption) {
    o.NotNull? || o.Unique? || o.References?
  }

  /** Mapped types, different names, plain options. */
  predicate PlainColumns(columns: seq<ColumnDef>) {
    && AllMapped(columns) && DistinctNames(columns)
    && forall i :: 0 <= i < |columns| ==> forall o :: o in columns[i].options ==> PlainOption(o)
  }

  /** One column is declared the key, once, and NOT NULL. */
  predicate InlineKeyed(columns: seq<ColumnDef>, p: nat) {
    && p < |columns| && NotNull in columns[p].options && multiset(columns[p].options)[Unique(true)] == 1
    && forall i :: 0 <= i < |columns| && i != p ==> Unique(true) !in columns[i].options
  }

  /** The key is declared for the table, of different columns that are NOT NULL. */
  predicate TableKeyed(columns: seq<ColumnDef>, key: seq<Ident>) {
    && (forall i :: 0 <= i < |columns| ==> Unique(true) !in columns[i].options)
    && key != [] && Distinct(Names(key))
    && forall k :: 0 <= k < |key| ==>
         exists i :: 0 <= i < |columns| && columns[i].name.value == key[k].value && NotNull in columns[i].options
  }

  /** A CREATE TABLE as advised. */
  predicate AdvisedTable(columns: seq<ColumnDef>, constraints: seq<TableConstraint>) {
    && PlainColumns(columns)
    && ((constraints == [] && exists p: nat :: p < |columns| && InlineKeyed(columns, p)) ||
        (|constraints| == 1 && constraints[0].PrimaryKey? && TableKeyed(columns, constraints[0].columns)))
  }

  /** All references lead to tables that are there, or to the new one. */
  predicate ReferencesLead(cat: Tables, name: string, columns: seq<ColumnDef>) {
    forall i, j :: 0 <= i < |columns| && 0 <= j < |columns[i].options| && columns[i].options[j].References? ==>
      var parent := LastIdent(columns[i].options[j].parent);
      parent == name || CatFind(cat, parent).Some?
  }

  lemma {:induction false} NoDecls(columns: seq<ColumnDef>)
    requires forall i :: 0 <= i < |columns| ==> Unique(true) !in columns[i].options
    ensures InlineDecls(columns) == []
  {
    if columns != [] {
      var c := columns[|columns| - 1];
      OptionDeclsCount(c.name.value, c.options);
      NoDecls(columns[..|columns| - 1]);
    }
  }

  lemma {:induction false} OneDecl(columns: seq<ColumnDef>, p: nat)
    requires p < |columns| && multiset(columns[p].options)[Unique(true)] == 1
    requires forall i :: 0 <= i < |columns| && i != p ==> Unique(true) !in columns[i].options
    ensures InlineDecls(columns) == [[columns[p].name.value]]
  {
    var n := |columns| - 1;
    var c := columns[n];
    OptionDeclsCount(c.name.value, c.options);
    if p == n {
      NoDecls(columns[..n]);
    } else {
      OneDecl(columns[..n], p);
    }
  }

  lemma {:induction false} InlineFkFrom(columns: seq<ColumnDef>, fk: CatKey)
    requires fk in InlineFks(columns)
    ensures exists i :: 0 <= i < |columns| && fk.columns == [columns[i].name.value] &&
              exists j :: 0 <= j < |columns[i].options| && columns[i].options[j].References? &&
                fk.parent == LastIdent(columns[i].options[j].parent)
  {
    var n := |columns| - 1;
    var c := columns[n];
    if fk in OptionFks(c.name.value, c.options) {
      OptionFkFrom(c.name.value, c.options, fk);
    } else {
      InlineFkFrom(columns[..n], fk);
      var i :| 0 <= i < n && fk.columns == [columns[..n][i].name.value] &&
               exists j :: 0 <= j < |columns[..n][i].options| && columns[..n][i].options[j].References? &&
                 fk.parent == LastIdent(columns[..n][i].options[j].parent);
      assert columns[i] == columns[..n][i];
    }
  }

  lemma {:induction false} ColumnIsThere(db: Database, name: string, columns: seq<ColumnDef>,
                                         constraints: seq<TableConstraint>, i: nat)
    requires AllMapped(columns) && i < |columns|
    ensures HasColumn(BareTable(db, name, NativeColumns(columns, db.backend), constraints, Ordinary),
                      columns[i].name.value)
  {
    var bare := BareTable(db, name, NativeColumns(columns, db.backend), constraints, Ordinary);
    assert bare.columns[i].name == columns[i].name.value;
  }

  lemma {:induction false} NewestIsFound(cat: Tables, t: CatTable, parent: string)
    ensures parent == t.name || CatFind(cat, parent).Some? ==> CatFind(cat + [t], parent).Some?
  {
    assert (cat + [t])[|cat|] == t;
    assert forall i :: 0 <= i < |cat| ==> (cat + [t])[i] == cat[i];
  }

  /** A key of one column of the table, to a table that is there or to itself. */
  predicate Usable(cat: Tables, t: CatTable, fk: CatKey) {
    |fk.columns| == 1 && HasColumn(t, fk.columns[0]) && CatFind(cat + [t], fk.parent).Some?
  }

  lemma {:induction false} AllUsable(b: Backend, cat: Tables, t: CatTable, fks: seq<CatKey>)
    requires forall k :: 0 <= k < |fks| ==> Usable(cat, t, fks[k])
    ensures KeysUsable(fks, t) && ParentsExist(b, cat + [t], fks)
  {
  }

  lemma {:induction false} ReferenceIsUsable(db: Database, cat: Tables, name: string, columns: seq<ColumnDef>,
                                             constraints: seq<TableConstraint>, fk: CatKey)
    requires AllMapped(columns) && ReferencesLead(cat, name, columns) && fk in InlineFks(columns)
    ensures Usable(cat, BareTable(db, name, NativeColumns(columns, db.backend), constraints, Ordinary), fk)
  {
    InlineFkFrom(columns, fk);
    var i :| 0 <= i < |columns| && fk.columns == [columns[i].name.value] &&
             exists j :: 0 <= j < |columns[i].options| && columns[i].options[j].References? &&
               fk.parent == LastIdent(columns[i].options[j].parent);
    ColumnIsThere(db, name, columns, constraints, i);
    NewestIsFound(cat, BareTable(db, name, NativeColumns(columns, db.backend), constraints, Ordinary), fk.parent);
  }

  lemma {:induction false} KeysAreUsable(db: Database, cat: Tables, name: string, columns: seq<ColumnDef>,
                                         constraints: seq<TableConstraint>)
    requires AllMapped(columns) && ReferencesLead(cat, name, columns)
    ensures var bare := BareTable(db, name, NativeColumns(columns, db.backend), constraints, Ordinary);
            KeysUsable(InlineFks(columns), bare) && ParentsExist(db.backend, cat + [bare], InlineFks(columns))
  {
    var bare := BareTable(db, name, NativeColumns(columns, db.backend), constraints, Ordinary);
    var fks := InlineFks(columns);
    forall k | 0 <= k < |fks|
      ensures Usable(cat, bare, fks[k])
    {
      ReferenceIsUsable(db, cat, name, columns, constraints, fks[k]);
    }
    AllUsable(db.backend, cat, bare, fks);
  }

  lemma {:induction false} BareIsDistinct(db: Database, name: string, columns: seq<ColumnDef>,
                                          constraints: seq<TableConstraint>)
    requires AllMapped(columns) && DistinctNames(columns)
    ensures Distinct(ColumnNames(BareTable(db, name, NativeColumns(columns, db.backend), constraints,
                                           Ordinary).columns))
  {
    var names := ColumnNames(BareTable(db, name, NativeColumns(columns, db.backend), constraints, Ordinary).columns);
    assert forall i :: 0 <= i < |columns| ==> names[i] == columns[i].name.value;
  }

  lemma {:induction false} OneTableKey(constraints: seq<TableConstraint>)
    requires |constraints| == 1 && constraints[0].PrimaryKey?
    ensures TableDecls(constraints) == [Names(constraints[0].columns)] && ConstraintFks(constraints) == []
  {
    assert constraints[..0] == [];
    assert TableDecls(constraints) == [] + [Names(constraints[0].columns)];
    assert ConstraintFks(constraints) == [] + [];
  }

  predicate IsColumn(columns: seq<ColumnDef>, name: string) {
    exists i :: 0 <= i < |columns| && columns[i].name.value == name
  }

  /** A key of different columns that are there. */
  predicate Keyed(columns: seq<ColumnDef>, key: seq<string>) {
    && key != [] && Distinct(key)
    && forall k :: 0 <= k < |key| ==> IsColumn(columns, key[k])
  }

  lemma {:induction false} InlineKey(columns: seq<ColumnDef>, p: nat)
    requires InlineKeyed(columns, p)
    ensures InlineDecls(columns) == [[columns[p].name.value]] && Keyed(columns, [columns[p].name.value])
  {
    OneDecl(columns, p);
  }

  lemma {:induction false} KeyColumnsAreThere(columns: seq<ColumnDef>, key: seq<Ident>, names: seq<string>)
    requires TableKeyed(columns, key) && names == Names(key)
    ensures Keyed(columns, names)
  {
    assert |names| == |key|;
    forall k | 0 <= k < |names|
      ensures IsColumn(columns, names[k])
    {
      var i :| 0 <= i < |columns| && columns[i].name.value == key[k].value && NotNull in columns[i].options;
      assert columns[i].name.value == names[k];
    }
  }

  lemma {:induction false} TableKey(columns: seq<ColumnDef>, constraints: seq<TableConstraint>)
    requires |constraints| == 1 && constraints[0].PrimaryKey? && TableKeyed(columns, constraints[0].columns)
    ensures InlineDecls(columns) == [] && TableDecls(constraints) == [Names(constraints[0].columns)]
    ensures ConstraintFks(constraints) == [] && Keyed(columns, Names(constraints[0].columns))
  {
    NoDecls(columns);
    OneTableKey(constraints);
    KeyColumnsAreThere(columns, constraints[0].columns, Names(constraints[0].columns));
  }

  lemma {:induction false} DeclsTogether(b: Backend, columns: seq<ColumnDef>, constraints: seq<TableConstraint>)
    requires AllMapped(columns)
    ensures KeyDecls(NativeColumns(columns, b), constraints) == InlineDecls(columns) + TableDecls(constraints)
    ensures InlineFks(NativeColumns(columns, b)) == InlineFks(columns)
  {
    NativeDecls(columns, b);
  }

  lemma {:induction false} KeyIsThere(columns: seq<ColumnDef>, constraints: seq<TableConstraint>)
    returns (key: seq<string>)
    requires AdvisedTable(columns, constraints)
    ensures InlineDecls(columns) + TableDecls(constraints) == [key] && Keyed(columns, key)
    ensures ConstraintFks(constraints) == []
  {
    if constraints == [] {
      var p: nat :| p < |columns| && InlineKeyed(columns, p);
      key := [columns[p].name.value];
      InlineKey(columns, p);
    } else {
      key := Names(constraints[0].columns);
      TableKey(columns, constraints);
    }
  }

  /** The one key of such a table, and that nothing else than columns refers to other tables. */
  lemma {:induction false} AdvisedDecls(b: Backend, columns: seq<ColumnDef>, constraints: seq<TableConstraint>)
    returns (key: seq<string>)
    requires AdvisedTable(columns, constraints)
    ensures KeyDecls(NativeColumns(columns, b), constraints) == [key] && Keyed(columns, key)
    ensures InlineFks(NativeColumns(columns, b)) + ConstraintFks(constraints) == InlineFks(columns)
  {
    DeclsTogether(b, columns, constraints);
    key := KeyIsThere(columns, constraints);
  }

  lemma {:induction false} AllThere(t: CatTable, columns: seq<ColumnDef>, key: seq<string>)
    requires Keyed(columns, key)
    requires forall i :: 0 <= i < |columns| ==> HasColumn(t, columns[i].name.value)
    ensures forall b: Backend :: KeyUsable(b, key, t)
  {
    forall k | 0 <= k < |key|
      ensures HasColumn(t, key[k])
    {
      assert IsColumn(columns, key[k]);
      var i :| 0 <= i < |columns| && columns[i].name.value == key[k];
    }
  }

  /** What it takes for a CREATE TABLE to be accepted. */
  lemma {:induction false} AcceptedIf(db: Database, cat: Tables, name: string, columns: seq<ColumnDef>,
                                      constraints: seq<TableConstraint>, form: TableForm, key: seq<string>)
    requires KeyDecls(columns, constraints) == [key]
    requires var bare := BareTable(db, name, columns, constraints, form);
             && Distinct(ColumnNames(bare.columns)) && KeyUsable(db.backend, key, bare)
             && KeysUsable(InlineFks(columns) + ConstraintFks(constraints), bare)
             && ParentsExist(db.backend, cat + [bare], InlineFks(columns) + ConstraintFks(constraints))
    ensures ExecCreateDeclared(db, cat, name, columns, constraints, form).Some?
  {
  }

  lemma {:induction false} AdvisedIsAccepted(db: Database, cat: Tables, name: string, columns: seq<ColumnDef>,
                                             constraints: seq<TableConstraint>)
    requires AdvisedTable(columns, constraints) && ReferencesLead(cat, name, columns)
    ensures ExecCreateDeclared(db, cat, name, NativeColumns(columns, db.backend), constraints, Ordinary).Some?
  {
    var bare := BareTable(db, name, NativeColumns(columns, db.backend), constraints, Ordinary);
    var key := AdvisedDecls(db.backend, columns, constraints);
    KeysAreUsable(db, cat, name, columns, constraints);
    forall i | 0 <= i < |columns|
      ensures HasColumn(bare, columns[i].name.value)
    {
      ColumnIsThere(db, name, columns, constraints, i);
    }
    AllThere(bare, columns, key);
    BareIsDistinct(db, name, columns, constraints);
    AcceptedIf(db, cat, name, NativeColumns(columns, db.backend), constraints, Ordinary, key);
  }

  lemma {:induction false} KeyColumnIsNotNull(columns: seq<ColumnDef>, key: seq<Ident>, i: nat)
    requires DistinctNames(columns) && TableKeyed(columns, key) && i < |columns|
    requires columns[i].name.value in Names(key)
    ensures DeclaredNotNull(columns[i])
  {
    var k :| 0 <= k < |key| && Names(key)[k] == columns[i].name.value;
    var j :| 0 <= j < |columns| && columns[j].name.value == key[k].value && NotNull in columns[j].options;
    assert i == j;
  }

  lemma {:induction false} AdvisedShape(db: Database, columns: seq<ColumnDef>, constraints: seq<TableConstraint>)
    requires AdvisedTable(columns, constraints)
    ensures ShapeFollowed(db, Ordinary, columns, constraints)
  {
    if constraints == [] {
      var p: nat :| p < |columns| && InlineKeyed(columns, p);
      assert Unique(true) in columns[p].options;
      assert DeclaredPrimary(columns[p]);
    }
    forall i | 0 <= i < |columns|
      ensures NullFollowed(db, Ordinary, columns[i], constraints)
    {
      assert forall j :: 0 <= j < |columns[i].options| ==>
               columns[i].options[j] in columns[i].options && PlainOption(columns[i].options[j]);
      if constraints != [] && columns[i].name.value in Names(constraints[0].columns) {
        KeyColumnIsNotNull(columns, constraints[0].columns, i);
      }
    }
  }

  /**
   Every table of that shape, under a new name: any PostgreSQL and any SQLite database takes it, and holds afterwards
   what `schema.rs` prints.
   */
  lemma {:induction false} AdvisedTableIsFollowed(db: Database, tables: seq<ModelTable>, cat: Tables, name: string,
                                                  columns: seq<ColumnDef>, constraints: seq<TableConstraint>)
    requires AdvisedTable(columns, constraints) && ReferencesLead(cat, name, columns)
    requires Matches(db.backend, tables, cat) && CatFind(cat, name).None?
    ensures var next := ExecCreate(db, cat, name, false, NativeColumns(columns, db.backend), constraints, Ordinary, []);
            next.Some? && Matches(db.backend, tables + [CreatedModel(name, columns, constraints)], next.value)
  {
    AdvisedIsAccepted(db, cat, name, columns, constraints);
    AdvisedShape(db, columns, constraints);
    CreateStep(db, tables, cat, name, false, columns, constraints, Ordinary, []);
  }
}
