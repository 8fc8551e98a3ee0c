/**
 The generated DDL and the generated schema against each other. After each change, does the catalogue of
 a backend match the model table by table and column by column? Exactly when the change is one the model
 follows: `Followed` gives the condition, and `NeverDriftsIffFollowed` carries it over whole runs.
 */
module Simulation {
  import opened Sql
  import opened SchemaModel
  import opened Rendering
  import opened Catalog

  // ----- Matching -----

  function PairsOf(columns: seq<string>, parent: string): seq<(string, string)> {
    seq(|columns|, i requires 0 <= i < |columns| => (columns[i], parent))
  }

  /** Foreign keys as the model lists them: one entry per column. */
  function Flat(fks: seq<CatKey>): seq<(string, string)> {
    if fks == [] then []
    else Flat(fks[..|fks| - 1]) + PairsOf(fks[|fks| - 1].columns, fks[|fks| - 1].parent)
  }

  /** Same name, the backend's type for the marker, and nullable alike. */
  predicate MatchesColumn(b: Backend, m: ModelColumn, c: CatColumn) {
    m.name == c.name && c.dataType == NativeType(RowOf(m.marker), b) && m.nullable == !c.notNull
  }

  predicate MatchesColumns(b: Backend, ms: seq<ModelColumn>, cs: seq<CatColumn>) {
    |ms| == |cs| && forall i :: 0 <= i < |ms| ==> MatchesColumn(b, ms[i], cs[i])
  }

  /** The table as `schema.rs` prints it, its key included, is the table of the database. */
  predicate MatchesTable(b: Backend, m: ModelTable, t: CatTable) {
    && m.name == t.name
    && MatchesColumns(b, m.columns, t.columns)
    && m.PrimaryKeyCols() == t.primaryKey
    && m.foreignKeys == Flat(t.foreignKeys)
  }

  predicate Matches(b: Backend, tables: seq<ModelTable>, cat: Tables) {
    |tables| == |cat| && forall i :: 0 <= i < |tables| ==> MatchesTable(b, tables[i], cat[i])
  }

  lemma {:induction false} MarkerGivesRow(dt: DataType)
    requires MapType(dt).Some?
    ensures RowOf(MapType(dt).value.marker) == MapType(dt).value
  {
  }

  lemma {:induction false} SameFind(b: Backend, tables: seq<ModelTable>, cat: Tables, name: string)
    requires Matches(b, tables, cat)
    ensures Find(tables, name) == CatFind(cat, name)
  {
    if tables != [] {
      assert MatchesTable(b, tables[0], cat[0]);
      assert forall i :: 0 <= i < |tables[1..]| ==> tables[1..][i] == tables[i + 1] && cat[1..][i] == cat[i + 1];
      SameFind(b, tables[1..], cat[1..], name);
    }
  }

  lemma {:induction false} MatchesUpdate(b: Backend, tables: seq<ModelTable>, cat: Tables, k: nat, m: ModelTable,
                                         t: CatTable)
    requires Matches(b, tables, cat) && k < |tables|
    ensures Matches(b, tables[k := m], cat[k := t]) <==> MatchesTable(b, m, t)
  {
    var tables', cat' := tables[k := m], cat[k := t];
    assert tables'[k] == m && cat'[k] == t;
    if MatchesTable(b, m, t) {
      forall i | 0 <= i < |tables'|
        ensures MatchesTable(b, tables'[i], cat'[i])
      {
        if i != k {
          assert tables'[i] == tables[i] && cat'[i] == cat[i];
        }
      }
    }
  }

  lemma {:induction false} MatchesAppend(b: Backend, tables: seq<ModelTable>, cat: Tables, m: ModelTable, t: CatTable)
    requires Matches(b, tables, cat)
    ensures Matches(b, tables + [m], cat + [t]) <==> MatchesTable(b, m, t)
  {
    var tables', cat' := tables + [m], cat + [t];
    assert tables'[|tables|] == m && cat'[|cat|] == t;
    if MatchesTable(b, m, t) {
      forall i | 0 <= i < |tables'|
        ensures MatchesTable(b, tables'[i], cat'[i])
      {
        if i < |tables| {
          assert tables'[i] == tables[i] && cat'[i] == cat[i];
        }
      }
    }
  }

  lemma {:induction false} MatchesColumnsAppend(b: Backend, ms: seq<ModelColumn>, cs: seq<CatColumn>, m: ModelColumn,
                                                c: CatColumn)
    requires MatchesColumns(b, ms, cs)
    ensures MatchesColumns(b, ms + [m], cs + [c]) <==> MatchesColumn(b, m, c)
  {
    assert (ms + [m])[|ms|] == m && (cs + [c])[|cs|] == c;
  }

  lemma {:induction false} FlatAppend(x: seq<CatKey>, y: seq<CatKey>)
    ensures Flat(x + y) == Flat(x) + Flat(y)
  {
    if y == [] {
      assert x + y == x;
    } else {
      var n := |y| - 1;
      assert y == y[..n] + [y[n]];
      FlatAppend(x, y[..n]);
      FlatOneMore(x, y[..n], y[n]);
    }
  }

  lemma {:induction false} FlatOneMore(x: seq<CatKey>, y: seq<CatKey>, fk: CatKey)
    requires Flat(x + y) == Flat(x) + Flat(y)
    ensures Flat(x + (y + [fk])) == Flat(x) + Flat(y + [fk])
  {
    FlatSnoc(x + y, fk);
    FlatSnoc(y, fk);
    assert x + (y + [fk]) == x + y + [fk];
    Regrouped(Flat(x), Flat(y), PairsOf(fk.columns, fk.parent));
  }

  lemma {:induction false} Regrouped(a: seq<(string, string)>, b: seq<(string, string)>, c: seq<(string, string)>)
    ensures a + b + c == a + (b + c)
  {
  }

  lemma {:induction false} FlatSnoc(x: seq<CatKey>, fk: CatKey)
    ensures Flat(x + [fk]) == Flat(x) + PairsOf(fk.columns, fk.parent)
  {
    assert (x + [fk])[..|x|] == x;
  }

  /** Filling in referenced columns does not show in the flat list. */
  lemma {:induction false} FlatIgnoresReferred(x: seq<CatKey>, y: seq<CatKey>)
    requires |x| == |y| && forall i :: 0 <= i < |x| ==> x[i].columns == y[i].columns && x[i].parent == y[i].parent
    ensures Flat(x) == Flat(y)
  {
    if x != [] {
      FlatIgnoresReferred(x[..|x| - 1], y[..|y| - 1]);
    }
  }

  // ----- Declarations: the model's reading and the database's -----

  lemma {:induction false} OptionFksAreRefs(name: string, options: seq<ColumnOption>)
    ensures Flat(OptionFks(name, options)) == OptionRefs(name, options)
  {
    if options != [] {
      var init, last := options[..|options| - 1], options[|options| - 1];
      OptionFksAreRefs(name, init);
      if last.References? {
        var fk := CatKey([name], LastIdent(last.parent), Names(last.referred));
        FlatOne(fk);
        FlatAppend(OptionFks(name, init), [fk]);
        assert PairsOf([name], fk.parent) == [(name, fk.parent)];
      } else {
        assert OptionFks(name, options) == OptionFks(name, init);
      }
    }
  }

  lemma {:induction false} FlatOne(fk: CatKey)
    ensures Flat([fk]) == PairsOf(fk.columns, fk.parent)
  {
    assert [fk][..0] == [];
  }

  lemma {:induction false} InlineFksAreRefs(columns: seq<ColumnDef>)
    ensures Flat(InlineFks(columns)) == InlineRefs(columns)
  {
    if columns != [] {
      var c := columns[|columns| - 1];
      InlineFksAreRefs(columns[..|columns| - 1]);
      OptionFksAreRefs(c.name.value, c.options);
      FlatAppend(InlineFks(columns[..|columns| - 1]), OptionFks(c.name.value, c.options));
    }
  }

  lemma {:induction false} AllFksAreRefs(columns: seq<ColumnDef>, constraints: seq<TableConstraint>)
    ensures Flat(InlineFks(columns) + ConstraintFks(constraints)) == RefsOf(columns, constraints)
  {
    var inline := InlineFks(columns);
    if constraints == [] {
      InlineFksAreRefs(columns);
      assert inline + [] == inline;
    } else {
      var init, last := constraints[..|constraints| - 1], constraints[|constraints| - 1];
      AllFksAreRefs(columns, init);
      if last.ForeignKey? {
        var fk := CatKey(Names(last.columns), LastIdent(last.parent), Names(last.referred));
        FlatOne(fk);
        FlatAppend(inline + ConstraintFks(init), [fk]);
        assert inline + ConstraintFks(constraints) == inline + ConstraintFks(init) + [fk];
        assert PairsOf(fk.columns, fk.parent) == Pairs(last.columns, fk.parent);
      } else {
        assert ConstraintFks(constraints) == ConstraintFks(init);
      }
    }
  }

  lemma {:induction false} OptionDeclsAreKeys(name: string, options: seq<ColumnOption>)
    ensures |OptionDecls(name, options)| == |OptionKeys(name, options)|
    ensures forall i :: 0 <= i < |OptionDecls(name, options)| ==>
              OptionDecls(name, options)[i] == [OptionKeys(name, options)[i]] && OptionKeys(name, options)[i] == name
    ensures OptionDecls(name, options) != [] <==> Unique(true) in options
  {
    if options != [] {
      OptionDeclsAreKeys(name, options[..|options| - 1]);
      assert options == options[..|options| - 1] + [options[|options| - 1]];
    }
  }

  lemma {:induction false} InlineDeclsAreKeys(columns: seq<ColumnDef>)
    ensures |InlineDecls(columns)| == |InlineKeys(columns)|
    ensures forall i :: 0 <= i < |InlineDecls(columns)| ==> InlineDecls(columns)[i] == [InlineKeys(columns)[i]]
  {
    if columns != [] {
      var c := columns[|columns| - 1];
      InlineDeclsAreKeys(columns[..|columns| - 1]);
      OptionDeclsAreKeys(c.name.value, c.options);
    }
  }

  /** Where at most one key is declared, the model holds that key. */
  lemma {:induction false} SingleKey(columns: seq<ColumnDef>, constraints: seq<TableConstraint>)
    requires |KeyDecls(columns, constraints)| <= 1
    ensures KeysOf(columns, constraints) ==
            if KeyDecls(columns, constraints) == [] then [] else KeyDecls(columns, constraints)[0]
  {
    if constraints == [] {
      InlineDeclsAreKeys(columns);
      assert KeyDecls(columns, constraints) == InlineDecls(columns);
      if InlineKeys(columns) != [] {
        assert InlineKeys(columns) == [InlineKeys(columns)[0]];
      }
    } else {
      var init, last := constraints[..|constraints| - 1], constraints[|constraints| - 1];
      if last.PrimaryKey? {
        assert KeyDecls(columns, constraints)[|KeyDecls(columns, constraints)| - 1] == Names(last.columns);
      } else {
        assert TableDecls(constraints) == TableDecls(init);
        SingleKey(columns, init);
      }
    }
  }

  // ----- Rewriting leaves the declarations alone -----

  lemma {:induction false} NativeDecls(columns: seq<ColumnDef>, b: Backend)
    requires AllMapped(columns)
    ensures InlineDecls(NativeColumns(columns, b)) == InlineDecls(columns)
    ensures InlineFks(NativeColumns(columns, b)) == InlineFks(columns)
  {
    if columns != [] {
      NativeDecls(columns[..|columns| - 1], b);
      assert NativeColumns(columns, b)[..|columns| - 1] == NativeColumns(columns[..|columns| - 1], b);
    }
  }

  // ----- CREATE TABLE -----

  predicate IntegerInSqlite(def: ColumnDef) {
    MapType(def.dataType).Some? && MapType(def.dataType).value.marker in {IntegerMarker, BoolMarker}
  }

  /** Whether a table-level PRIMARY KEY lists the column; whether one consists of it alone. */
  predicate InTableKey(constraints: seq<TableConstraint>, column: string) {
    exists j :: 0 <= j < |constraints| && constraints[j].PrimaryKey? && column in Names(constraints[j].columns)
  }

  predicate IsTableKey(constraints: seq<TableConstraint>, column: string) {
    exists j :: 0 <= j < |constraints| && constraints[j].PrimaryKey? && Names(constraints[j].columns) == [column]
  }

  /** Whether the declared key forbids NULL in a column, by the declarations alone. */
  predicate KeyDecides(b: Backend, form: TableForm, def: ColumnDef, constraints: seq<TableConstraint>) {
    if b.Postgres? || form.KeysNotNull? then DeclaredPrimary(def) || InTableKey(constraints, def.name.value)
    else IntegerInSqlite(def) && (DeclaredPrimary(def) || IsTableKey(constraints, def.name.value))
  }

  /**
   When the model's nullability is the database's: NOT NULL is declared, or else the model's rule, which looks at
   an inline PRIMARY KEY only, agrees with what the column's options and the key forbid.
   */
  predicate NullFollowed(db: Database, form: TableForm, def: ColumnDef, constraints: seq<TableConstraint>) {
    DeclaredNotNull(def) || (DeclaredPrimary(def) <==>
                             OptionForbids(db, def) || KeyDecides(db.backend, form, def, constraints))
  }

  predicate DeclaresKey(columns: seq<ColumnDef>, constraints: seq<TableConstraint>) {
    (exists i :: 0 <= i < |columns| && DeclaredPrimary(columns[i])) ||
    (exists j :: 0 <= j < |constraints| && constraints[j].PrimaryKey?)
  }

  lemma {:induction false} InlineDeclOf(columns: seq<ColumnDef>, i: nat)
    requires i < |columns| && DeclaredPrimary(columns[i])
    ensures [columns[i].name.value] in InlineDecls(columns)
  {
    var n := |columns| - 1;
    if i == n {
      var c := columns[n];
      OptionDeclsAreKeys(c.name.value, c.options);
      assert OptionDecls(c.name.value, c.options)[0] == [c.name.value];
      assert [c.name.value] in OptionDecls(c.name.value, c.options);
    } else {
      InlineDeclOf(columns[..n], i);
    }
  }

  lemma {:induction false} InlineDeclFrom(columns: seq<ColumnDef>, d: seq<string>)
    requires d in InlineDecls(columns)
    ensures exists i :: 0 <= i < |columns| && DeclaredPrimary(columns[i]) && d == [columns[i].name.value]
  {
    var n := |columns| - 1;
    var c := columns[n];
    OptionDeclsAreKeys(c.name.value, c.options);
    if d in OptionDecls(c.name.value, c.options) {
      assert DeclaredPrimary(columns[n]) && d == [columns[n].name.value];
    } else {
      InlineDeclFrom(columns[..n], d);
      var i :| 0 <= i < n && DeclaredPrimary(columns[..n][i]) && d == [columns[..n][i].name.value];
      assert columns[i] == columns[..n][i];
    }
  }

  lemma {:induction false} TableDeclIff(constraints: seq<TableConstraint>, d: seq<string>)
    ensures d in TableDecls(constraints) <==>
            exists j :: 0 <= j < |constraints| && constraints[j].PrimaryKey? && d == Names(constraints[j].columns)
  {
    if constraints != [] {
      var n := |constraints| - 1;
      TableDeclIff(constraints[..n], d);
      if d in TableDecls(constraints[..n]) {
        var j :| 0 <= j < n && constraints[..n][j].PrimaryKey? && d == Names(constraints[..n][j].columns);
        assert constraints[j] == constraints[..n][j];
      }
      if exists j :: 0 <= j < |constraints| && constraints[j].PrimaryKey? && d == Names(constraints[j].columns) {
        var j :| 0 <= j < |constraints| && constraints[j].PrimaryKey? && d == Names(constraints[j].columns);
        if j < n {
          assert constraints[..n][j] == constraints[j];
        }
      }
    }
  }

  function KeyOf(columns: seq<ColumnDef>, constraints: seq<TableConstraint>): seq<string> {
    var decls := KeyDecls(columns, constraints);
    if decls == [] then [] else decls[0]
  }

  lemma {:induction false} OnlyDecl(columns: seq<ColumnDef>, constraints: seq<TableConstraint>, d: seq<string>)
    requires |KeyDecls(columns, constraints)| <= 1
    requires d in InlineDecls(columns) || d in TableDecls(constraints)
    ensures KeyOf(columns, constraints) == d
  {
    var decls := KeyDecls(columns, constraints);
    assert d in decls;
    assert decls == [decls[0]];
  }

  predicate DistinctNames(columns: seq<ColumnDef>) {
    forall i, j :: 0 <= i < j < |columns| ==> columns[i].name.value != columns[j].name.value
  }

  /** Where the key of an accepted CREATE TABLE comes from: an inline declaration or a constraint. */
  lemma {:induction false} KeyOrigin(columns: seq<ColumnDef>, constraints: seq<TableConstraint>, i: nat)
    requires |KeyDecls(columns, constraints)| <= 1 && DistinctNames(columns) && i < |columns|
    ensures var name := columns[i].name.value; var key := KeyOf(columns, constraints);
            && (DeclaredPrimary(columns[i]) ==> key == [name])
            && (InTableKey(constraints, name) ==> name in key)
            && (IsTableKey(constraints, name) ==> key == [name])
            && (name in key ==> DeclaredPrimary(columns[i]) || InTableKey(constraints, name))
            && (key == [name] ==> DeclaredPrimary(columns[i]) || IsTableKey(constraints, name))
  {
    var name := columns[i].name.value;
    var key := KeyOf(columns, constraints);
    if DeclaredPrimary(columns[i]) {
      InlineDeclOf(columns, i);
      OnlyDecl(columns, constraints, [name]);
    }
    if InTableKey(constraints, name) {
      var j :| 0 <= j < |constraints| && constraints[j].PrimaryKey? && name in Names(constraints[j].columns);
      TableDeclIff(constraints, Names(constraints[j].columns));
      OnlyDecl(columns, constraints, Names(constraints[j].columns));
    }
    if IsTableKey(constraints, name) {
      TableDeclIff(constraints, [name]);
      OnlyDecl(columns, constraints, [name]);
    }
    if name in key {
      var decls := KeyDecls(columns, constraints);
      assert key == decls[0] && decls[0] in decls;
      if key in InlineDecls(columns) {
        InlineDeclFrom(columns, key);
        var k :| 0 <= k < |columns| && DeclaredPrimary(columns[k]) && key == [columns[k].name.value];
        assert columns[k].name.value == name;
        assert k == i;
      } else {
        assert key in TableDecls(constraints);
        TableDeclIff(constraints, key);
      }
    }
  }

  lemma {:induction false} IntegerTypeIff(def: ColumnDef)
    requires MapType(def.dataType).Some?
    ensures NativeColumn(def, Sqlite).dataType == INTEGER_TYPE <==> IntegerInSqlite(def)
  {
    var row := MapType(def.dataType).value;
    assert row.sqlite == "INTEGER" <==> row.marker in {IntegerMarker, BoolMarker} by {
      match def.dataType
      case _ =>
    }
  }

  /** A created column matches exactly when its nullability is followed. */
  lemma {:induction false} CreatedColumnMatches(db: Database, form: TableForm, columns: seq<ColumnDef>,
                                                constraints: seq<TableConstraint>, i: nat)
    requires AllMapped(columns) && |KeyDecls(columns, constraints)| <= 1 && DistinctNames(columns) && i < |columns|
    ensures MatchesColumn(db.backend, ColumnOf(columns[i]),
                          CreatedColumn(db, form, NativeColumns(columns, db.backend)[i], KeyOf(columns, constraints)))
            <==> NullFollowed(db, form, columns[i], constraints)
  {
    var c, native := columns[i], NativeColumn(columns[i], db.backend);
    KeyDecidesIff(db.backend, form, columns, constraints, i);
    MarkerGivesRow(c.dataType);
    assert OptionForbids(db, native) <==> OptionForbids(db, c);
    assert DeclaredNotNull(native) <==> DeclaredNotNull(c);
  }

  /** What the declared key forbids, seen from the catalogue and from the declarations. */
  lemma {:induction false} KeyDecidesIff(b: Backend, form: TableForm, columns: seq<ColumnDef>,
                                         constraints: seq<TableConstraint>, i: nat)
    requires AllMapped(columns) && |KeyDecls(columns, constraints)| <= 1 && DistinctNames(columns) && i < |columns|
    ensures KeyForbidsNull(b, form, KeyOf(columns, constraints), columns[i].name.value,
                           NativeColumn(columns[i], b).dataType)
            <==> KeyDecides(b, form, columns[i], constraints)
  {
    KeyOrigin(columns, constraints, i);
    if b.Sqlite? {
      IntegerTypeIff(columns[i]);
    }
  }

  lemma {:induction false} DeclaresKeyIff(columns: seq<ColumnDef>, constraints: seq<TableConstraint>)
    ensures DeclaresKey(columns, constraints) <==> KeyDecls(columns, constraints) != []
  {
    var decls := KeyDecls(columns, constraints);
    if i :| 0 <= i < |columns| && DeclaredPrimary(columns[i]) {
      InlineDeclOf(columns, i);
    }
    if j :| 0 <= j < |constraints| && constraints[j].PrimaryKey? {
      TableDeclIff(constraints, Names(constraints[j].columns));
    }
    if decls != [] {
      assert decls[0] in InlineDecls(columns) || decls[0] in TableDecls(constraints);
      if decls[0] in InlineDecls(columns) {
        InlineDeclFrom(columns, decls[0]);
      } else {
        TableDeclIff(constraints, decls[0]);
      }
    }
  }

  /** The table an accepted CREATE TABLE adds. */
  function NewTable(db: Database, cat: Tables, name: string, columns: seq<ColumnDef>, constraints: seq<TableConstraint>,
                    form: TableForm): CatTable
  {
    var bare := BareTable(db, name, columns, constraints, form);
    bare.(foreignKeys := WithReferred(cat + [bare], InlineFks(columns) + ConstraintFks(constraints)))
  }

  lemma {:induction false} AcceptedCreate(db: Database, cat: Tables, name: string, columns: seq<ColumnDef>,
                                          constraints: seq<TableConstraint>, form: TableForm)
    requires ExecCreateDeclared(db, cat, name, columns, constraints, form).Some?
    ensures ExecCreateDeclared(db, cat, name, columns, constraints, form).value ==
            cat + [NewTable(db, cat, name, columns, constraints, form)]
    ensures |KeyDecls(columns, constraints)| <= 1
    ensures Distinct(ColumnNames(CreatedColumns(db, form, columns, KeyOf(columns, constraints))))
    ensures KeyDecls(columns, constraints) != [] ==> KeyOf(columns, constraints) != []
  {
  }

  function CreatedModel(name: string, columns: seq<ColumnDef>, constraints: seq<TableConstraint>): ModelTable
    requires AllMapped(columns)
  {
    ModelTable(name, ColumnsOf(columns), KeysOf(columns, constraints), RefsOf(columns, constraints))
  }

  /** What the printed key and the columns need for a created table to match. */
  predicate ShapeFollowed(db: Database, form: TableForm, columns: seq<ColumnDef>, constraints: seq<TableConstraint>) {
    && (DeclaresKey(columns, constraints) || columns == [])
    && forall i :: 0 <= i < |columns| ==> NullFollowed(db, form, columns[i], constraints)
  }

  /** What the model makes of an accepted CREATE TABLE matches exactly when its key and nullability are followed. */
  lemma {:induction false} CreatedTableMatches(db: Database, cat: Tables, name: string, columns: seq<ColumnDef>,
                                               constraints: seq<TableConstraint>, form: TableForm)
    requires AllMapped(columns) && |KeyDecls(columns, constraints)| <= 1 && DistinctNames(columns)
    requires KeyDecls(columns, constraints) != [] ==> KeyOf(columns, constraints) != []
    ensures MatchesTable(db.backend, CreatedModel(name, columns, constraints),
                         NewTable(db, cat, name, NativeColumns(columns, db.backend), constraints, form))
            <==> ShapeFollowed(db, form, columns, constraints)
  {
    var native := NativeColumns(columns, db.backend);
    NativeDecls(columns, db.backend);
    var t := NewTable(db, cat, name, native, constraints, form);
    var fks := InlineFks(columns) + ConstraintFks(constraints);
    SingleKey(columns, constraints);
    AllFksAreRefs(columns, constraints);
    FlatIgnoresReferred(t.foreignKeys, fks);
    ColumnsMatchIff(db, form, columns, constraints);
    DeclaresKeyIff(columns, constraints);
  }

  lemma {:induction false} ColumnsMatchIff(db: Database, form: TableForm, columns: seq<ColumnDef>,
                                           constraints: seq<TableConstraint>)
    requires AllMapped(columns) && |KeyDecls(columns, constraints)| <= 1 && DistinctNames(columns)
    ensures MatchesColumns(db.backend, ColumnsOf(columns),
                           CreatedColumns(db, form, NativeColumns(columns, db.backend), KeyOf(columns, constraints)))
            <==> forall i :: 0 <= i < |columns| ==> NullFollowed(db, form, columns[i], constraints)
  {
    var cols := CreatedColumns(db, form, NativeColumns(columns, db.backend), KeyOf(columns, constraints));
    forall i | 0 <= i < |columns|
      ensures MatchesColumn(db.backend, ColumnsOf(columns)[i], cols[i]) <==>
              NullFollowed(db, form, columns[i], constraints)
    {
      CreatedColumnMatches(db, form, columns, constraints, i);
    }
  }

  lemma {:induction false} NamesAreDistinct(db: Database, form: TableForm, columns: seq<ColumnDef>, key: seq<string>)
    requires AllMapped(columns)
    ensures Distinct(ColumnNames(CreatedColumns(db, form, NativeColumns(columns, db.backend), key))) ==>
            DistinctNames(columns)
  {
    var names := ColumnNames(CreatedColumns(db, form, NativeColumns(columns, db.backend), key));
    assert forall i :: 0 <= i < |columns| ==> names[i] == columns[i].name.value;
  }

  lemma {:induction false} DeclaredStep(db: Database, tables: seq<ModelTable>, cat: Tables, name: string,
                                        columns: seq<ColumnDef>, constraints: seq<TableConstraint>, form: TableForm)
    requires Matches(db.backend, tables, cat) && AllMapped(columns)
    requires ExecCreateDeclared(db, cat, name, NativeColumns(columns, db.backend), constraints, form).Some?
    ensures Matches(db.backend, tables + [CreatedModel(name, columns, constraints)],
                    ExecCreateDeclared(db, cat, name, NativeColumns(columns, db.backend), constraints, form).value)
            <==> ShapeFollowed(db, form, columns, constraints)
  {
    var native := NativeColumns(columns, db.backend);
    AcceptedCreate(db, cat, name, native, constraints, form);
    NativeDecls(columns, db.backend);
    NamesAreDistinct(db, form, columns, KeyOf(columns, constraints));
    CreatedTableMatches(db, cat, name, columns, constraints, form);
    MatchesAppend(db.backend, tables, cat, CreatedModel(name, columns, constraints),
                  NewTable(db, cat, name, native, constraints, form));
  }

  /** When the model follows an accepted CREATE TABLE, among the tables: it is new, and of the declared shape. */
  predicate NewFollowed(db: Database, cat: Tables, name: string, columns: seq<ColumnDef>,
                        constraints: seq<TableConstraint>, form: TableForm, given: seq<CatColumn>)
  {
    CatFind(cat, name).None? && if form.FromQuery? then given == [] else ShapeFollowed(db, form, columns, constraints)
  }

  lemma {:induction false} CreateStep(db: Database, tables: seq<ModelTable>, cat: Tables, name: string,
                                      ifNotExists: bool, columns: seq<ColumnDef>,
                                      constraints: seq<TableConstraint>, form: TableForm,
                                      given: seq<CatColumn>)
    requires Matches(db.backend, tables, cat) && AllMapped(columns)
    requires ExecCreate(db, cat, name, ifNotExists, NativeColumns(columns, db.backend), constraints, form, given).Some?
    ensures Matches(db.backend, tables + [CreatedModel(name, columns, constraints)],
                    ExecCreate(db, cat, name, ifNotExists, NativeColumns(columns, db.backend), constraints, form,
                               given).value)
            <==> NewFollowed(db, cat, name, columns, constraints, form, given)
  {
    if CatFind(cat, name).None? {
      if form.FromQuery? {
        assert NativeColumns(columns, db.backend) == [] ==> columns == [];
        MatchesAppend(db.backend, tables, cat, CreatedModel(name, columns, constraints), CatTable(name, given, [], []));
      } else {
        DeclaredStep(db, tables, cat, name, columns, constraints, form);
      }
    }
  }

  // ----- ALTER TABLE -----

  predicate HasReference(options: seq<ColumnOption>) {
    exists i :: 0 <= i < |options| && options[i].References?
  }

  lemma {:induction false} ReferencesShow(name: string, options: seq<ColumnOption>)
    ensures HasReference(options) <==> OptionFks(name, options) != []
    ensures |Flat(OptionFks(name, options))| == |OptionFks(name, options)|
  {
    if options != [] {
      var n := |options| - 1;
      ReferencesShow(name, options[..n]);
      OptionFksAreRefs(name, options);
      OptionFksAreRefs(name, options[..n]);
      if HasReference(options) && !options[n].References? {
        var i :| 0 <= i < |options| && options[i].References?;
        assert options[..n][i].References?;
      }
    }
  }

  /** An added column must be new, refer to nothing, and leave both the printed key and its own nullability right. */
  predicate AddFollowed(db: Database, m: ModelTable, t: CatTable, def: ColumnDef) {
    && !HasColumn(t, def.name.value)
    && !HasReference(def.options)
    && (DeclaredNotNull(def) || !(OptionForbids(db, def) || DeclaredPrimary(def)))
    && (DeclaredPrimary(def) || m.PrimaryKeyCols() != [])
  }

  lemma {:induction false} AddColumnStep(db: Database, tables: seq<ModelTable>, cat: Tables, k: nat, ifNotExists: bool,
                                         def: ColumnDef)
    requires Matches(db.backend, tables, cat) && k < |cat| && MapType(def.dataType).Some?
    requires ExecAddColumn(db, cat, k, ifNotExists, NativeColumn(def, db.backend)).Some?
    ensures Matches(db.backend, tables[k := Altered(tables[k], AddColumn(ifNotExists, def))],
                    ExecAddColumn(db, cat, k, ifNotExists, NativeColumn(def, db.backend)).value)
            <==> AddFollowed(db, tables[k], cat[k], def)
  {
    var b, m, t := db.backend, tables[k], cat[k];
    assert MatchesTable(b, m, t);
    var m' := Altered(m, AddColumn(ifNotExists, def));
    var next := ExecAddColumn(db, cat, k, ifNotExists, NativeColumn(def, b)).value;
    assert OptionForbids(db, NativeColumn(def, b)) <==> OptionForbids(db, def);
    if HasColumn(t, def.name.value) {
      assert next == cat;
      assert cat[k := t] == cat;
      MatchesUpdate(b, tables, cat, k, m', t);
    } else {
      var t' := next[k];
      assert next == cat[k := t'];
      MatchesUpdate(b, tables, cat, k, m', t');
      AddedTableMatches(db, m, t, cat, def);
    }
  }

  lemma {:induction false} AddedTableMatches(db: Database, m: ModelTable, t: CatTable, cat: Tables, def: ColumnDef)
    requires MatchesTable(db.backend, m, t) && MapType(def.dataType).Some? && !HasColumn(t, def.name.value)
    requires var decls := OptionDecls(def.name.value, def.options); |decls| <= 1 && (decls != [] ==> t.primaryKey == [])
    ensures var decls := OptionDecls(def.name.value, def.options);
            var t' := t.(columns := t.columns + [CatColumn(def.name.value, NativeColumn(def, db.backend).dataType,
                                                           DeclaredNotNull(def) || OptionForbids(db, def) ||
                                                           decls != [])],
                         primaryKey := if decls != [] then decls[0] else t.primaryKey,
                         foreignKeys := t.foreignKeys + WithReferred(cat, OptionFks(def.name.value, def.options)));
            MatchesTable(db.backend, Altered(m, AddColumn(false, def)), t') <==> AddFollowed(db, m, t, def)
  {
    var b, name := db.backend, def.name.value;
    var c := CatColumn(name, NativeColumn(def, b).dataType, DeclaredNotNull(def) || OptionForbids(db, def) ||
                       OptionDecls(name, def.options) != []);
    var added := ModelColumn(name, MapType(def.dataType).value.marker, !DeclaredNotNull(def));
    MatchesColumnsAppend(b, m.columns, t.columns, added, c);
    OptionDeclsAreKeys(name, def.options);
    MarkerGivesRow(def.dataType);
    AddedRefs(t.foreignKeys, cat, name, def.options);
    AddedKey(m, name, added.marker, added.nullable);
  }

  lemma {:induction false} AddedRefs(before: seq<CatKey>, cat: Tables, name: string, options: seq<ColumnOption>)
    ensures Flat(before + WithReferred(cat, OptionFks(name, options))) == Flat(before) <==> !HasReference(options)
  {
    var fks := OptionFks(name, options);
    ReferencesShow(name, options);
    FlatIgnoresReferred(WithReferred(cat, fks), fks);
    FlatAppend(before, WithReferred(cat, fks));
    if fks == [] {
      assert Flat(before) + Flat(fks) == Flat(before);
    }
  }

  /** A further column shows in the printed key only when there was nothing to print before. */
  lemma {:induction false} AddedKey(m: ModelTable, name: string, marker: Marker, nullable: bool)
    ensures m.(columns := m.columns + [ModelColumn(name, marker, nullable)]).PrimaryKeyCols() ==
            if m.PrimaryKeyCols() == [] then [name] else m.PrimaryKeyCols()
  {
  }

  // ----- DROP COLUMN -----

  lemma {:induction false} RetainedMatchesWithout(b: Backend, ms: seq<ModelColumn>, cs: seq<CatColumn>, name: string)
    requires MatchesColumns(b, ms, cs)
    ensures MatchesColumns(b, Retained(ms, name), Without(cs, name))
  {
    if ms != [] {
      var n := |ms| - 1;
      assert MatchesColumn(b, ms[n], cs[n]);
      RetainedMatchesWithout(b, ms[..n], cs[..n], name);
      if ms[n].name != name {
        MatchesColumnsAppend(b, Retained(ms[..n], name), Without(cs[..n], name), ms[n], cs[n]);
      }
    }
  }

  lemma {:induction false} RetainedOfAbsent(columns: seq<ModelColumn>, name: string)
    requires forall i :: 0 <= i < |columns| ==> columns[i].name != name
    ensures Retained(columns, name) == columns
  {
    if columns != [] {
      RetainedOfAbsent(columns[..|columns| - 1], name);
    }
  }

  /** A key over at least one column that disappears with the dropped column. */
  predicate Loses(fk: CatKey, own: bool, table: string, column: string) {
    fk.columns != [] && ((own && column in fk.columns) || RefersTo(fk, table, column))
  }

  lemma {:induction false} KeysLeftIff(fks: seq<CatKey>, own: bool, table: string, column: string)
    ensures |Flat(KeysLeft(fks, own, table, column))| <= |Flat(fks)|
    ensures Flat(KeysLeft(fks, own, table, column)) == Flat(fks) <==>
            forall j :: 0 <= j < |fks| ==> !Loses(fks[j], own, table, column)
    ensures (exists j :: 0 <= j < |fks| && Loses(fks[j], own, table, column)) ==>
            |Flat(KeysLeft(fks, own, table, column))| < |Flat(fks)|
  {
    if fks != [] {
      var n := |fks| - 1;
      var last := fks[n];
      KeysLeftIff(fks[..n], own, table, column);
      assert forall j :: 0 <= j < n ==> fks[..n][j] == fks[j];
      var left := KeysLeft(fks[..n], own, table, column);
      if (own && column in last.columns) || RefersTo(last, table, column) {
        assert KeysLeft(fks, own, table, column) == left;
        assert Loses(last, own, table, column) <==> last.columns != [];
        assert |Flat(fks)| == |Flat(fks[..n])| + |last.columns|;
        if last.columns == [] {
          assert Flat(fks) == Flat(fks[..n]) + [];
        }
      } else {
        assert KeysLeft(fks, own, table, column) == left + [last];
        FlatAppend(left, [last]);
        FlatOne(last);
        assert Flat(fks) == Flat(fks[..n]) + PairsOf(last.columns, last.parent);
        assert !Loses(last, own, table, column);
        if Flat(KeysLeft(fks, own, table, column)) == Flat(fks) {
          assert |Flat(left)| == |Flat(fks[..n])|;
        }
      }
    }
  }

  /**
   PostgreSQL drops the keys a column takes part in along with it, and the model keeps those it has; only a key
   that is printed for want of a declared one goes with its column, when that is the last.
   */
  predicate DropFollowed(b: Backend, m: ModelTable, cat: Tables, k: nat, column: string)
    requires k < |cat|
  {
    b.Postgres? && HasColumn(cat[k], column) ==>
      && (column !in cat[k].primaryKey || (m.primaryKey == [] && Without(cat[k].columns, column) == []))
      && forall i, j :: 0 <= i < |cat| && 0 <= j < |cat[i].foreignKeys| ==>
           !Loses(cat[i].foreignKeys[j], i == k, cat[k].name, column)
  }

  lemma {:induction false} RetainedFirst(columns: seq<ModelColumn>, name: string)
    requires columns != [] && columns[0].name != name
    ensures Retained(columns, name) != [] && Retained(columns, name)[0] == columns[0]
  {
    if |columns| > 1 {
      RetainedFirst(columns[..|columns| - 1], name);
    }
  }

  /** The printed key after a column is gone. */
  lemma {:induction false} RetainedKey(m: ModelTable, name: string)
    ensures var m' := m.(columns := Retained(m.columns, name));
            && (name !in m.PrimaryKeyCols() ==> m'.PrimaryKeyCols() == m.PrimaryKeyCols())
            && (m.primaryKey != [] ==> m'.PrimaryKeyCols() != [])
            && (m.primaryKey == [] ==> (m'.PrimaryKeyCols() == [] <==> m'.columns == []))
  {
    if m.primaryKey == [] && m.columns != [] && m.columns[0].name != name {
      RetainedFirst(m.columns, name);
    }
  }
}
