/**
 Names the database reads as they are written, and names it reads otherwise (case-folded, or freed of quotes).
 The model keeps the written form, so a CREATE TABLE can only match when every name that shows is read as written.
 */
module Written {
  import opened Sql
  import opened SchemaModel
  import opened Rendering
  import opened Catalog
  import opened Simulation

  predicate IdentWritten(db: Database, id: Ident) {
    db.readAs(id) == id.value
  }

  predicate IdentsWritten(db: Database, ids: seq<Ident>) {
    forall i :: 0 <= i < |ids| ==> IdentWritten(db, ids[i])
  }

  predicate NameWritten(db: Database, name: ObjectName) {
    name != [] ==> IdentWritten(db, name[|name| - 1])
  }

  predicate ReferencesWritten(db: Database, options: seq<ColumnOption>) {
    forall i :: 0 <= i < |options| && options[i].References? ==> NameWritten(db, options[i].parent)
  }

  predicate DefWritten(db: Database, def: ColumnDef) {
    IdentWritten(db, def.name) && ReferencesWritten(db, def.options)
  }

  /** The columns of a key, and the parent it leads to if it has any columns. */
  predicate ConstraintWritten(db: Database, c: TableConstraint) {
    match c
    case PrimaryKey(columns) => IdentsWritten(db, columns)
    case ForeignKey(columns, parent, _) => IdentsWritten(db, columns) && (columns != [] ==> NameWritten(db, parent))
    case UniqueOrCheck(_) => true
  }

  predicate TableWritten(db: Database, columns: seq<ColumnDef>, constraints: seq<TableConstraint>) {
    && DefsWritten(db, columns)
    && forall i :: 0 <= i < |constraints| ==> ConstraintWritten(db, constraints[i])
  }

  // ----- Reading keeps the outline -----

  lemma {:induction false} ReadNative(db: Database, columns: seq<ColumnDef>, b: Backend)
    requires AllMapped(columns)
    ensures AllMapped(ReadDefs(db, columns))
    ensures ReadDefs(db, NativeColumns(columns, b)) == NativeColumns(ReadDefs(db, columns), b)
  {
  }

  lemma {:induction false} ReadLastName(db: Database, name: ObjectName)
    ensures LastIdent(ReadName(db, name)) == if name == [] then "" else db.readAs(name[|name| - 1])
    ensures NameWritten(db, name) <==> LastIdent(ReadName(db, name)) == LastIdent(name)
  {
  }

  lemma {:induction false} ReadPairs(db: Database, ids: seq<Ident>, parent: ObjectName)
    ensures Pairs(ReadIdents(db, ids), LastIdent(ReadName(db, parent))) == Pairs(ids, LastIdent(parent)) <==>
            IdentsWritten(db, ids) && (ids != [] ==> NameWritten(db, parent))
  {
    var x, y := Pairs(ReadIdents(db, ids), LastIdent(ReadName(db, parent))), Pairs(ids, LastIdent(parent));
    ReadLastName(db, parent);
    if x == y {
      forall i | 0 <= i < |ids|
        ensures IdentWritten(db, ids[i])
      {
        assert x[i] == y[i];
      }
      if ids != [] {
        assert x[0] == y[0];
      }
    }
  }

  lemma {:induction false} OptionRefsRead(db: Database, name: Ident, options: seq<ColumnOption>)
    ensures |OptionRefs(db.readAs(name), OptionsAsRead(db, options))| == |OptionRefs(name.value, options)|
    ensures IdentWritten(db, name) ==>
            (OptionRefs(db.readAs(name), OptionsAsRead(db, options)) == OptionRefs(name.value, options) <==>
             ReferencesWritten(db, options))
  {
    if options != [] {
      var n := |options| - 1;
      OptionRefsRead(db, name, options[..n]);
      assert OptionsAsRead(db, options)[..n] == OptionsAsRead(db, options[..n]);
      LastRead(db, options[n]);
      assert ReferencesWritten(db, options) <==>
             ReferencesWritten(db, options[..n]) && ReferencesWritten(db, [options[n]]) by {
        SplitOptions(db, options);
      }
      EqualParts(OptionRefs(db.readAs(name), OptionsAsRead(db, options[..n])), OptionRefs(name.value, options[..n]),
                 OneRef(db.readAs(name), ReadOption(db, options[n])), OneRef(name.value, options[n]));
    }
  }

  function OneRef(name: string, o: ColumnOption): seq<(string, string)> {
    match o
    case References(parent, _) => [(name, LastIdent(parent))]
    case _ => []
  }

  lemma {:induction false} LastRead(db: Database, o: ColumnOption)
    ensures forall name :: OneRef(name, ReadOption(db, o)) == OneRef(name, o) <==> ReferencesWritten(db, [o])
  {
    if o.References? {
      ReadLastName(db, o.parent);
      assert ReferencesWritten(db, [o]) <==> NameWritten(db, [o][0].parent);
      forall name: string
        ensures OneRef(name, ReadOption(db, o)) == OneRef(name, o) <==> NameWritten(db, o.parent)
      {
        assert OneRef(name, o)[0].1 == LastIdent(o.parent);
        assert OneRef(name, ReadOption(db, o))[0].1 == LastIdent(ReadName(db, o.parent));
      }
    }
  }

  lemma {:induction false} SplitOptions(db: Database, options: seq<ColumnOption>)
    requires options != []
    ensures var n := |options| - 1;
            ReferencesWritten(db, options) <==>
                ReferencesWritten(db, options[..n]) && ReferencesWritten(db, [options[n]])
  {
    var n := |options| - 1;
    assert forall i :: 0 <= i < n ==> options[..n][i] == options[i];
    assert [options[n]][0] == options[n];
  }

  /** Two concatenations with parts of equal length agree exactly part by part. */
  lemma {:induction false} EqualParts<T>(a: seq<T>, b: seq<T>, x: seq<T>, y: seq<T>)
    requires |a| == |b|
    ensures a + x == b + y <==> a == b && x == y
  {
    if a + x == b + y {
      assert (a + x)[..|a|] == a && (b + y)[..|b|] == b;
      assert (a + x)[|a|..] == x && (b + y)[|b|..] == y;
    }
  }

  predicate DefsWritten(db: Database, columns: seq<ColumnDef>) {
    forall i :: 0 <= i < |columns| ==> DefWritten(db, columns[i])
  }

  predicate ColumnNamesWritten(db: Database, columns: seq<ColumnDef>) {
    forall i :: 0 <= i < |columns| ==> IdentWritten(db, columns[i].name)
  }

  lemma {:induction false} SplitDefs(db: Database, columns: seq<ColumnDef>)
    requires columns != []
    ensures var n := |columns| - 1;
            && (DefsWritten(db, columns) <==> DefsWritten(db, columns[..n]) && DefWritten(db, columns[n]))
            && (ColumnNamesWritten(db, columns) <==>
                ColumnNamesWritten(db, columns[..n]) && IdentWritten(db, columns[n].name))
  {
    var n := |columns| - 1;
    assert forall i :: 0 <= i < n ==> columns[..n][i] == columns[i];
  }

  lemma {:induction false} InlineRefsRead(db: Database, columns: seq<ColumnDef>)
    requires ColumnNamesWritten(db, columns)
    ensures |InlineRefs(ReadDefs(db, columns))| == |InlineRefs(columns)|
    ensures InlineRefs(ReadDefs(db, columns)) == InlineRefs(columns) <==> DefsWritten(db, columns)
  {
    if columns != [] {
      var n := |columns| - 1;
      var init, c := columns[..n], columns[n];
      assert columns == init + [c];
      SplitDefs(db, columns);
      InlineRefsRead(db, init);
      InlineRefsStep(db, init, c);
    }
  }

  lemma {:induction false} InlineRefsStep(db: Database, init: seq<ColumnDef>, c: ColumnDef)
    requires IdentWritten(db, c.name)
    requires |InlineRefs(ReadDefs(db, init))| == |InlineRefs(init)|
    ensures |InlineRefs(ReadDefs(db, init + [c]))| == |InlineRefs(init + [c])|
    ensures InlineRefs(ReadDefs(db, init + [c])) == InlineRefs(init + [c]) <==>
            InlineRefs(ReadDefs(db, init)) == InlineRefs(init) && DefWritten(db, c)
  {
    InlineRefsSnoc(init, c);
    InlineRefsSnoc(ReadDefs(db, init), ReadDef(db, c));
    assert ReadDefs(db, init + [c]) == ReadDefs(db, init) + [ReadDef(db, c)];
    OptionRefsRead(db, c.name, c.options);
    EqualParts(InlineRefs(ReadDefs(db, init)), InlineRefs(init),
               OptionRefs(db.readAs(c.name), OptionsAsRead(db, c.options)), OptionRefs(c.name.value, c.options));
  }

  lemma {:induction false} InlineRefsSnoc(init: seq<ColumnDef>, c: ColumnDef)
    ensures InlineRefs(init + [c]) == InlineRefs(init) + OptionRefs(c.name.value, c.options)
  {
    assert (init + [c])[..|init|] == init;
  }

  predicate ForeignKeysWritten(db: Database, constraints: seq<TableConstraint>) {
    forall i :: 0 <= i < |constraints| && constraints[i].ForeignKey? ==> ConstraintWritten(db, constraints[i])
  }

  function ConstraintRefs(c: TableConstraint): seq<(string, string)> {
    match c
    case ForeignKey(ids, parent, _) => Pairs(ids, LastIdent(parent))
    case _ => []
  }

  lemma {:induction false} RefsSnoc(columns: seq<ColumnDef>, init: seq<TableConstraint>, c: TableConstraint)
    ensures RefsOf(columns, init + [c]) == RefsOf(columns, init) + ConstraintRefs(c)
  {
    assert (init + [c])[..|init|] == init;
  }

  lemma {:induction false} ConstraintRefsRead(db: Database, c: TableConstraint)
    ensures |ConstraintRefs(ReadConstraint(db, c))| == |ConstraintRefs(c)|
    ensures ConstraintRefs(ReadConstraint(db, c)) == ConstraintRefs(c) <==> (c.ForeignKey? ==> ConstraintWritten(db, c))
  {
    if c.ForeignKey? {
      ReadPairs(db, c.columns, c.parent);
    }
  }

  lemma {:induction false} SplitForeignKeys(db: Database, init: seq<TableConstraint>, c: TableConstraint)
    ensures ForeignKeysWritten(db, init + [c]) <==>
            ForeignKeysWritten(db, init) && (c.ForeignKey? ==> ConstraintWritten(db, c))
  {
    assert forall i :: 0 <= i < |init| ==> (init + [c])[i] == init[i];
    assert (init + [c])[|init|] == c;
  }

  lemma {:induction false} RefsRead(db: Database, columns: seq<ColumnDef>, constraints: seq<TableConstraint>)
    requires ColumnNamesWritten(db, columns)
    ensures |RefsOf(ReadDefs(db, columns), ReadConstraints(db, constraints))| == |RefsOf(columns, constraints)|
    ensures RefsOf(ReadDefs(db, columns), ReadConstraints(db, constraints)) == RefsOf(columns, constraints) <==>
            DefsWritten(db, columns) && ForeignKeysWritten(db, constraints)
  {
    if constraints == [] {
      InlineRefsRead(db, columns);
    } else {
      var n := |constraints| - 1;
      var init, last := constraints[..n], constraints[n];
      assert constraints == init + [last];
      RefsRead(db, columns, init);
      assert ReadConstraints(db, init + [last]) == ReadConstraints(db, init) + [ReadConstraint(db, last)];
      RefsSnoc(columns, init, last);
      RefsSnoc(ReadDefs(db, columns), ReadConstraints(db, init), ReadConstraint(db, last));
      ConstraintRefsRead(db, last);
      SplitForeignKeys(db, init, last);
      EqualParts(RefsOf(ReadDefs(db, columns), ReadConstraints(db, init)), RefsOf(columns, init),
                 ConstraintRefs(ReadConstraint(db, last)), ConstraintRefs(last));
    }
  }

  // ----- Keys -----

  lemma {:induction false} OptionKeysRead(db: Database, name: Ident, options: seq<ColumnOption>)
    ensures |OptionKeys(db.readAs(name), OptionsAsRead(db, options))| == |OptionKeys(name.value, options)|
    ensures IdentWritten(db, name) ==>
              OptionKeys(db.readAs(name), OptionsAsRead(db, options)) == OptionKeys(name.value, options)
  {
    if options != [] {
      var n := |options| - 1;
      OptionKeysRead(db, name, options[..n]);
      assert OptionsAsRead(db, options)[..n] == OptionsAsRead(db, options[..n]);
    }
  }

  lemma {:induction false} InlineKeysRead(db: Database, columns: seq<ColumnDef>)
    requires forall i :: 0 <= i < |columns| ==> IdentWritten(db, columns[i].name)
    ensures InlineKeys(ReadDefs(db, columns)) == InlineKeys(columns)
  {
    if columns != [] {
      var n := |columns| - 1;
      assert forall i :: 0 <= i < n ==> columns[..n][i] == columns[i];
      InlineKeysRead(db, columns[..n]);
      assert ReadDefs(db, columns)[..n] == ReadDefs(db, columns[..n]);
      OptionKeysRead(db, columns[n].name, columns[n].options);
    }
  }

  lemma {:induction false} IdentsRead(db: Database, ids: seq<Ident>)
    ensures Names(ReadIdents(db, ids)) == Names(ids) <==> IdentsWritten(db, ids)
  {
    if Names(ReadIdents(db, ids)) == Names(ids) {
      forall i | 0 <= i < |ids|
        ensures IdentWritten(db, ids[i])
      {
        assert Names(ReadIdents(db, ids))[i] == Names(ids)[i];
      }
    }
  }

  lemma {:induction false} KeysRead(db: Database, columns: seq<ColumnDef>, constraints: seq<TableConstraint>)
    requires TableWritten(db, columns, constraints)
    ensures KeysOf(ReadDefs(db, columns), ReadConstraints(db, constraints)) == KeysOf(columns, constraints)
  {
    if constraints == [] {
      InlineKeysRead(db, columns);
    } else {
      var n := |constraints| - 1;
      assert forall i :: 0 <= i < n ==> constraints[..n][i] == constraints[i];
      assert ConstraintWritten(db, constraints[n]);
      assert ReadConstraints(db, constraints)[..n] == ReadConstraints(db, constraints[..n]);
      if constraints[n].PrimaryKey? {
        IdentsRead(db, constraints[n].columns);
      } else {
        KeysRead(db, columns, constraints[..n]);
      }
    }
  }

  /** The same table, whether the names are read or taken as written. */
  lemma {:induction false} WrittenModel(db: Database, name: string, columns: seq<ColumnDef>,
                                        constraints: seq<TableConstraint>)
    requires AllMapped(columns) && TableWritten(db, columns, constraints)
    ensures AllMapped(ReadDefs(db, columns))
    ensures CreatedModel(name, ReadDefs(db, columns), ReadConstraints(db, constraints)) ==
            CreatedModel(name, columns, constraints)
  {
    assert forall i :: 0 <= i < |columns| ==> DefWritten(db, columns[i]);
    assert forall i :: 0 <= i < |constraints| ==> ConstraintWritten(db, constraints[i]);
    RefsRead(db, columns, constraints);
    KeysRead(db, columns, constraints);
    SameColumnsRead(db, columns);
  }

  lemma {:induction false} SameColumnsRead(db: Database, columns: seq<ColumnDef>)
    requires AllMapped(columns) && forall i :: 0 <= i < |columns| ==> IdentWritten(db, columns[i].name)
    ensures AllMapped(ReadDefs(db, columns)) && ColumnsOf(ReadDefs(db, columns)) == ColumnsOf(columns)
  {
    forall i | 0 <= i < |columns|
      ensures ColumnOf(ReadDef(db, columns[i])) == ColumnOf(columns[i])
    {
      ReadOptionsFlags(db, columns[i].options);
    }
  }

  /** Reading changes no flag of a column. */
  lemma {:induction false} ReadOptionsFlags(db: Database, options: seq<ColumnOption>)
    ensures NotNull in OptionsAsRead(db, options) <==> NotNull in options
    ensures Unique(true) in OptionsAsRead(db, options) <==> Unique(true) in options
  {
    var r := OptionsAsRead(db, options);
    assert forall i :: 0 <= i < |options| ==>
      (options[i] == NotNull <==> r[i] == NotNull) && (options[i] == Unique(true) <==> r[i] == Unique(true));
    if NotNull in options {
      var i :| 0 <= i < |options| && options[i] == NotNull;
      assert r[i] == NotNull;
    }
    if Unique(true) in options {
      var i :| 0 <= i < |options| && options[i] == Unique(true);
      assert r[i] == Unique(true);
    }
  }

  // ----- A match forces the names -----

  lemma {:induction false} DeclsRead(db: Database, columns: seq<ColumnDef>, constraints: seq<TableConstraint>)
    ensures |KeyDecls(ReadDefs(db, columns), ReadConstraints(db, constraints))| == |KeyDecls(columns, constraints)|
  {
    InlineDeclsLength(db, columns);
    TableDeclsLength(db, constraints);
  }

  lemma {:induction false} InlineDeclsLength(db: Database, columns: seq<ColumnDef>)
    ensures |InlineDecls(ReadDefs(db, columns))| == |InlineDecls(columns)|
  {
    if columns != [] {
      var n := |columns| - 1;
      InlineDeclsLength(db, columns[..n]);
      assert ReadDefs(db, columns)[..n] == ReadDefs(db, columns[..n]);
      OptionKeysRead(db, columns[n].name, columns[n].options);
      OptionDeclsAreKeys(columns[n].name.value, columns[n].options);
      OptionDeclsAreKeys(db.readAs(columns[n].name), OptionsAsRead(db, columns[n].options));
    }
  }

  lemma {:induction false} TableDeclsLength(db: Database, constraints: seq<TableConstraint>)
    ensures |TableDecls(ReadConstraints(db, constraints))| == |TableDecls(constraints)|
  {
    if constraints != [] {
      var n := |constraints| - 1;
      TableDeclsLength(db, constraints[..n]);
      assert ReadConstraints(db, constraints)[..n] == ReadConstraints(db, constraints[..n]);
    }
  }

  /** With one key declared, a table-level key is the key. */
  lemma {:induction false} TheTableKey(columns: seq<ColumnDef>, constraints: seq<TableConstraint>, j: nat)
    requires |KeyDecls(columns, constraints)| <= 1 && j < |constraints| && constraints[j].PrimaryKey?
    ensures KeyOf(columns, constraints) == KeysOf(columns, constraints) == Names(constraints[j].columns)
  {
    TableDeclIff(constraints, Names(constraints[j].columns));
    OnlyDecl(columns, constraints, Names(constraints[j].columns));
    SingleKey(columns, constraints);
  }

  /**
   Where the model, which keeps the written names, matches the table the database made of the names it read, all
   names that show were read as written.
   */
  lemma {:induction false} MatchForcesWritten(db: Database, cat: Tables, name: string, readName: string,
                                              columns: seq<ColumnDef>, constraints: seq<TableConstraint>,
                                                  form: TableForm)
    requires AllMapped(columns) && AllMapped(ReadDefs(db, columns))
    requires ExecCreateDeclared(db, cat, readName, NativeColumns(ReadDefs(db, columns), db.backend),
                                ReadConstraints(db, constraints), form).Some?
    requires MatchesTable(db.backend, CreatedModel(name, columns, constraints),
                          NewTable(db, cat, readName, NativeColumns(ReadDefs(db, columns), db.backend),
                                   ReadConstraints(db, constraints), form))
    ensures name == readName && TableWritten(db, columns, constraints)
  {
    var b, read, cons := db.backend, ReadDefs(db, columns), ReadConstraints(db, constraints);
    var m, t := CreatedModel(name, columns, constraints),
        NewTable(db, cat, readName, NativeColumns(read, b), cons, form);
    AcceptedCreate(db, cat, readName, NativeColumns(read, b), cons, form);
    NativeDecls(read, b);
    forall i | 0 <= i < |columns|
      ensures IdentWritten(db, columns[i].name)
    {
      assert MatchesColumn(b, m.columns[i], t.columns[i]);
    }
    AllFksAreRefs(read, cons);
    FlatIgnoresReferred(t.foreignKeys, InlineFks(read) + ConstraintFks(cons));
    RefsRead(db, columns, constraints);
    forall j | 0 <= j < |constraints|
      ensures ConstraintWritten(db, constraints[j])
    {
      if constraints[j].PrimaryKey? {
        assert cons[j].PrimaryKey?;
        DeclaresKeyIff(read, cons);
        KeyForced(db, m, t, columns, constraints, j);
      }
    }
  }

  lemma {:induction false} KeyForced(db: Database, m: ModelTable, t: CatTable, columns: seq<ColumnDef>,
                                     constraints: seq<TableConstraint>, j: nat)
    requires j < |constraints| && constraints[j].PrimaryKey?
    requires |KeyDecls(ReadDefs(db, columns), ReadConstraints(db, constraints))| <= 1
    requires m.primaryKey == KeysOf(columns, constraints) && m.PrimaryKeyCols() == t.primaryKey
    requires t.primaryKey == KeyOf(ReadDefs(db, columns), ReadConstraints(db, constraints)) != []
    ensures IdentsWritten(db, constraints[j].columns)
  {
    DeclsRead(db, columns, constraints);
    TheTableKey(columns, constraints, j);
    TheTableKey(ReadDefs(db, columns), ReadConstraints(db, constraints), j);
    assert Names(ReadIdents(db, constraints[j].columns)) == t.primaryKey;
    assert |Names(constraints[j].columns)| == |t.primaryKey|;
    IdentsRead(db, constraints[j].columns);
  }
}
