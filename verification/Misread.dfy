/**
 Changes whose names the database reads otherwise than they are written, so that it looks at one thing and the
 model at another. They still match after such a change only if neither had anything to do.
 */
module Misread {
  import opened Wrappers
  import opened Sql
  import opened SchemaModel
  import opened Rendering
  import opened Catalog
  import opened Simulation
  import opened Written
  import opened Altering

  // ----- CREATE TABLE -----

  lemma {:induction false} MisreadCreate(db: Database, tables: seq<ModelTable>, cat: Tables, written: string,
                                         name: string, ifNotExists: bool, columns: seq<ColumnDef>,
                                         constraints: seq<TableConstraint>, form: TableForm, given: seq<CatColumn>)
    requires Matches(db.backend, tables, cat) && AllMapped(columns) && AllMapped(ReadDefs(db, columns))
    requires !(written == name && TableWritten(db, columns, constraints))
    requires ExecCreate(db, cat, name, ifNotExists, NativeColumns(ReadDefs(db, columns), db.backend),
                        ReadConstraints(db, constraints), form, given).Some?
    ensures !Matches(db.backend, tables + [CreatedModel(written, columns, constraints)],
                     ExecCreate(db, cat, name, ifNotExists, NativeColumns(ReadDefs(db, columns), db.backend),
                                ReadConstraints(db, constraints), form, given).value)
  {
    var m := CreatedModel(written, columns, constraints);
    if CatFind(cat, name).None? {
      if form.FromQuery? {
        assert columns == [] && constraints == [] by {
          assert |NativeColumns(ReadDefs(db, columns), db.backend)| == |columns|;
          assert |ReadConstraints(db, constraints)| == |constraints|;
        }
        assert !MatchesTable(db.backend, m, CatTable(name, given, [], []));
        MatchesAppend(db.backend, tables, cat, m, CatTable(name, given, [], []));
      } else {
        MisreadDeclared(db, tables, cat, written, name, columns, constraints, form);
      }
    }
  }

  lemma {:induction false} MisreadDeclared(db: Database, tables: seq<ModelTable>, cat: Tables, written: string,
                                           name: string,
                                           columns: seq<ColumnDef>, constraints: seq<TableConstraint>, form: TableForm)
    requires Matches(db.backend, tables, cat) && AllMapped(columns) && AllMapped(ReadDefs(db, columns))
    requires !(written == name && TableWritten(db, columns, constraints))
    requires ExecCreateDeclared(db, cat, name, NativeColumns(ReadDefs(db, columns), db.backend),
                                ReadConstraints(db, constraints), form).Some?
    ensures !Matches(db.backend, tables + [CreatedModel(written, columns, constraints)],
                     ExecCreateDeclared(db, cat, name, NativeColumns(ReadDefs(db, columns), db.backend),
                                        ReadConstraints(db, constraints), form).value)
  {
    var native, cons := NativeColumns(ReadDefs(db, columns), db.backend), ReadConstraints(db, constraints);
    var m, t := CreatedModel(written, columns, constraints), NewTable(db, cat, name, native, cons, form);
    AcceptedCreate(db, cat, name, native, cons, form);
    MatchesAppend(db.backend, tables, cat, m, t);
    if MatchesTable(db.backend, m, t) {
      MatchForcesWritten(db, cat, written, name, columns, constraints, form);
    }
  }

  // ----- ALTER TABLE -----

  /** What the model takes from an operation is read as written. */
  predicate OpWritten(db: Database, op: AlterOp) {
    match op
    case AddColumn(_, def) => IdentWritten(db, def.name)
    case DropColumn(_, column, _) => IdentWritten(db, column)
    case AddConstraint(c) => ConstraintWritten(db, c)
    case _ => true
  }

  lemma {:induction false} WrittenOp(db: Database, m: ModelTable, op: AlterOp)
    requires OpWritten(db, op) && OpMapped(op)
    ensures OpMapped(ReadOp(db, op)) && Altered(m, ReadOp(db, op)) == Altered(m, op)
    ensures ReadOp(db, NativeOp(op, db.backend)) == NativeOp(ReadOp(db, op), db.backend)
  {
    match op
    case AddColumn(_, def) => ReadOptionsFlags(db, def.options);
    case AddConstraint(c) =>
      if c.ForeignKey? {
        ReadPairs(db, c.columns, c.parent);
      }
    case _ =>
  }

  lemma {:induction false} FoundStep(db: Database, tables: seq<ModelTable>, cat: Tables, name: string, k: nat,
                                     op: AlterOp)
    requires Matches(db.backend, tables, cat) && OpMapped(op) && OpWritten(db, op) && Find(tables, name) == Some(k)
    requires ExecTableOp(db, cat, k, ReadOp(db, NativeOp(op, db.backend))).Some?
    ensures ApplyOp(tables, name, op).result.Ok?
    ensures Matches(db.backend, ApplyOp(tables, name, op).tables,
                    ExecTableOp(db, cat, k, ReadOp(db, NativeOp(op, db.backend))).value)
            <==> OpFollowed(db, tables[k], cat, k, ReadOp(db, op))
  {
    WrittenOp(db, tables[k], op);
    OpStep(db, tables, cat, k, ReadOp(db, op));
  }

  // ----- The model that takes no notice -----

  /** The model takes the operation and stays as it is: it ignores the kind, or finds nothing to do. */
  predicate ModelIgnores(tables: seq<ModelTable>, name: string, op: AlterOp) {
    match op
    case AddColumn(_, _) => false
    case DropColumn(_, column, _) =>
      (match Find(tables, name)
       case Some(k) => forall i :: 0 <= i < |tables[k].columns| ==> tables[k].columns[i].name != column.value
       case None => true)
    case AddConstraint(c) => c.ForeignKey? && c.columns != [] ==> Find(tables, name).None?
    case _ => true
  }

  lemma {:induction false} ModelIgnoresIff(tables: seq<ModelTable>, name: string, op: AlterOp)
    requires OpMapped(op)
    ensures ModelIgnores(tables, name, op) <==> ApplyOp(tables, name, op) == Outcome(tables, Ok(()))
  {
    if Find(tables, name).Some? {
      var k := Find(tables, name).value;
      assert tables[k := Altered(tables[k], op)][k] == Altered(tables[k], op);
      assert tables[k].foreignKeys + [] == tables[k].foreignKeys;
      if op.DropColumn? {
        RetainedCount(tables[k].columns, op.column.value);
      } else if op.AddConstraint? && op.constraint.ForeignKey? {
        assert |Altered(tables[k], op).foreignKeys| == |tables[k].foreignKeys| + |op.constraint.columns|;
      }
    }
  }

  /** Whether the model changes anything, or refuses, can be seen from the operation and the table it finds. */
  lemma {:induction false} LoudModel(tables: seq<ModelTable>, name: string, op: AlterOp)
    requires OpMapped(op) && ApplyOp(tables, name, op).result.Ok? && ApplyOp(tables, name, op).tables != tables
    ensures Find(tables, name).Some?
    ensures var k := Find(tables, name).value; var m := tables[k];
            && ApplyOp(tables, name, op).tables == tables[k := Altered(m, op)] && Altered(m, op) != m
            && (op.AddColumn? || op.DropColumn? ||
                (op.AddConstraint? && op.constraint.ForeignKey? && op.constraint.columns != []))
  {
    var m := tables[Find(tables, name).value];
    assert m.foreignKeys + [] == m.foreignKeys;
  }

  /** An operation on the table at k leaves the columns of the others alone, and but for a DROP COLUMN all of them. */
  lemma {:induction false} OthersStay(db: Database, cat: Tables, k: nat, op: AlterOp, i: nat)
    requires k < |cat| && i < |cat| && i != k && ExecTableOp(db, cat, k, op).Some?
    requires op.AddColumn? || op.DropColumn? || op.AddConstraint?
    ensures |ExecTableOp(db, cat, k, op).value| == |cat| &&
            ExecTableOp(db, cat, k, op).value[i].columns == cat[i].columns
    ensures !op.DropColumn? ==> ExecTableOp(db, cat, k, op).value[i] == cat[i]
  {
  }

  lemma {:induction false} RetainedCount(columns: seq<ModelColumn>, name: string)
    ensures |Retained(columns, name)| <= |columns|
    ensures |Retained(columns, name)| == |columns| ==> Retained(columns, name) == columns
    ensures Retained(columns, name) == columns <==> forall i :: 0 <= i < |columns| ==> columns[i].name != name
  {
    if columns != [] {
      var n := |columns| - 1;
      RetainedCount(columns[..n], name);
      assert forall i :: 0 <= i < n ==> columns[..n][i] == columns[i];
      assert columns == columns[..n] + [columns[n]];
    }
  }

  /** Where the model's table is not the database's, a change of the model's table shows no counterpart there. */
  lemma {:induction false} LoudElsewhere(db: Database, tables: seq<ModelTable>, cat: Tables, i: nat, next: Tables,
                                         op: AlterOp)
    requires Matches(db.backend, tables, cat) && i < |cat| && |next| == |cat| && next[i].columns == cat[i].columns
    requires OpMapped(op) && Altered(tables[i], op) != tables[i]
    requires op.AddColumn? || op.DropColumn? || (op.AddConstraint? && next[i] == cat[i])
    ensures !Matches(db.backend, tables[i := Altered(tables[i], op)], next)
  {
    var m, t := tables[i], cat[i];
    assert MatchesTable(db.backend, m, t);
    assert tables[i := Altered(m, op)][i] == Altered(m, op);
    if op.DropColumn? {
      RetainedCount(m.columns, op.column.value);
    } else if op.AddConstraint? && op.constraint.ForeignKey? {
      assert Altered(m, op).foreignKeys != m.foreignKeys;
    }
  }

  lemma {:induction false} MisreadOpHere(db: Database, tables: seq<ModelTable>, cat: Tables, k: nat, op: AlterOp)
    requires Matches(db.backend, tables, cat) && k < |cat| && OpMapped(op) && !OpWritten(db, op)
    requires Altered(tables[k], op) != tables[k]
    requires ExecTableOp(db, cat, k, ReadOp(db, NativeOp(op, db.backend))).Some?
    ensures !Matches(db.backend, tables[k := Altered(tables[k], op)],
                     ExecTableOp(db, cat, k, ReadOp(db, NativeOp(op, db.backend))).value)
  {
    var m, m' := tables[k], Altered(tables[k], op);
    var next := ExecTableOp(db, cat, k, ReadOp(db, NativeOp(op, db.backend))).value;
    assert MatchesTable(db.backend, m, cat[k]);
    assert tables[k := m'][k] == m';
    match op
    case AddColumn(ifNotExists, def) => MisreadAddHere(db, m, cat, k, ifNotExists, def);
    case DropColumn(ifExists, column, cascade) => MisreadDropHere(db, m, cat, k, ifExists, column, cascade);
    case AddConstraint(c) =>
      assert c.ForeignKey?;
      MisreadKey(db, cat, k, m, c);
    case _ =>
  }

  lemma {:induction false} MisreadAddHere(db: Database, m: ModelTable, cat: Tables, k: nat, ifNotExists: bool,
                                          def: ColumnDef)
    requires k < |cat| && MatchesTable(db.backend, m, cat[k]) && MapType(def.dataType).Some?
    requires !IdentWritten(db, def.name)
    requires ExecAddColumn(db, cat, k, ifNotExists, ReadDef(db, NativeColumn(def, db.backend))).Some?
    ensures var next := ExecAddColumn(db, cat, k, ifNotExists, ReadDef(db, NativeColumn(def, db.backend))).value;
            k < |next| && !MatchesTable(db.backend, Altered(m, AddColumn(ifNotExists, def)), next[k])
  {
    var next := ExecAddColumn(db, cat, k, ifNotExists, ReadDef(db, NativeColumn(def, db.backend))).value;
    MisreadAdd(db.backend, m, cat[k], Altered(m, AddColumn(ifNotExists, def)), next[k], def, db.readAs(def.name));
  }

  /** The table keeps its columns, if it has none of the name, or loses just those of it. */
  lemma {:induction false} DroppedColumns(b: Backend, cat: Tables, k: nat, ifExists: bool, name: string, cascade: bool)
    requires k < |cat| && ExecDropColumn(b, cat, k, ifExists, name, cascade).Some?
    ensures var next := ExecDropColumn(b, cat, k, ifExists, name, cascade).value;
            k < |next| && (next[k].columns == cat[k].columns || next[k].columns == Without(cat[k].columns, name))
  {
  }

  lemma {:induction false} MisreadDropHere(db: Database, m: ModelTable, cat: Tables, k: nat, ifExists: bool,
                                           column: Ident, cascade: bool)
    requires k < |cat| && MatchesTable(db.backend, m, cat[k]) && !IdentWritten(db, column)
    requires Retained(m.columns, column.value) != m.columns
    requires ExecDropColumn(db.backend, cat, k, ifExists, db.readAs(column), cascade).Some?
    ensures var next := ExecDropColumn(db.backend, cat, k, ifExists, db.readAs(column), cascade).value;
            k < |next| && !MatchesTable(db.backend, Altered(m, DropColumn(ifExists, column, cascade)), next[k])
  {
    var next := ExecDropColumn(db.backend, cat, k, ifExists, db.readAs(column), cascade).value;
    DroppedColumns(db.backend, cat, k, ifExists, db.readAs(column), cascade);
    MisreadDrop(db.backend, m, cat[k], next[k], column.value, db.readAs(column));
  }

  lemma {:induction false} MisreadAdd(b: Backend, m: ModelTable, t: CatTable, m': ModelTable, t': CatTable,
                                      def: ColumnDef, name: string)
    requires MatchesTable(b, m, t) && |m'.columns| == |m.columns| + 1
    requires m'.columns[|m.columns|].name == def.name.value != name
    requires t'.columns == t.columns || (|t'.columns| == |t.columns| + 1 && t'.columns[|t.columns|].name == name)
    ensures !MatchesTable(b, m', t')
  {
    if |m'.columns| == |t'.columns| {
      assert !MatchesColumn(b, m'.columns[|m.columns|], t'.columns[|m.columns|]);
    }
  }

  lemma {:induction false} MisreadDrop(b: Backend, m: ModelTable, t: CatTable, t': CatTable, written: string,
                                       name: string)
    requires MatchesTable(b, m, t) && written != name && Retained(m.columns, written) != m.columns
    requires t'.columns == t.columns || t'.columns == Without(t.columns, name)
    ensures !MatchesColumns(b, Retained(m.columns, written), t'.columns)
  {
    RetainedCount(m.columns, written);
    var j :| 0 <= j < |m.columns| && m.columns[j].name == written;
    assert MatchesColumn(b, m.columns[j], t.columns[j]);
    WithoutKeepsOthers(t.columns, name, j);
    LacksColumn(b, m.columns, written, t'.columns, t.columns[j]);
  }

  lemma {:induction false} LacksColumn(b: Backend, ms: seq<ModelColumn>, written: string, cs: seq<CatColumn>,
                                       c: CatColumn)
    requires c in cs && c.name == written
    ensures !MatchesColumns(b, Retained(ms, written), cs)
  {
    var i :| 0 <= i < |cs| && cs[i] == c;
    if i < |Retained(ms, written)| {
      RetainedLacks(ms, written, i);
      assert !MatchesColumn(b, Retained(ms, written)[i], cs[i]);
    }
  }

  lemma {:induction false} WithoutKeepsOthers(columns: seq<CatColumn>, name: string, j: nat)
    requires j < |columns| && columns[j].name != name
    ensures columns[j] in Without(columns, name) && columns[j] in columns
  {
    var n := |columns| - 1;
    if j < n {
      WithoutKeepsOthers(columns[..n], name, j);
    }
  }

  lemma {:induction false} RetainedLacks(columns: seq<ModelColumn>, name: string, i: nat)
    requires i < |Retained(columns, name)|
    ensures Retained(columns, name)[i].name != name
  {
    var n := |columns| - 1;
    if i < |Retained(columns[..n], name)| {
      RetainedLacks(columns[..n], name, i);
    }
  }

  lemma {:induction false} MisreadKey(db: Database, cat: Tables, k: nat, m: ModelTable, c: TableConstraint)
    requires k < |cat| && m.foreignKeys == Flat(cat[k].foreignKeys) && c.ForeignKey? && !ConstraintWritten(db, c)
    requires ExecAddConstraint(db.backend, cat, k, ReadConstraint(db, c)).Some?
    ensures var next := ExecAddConstraint(db.backend, cat, k, ReadConstraint(db, c)).value;
            k < |next| && m.foreignKeys + Pairs(c.columns, LastIdent(c.parent)) != Flat(next[k].foreignKeys)
  {
    var read := ReadConstraint(db, c);
    ReadPairs(db, c.columns, c.parent);
    AddForeignKey(db.backend, cat, k, read);
    EqualParts(m.foreignKeys, Flat(cat[k].foreignKeys), Pairs(c.columns, LastIdent(c.parent)),
               Pairs(read.columns, LastIdent(read.parent)));
  }
}
