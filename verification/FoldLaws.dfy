/**
 The fold treats tables independently: what becomes of a table depends only on the statements naming it.
 */
module FoldLaws {
  import opened Wrappers
  import opened Sql
  import opened SchemaModel
  import opened Rendering

  /** The table a statement is about, if it is about one. */
  function TargetOf(s: Statement): Option<string> {
    match s
    case CreateTable(name, _, _, _, _, _) => Some(LastIdent(name))
    case AlterTable(name, _, _) => Some(LastIdent(name))
    case _ => None
  }

  /** The tables of one name. */
  function Named(tables: seq<ModelTable>, name: string): seq<ModelTable> {
    if tables == [] then []
    else (if tables[0].name == name then [tables[0]] else []) + Named(tables[1..], name)
  }

  /** The statements about one name. */
  function Only(statements: seq<Statement>, name: string): seq<Statement> {
    if statements == [] then []
    else (if TargetOf(statements[0]) == Some(name) then [statements[0]] else []) + Only(statements[1..], name)
  }

  lemma {:induction false} NamedAppend(a: seq<ModelTable>, b: seq<ModelTable>, name: string)
    ensures Named(a + b, name) == Named(a, name) + Named(b, name)
  {
    if a == [] {
      assert a + b == b;
    } else {
      assert (a + b)[1..] == a[1..] + b;
      NamedAppend(a[1..], b, name);
    }
  }

  /** The first table of a name heads its projection, and updating it there is updating it in place. */
  lemma {:induction false} FindInNamed(tables: seq<ModelTable>, name: string, t: ModelTable)
    requires t.name == name
    ensures Find(tables, name).None? ==> Named(tables, name) == []
    ensures Find(tables, name).Some? ==>
      var k := Find(tables, name).value;
      && Named(tables, name) != [] && Named(tables, name)[0] == tables[k]
      && Named(tables[k := t], name) == Named(tables, name)[0 := t]
  {
    if tables != [] && tables[0].name != name {
      FindInNamed(tables[1..], name, t);
      if Find(tables, name).Some? {
        var k := Find(tables, name).value;
        assert tables[k := t][1..] == tables[1..][k - 1 := t];
      }
    } else if tables != [] {
      assert tables[0 := t][1..] == tables[1..];
    }
  }

  lemma {:induction false} UpdateElsewhere(tables: seq<ModelTable>, k: nat, t: ModelTable, name: string)
    requires k < |tables| && tables[k].name == t.name != name
    ensures Named(tables[k := t], name) == Named(tables, name)
  {
    if k == 0 {
      assert tables[0 := t][1..] == tables[1..];
    } else {
      assert tables[k := t][1..] == tables[1..][k - 1 := t];
      UpdateElsewhere(tables[1..], k - 1, t, name);
    }
  }

  lemma {:induction false} AlteredKeepsName(t: ModelTable, op: AlterOp)
    ensures Altered(t, op).name == t.name
  {
  }

  lemma {:induction false} OpOnItsTable(tables: seq<ModelTable>, name: string, op: AlterOp)
    ensures var whole, part := ApplyOp(tables, name, op), ApplyOp(Named(tables, name), name, op);
            whole.result == part.result && Named(whole.tables, name) == part.tables
  {
    var found := Find(tables, name);
    match found
    case Some(k) =>
      AlteredKeepsName(tables[k], op);
      FindInNamed(tables, name, Altered(tables[k], op));
      assert Find(Named(tables, name), name) == Some(0);
    case None =>
      FindInNamed(tables, name, ModelTable(name, [], [], []));
  }

  lemma {:induction false} OpElsewhere(tables: seq<ModelTable>, name: string, op: AlterOp, other: string)
    requires other != name
    ensures Named(ApplyOp(tables, name, op).tables, other) == Named(tables, other)
  {
    match Find(tables, name)
    case Some(k) =>
      AlteredKeepsName(tables[k], op);
      UpdateElsewhere(tables, k, Altered(tables[k], op), other);
    case None =>
  }

  lemma {:induction false} OpsOnTheirTable(tables: seq<ModelTable>, name: string, ops: seq<AlterOp>)
    ensures var whole, part := ApplyOps(tables, name, ops), ApplyOps(Named(tables, name), name, ops);
            whole.result == part.result && Named(whole.tables, name) == part.tables
    decreases |ops|
  {
    if ops != [] {
      OpOnItsTable(tables, name, ops[0]);
      OpsOnTheirTable(ApplyOp(tables, name, ops[0]).tables, name, ops[1..]);
    }
  }

  lemma {:induction false} OpsElsewhere(tables: seq<ModelTable>, name: string, ops: seq<AlterOp>, other: string)
    requires other != name
    ensures Named(ApplyOps(tables, name, ops).tables, other) == Named(tables, other)
    decreases |ops|
  {
    if ops != [] {
      OpElsewhere(tables, name, ops[0], other);
      OpsElsewhere(ApplyOp(tables, name, ops[0]).tables, name, ops[1..], other);
    }
  }

  lemma {:induction false} StatementOnItsTable(tables: seq<ModelTable>, s: Statement, name: string)
    requires TargetOf(s) == Some(name)
    ensures var whole, part := ApplyStatement(tables, s), ApplyStatement(Named(tables, name), s);
            whole.result == part.result && Named(whole.tables, name) == part.tables
  {
    match s
    case CreateTable(tname, _, columns, constraints, _, _) =>
      if Created(tname, columns, constraints).Ok? {
        NamedAppend(tables, [Created(tname, columns, constraints).value], name);
      }
    case AlterTable(_, _, operations) =>
      OpsOnTheirTable(tables, name, operations);
    case _ =>
  }

  lemma {:induction false} StatementElsewhere(tables: seq<ModelTable>, s: Statement, other: string)
    requires TargetOf(s) != Some(other)
    ensures Named(ApplyStatement(tables, s).tables, other) == Named(tables, other)
  {
    match s
    case CreateTable(tname, _, columns, constraints, _, _) =>
      if Created(tname, columns, constraints).Ok? {
        NamedAppend(tables, [Created(tname, columns, constraints).value], other);
      }
    case AlterTable(tname, _, operations) =>
      OpsElsewhere(tables, LastIdent(tname), operations, other);
    case _ =>
  }

  lemma {:induction false} FoldOfOneTable(tables: seq<ModelTable>, statements: seq<Statement>, name: string)
    requires Fold(tables, statements).result.Ok?
    ensures var part := Fold(Named(tables, name), Only(statements, name));
            part.result.Ok? && part.tables == Named(Fold(tables, statements).tables, name)
    decreases |statements|
  {
    if statements != [] {
      var s := statements[0];
      var next := ApplyStatement(tables, s).tables;
      FoldOfOneTable(next, statements[1..], name);
      if TargetOf(s) == Some(name) {
        StatementOnItsTable(tables, s, name);
        assert Only(statements, name)[1..] == Only(statements[1..], name);
      } else {
        StatementElsewhere(tables, s, name);
        assert Only(statements, name) == Only(statements[1..], name);
      }
    }
  }

  /** When the whole fold fails, so does the fold of one table: the one the failing statement names. */
  lemma {:induction false} FailureHasATable(tables: seq<ModelTable>, statements: seq<Statement>) returns (name: string)
    requires Fold(tables, statements).result.Err?
    ensures Fold(Named(tables, name), Only(statements, name)).result == Fold(tables, statements).result
    decreases |statements|
  {
    var s := statements[0];
    var o := ApplyStatement(tables, s);
    if o.result.Err? {
      name := TargetOf(s).value;
      StatementOnItsTable(tables, s, name);
    } else {
      name := FailureHasATable(o.tables, statements[1..]);
      if TargetOf(s) == Some(name) {
        StatementOnItsTable(tables, s, name);
        assert Only(statements, name)[1..] == Only(statements[1..], name);
      } else {
        StatementElsewhere(tables, s, name);
        assert Only(statements, name) == Only(statements[1..], name);
      }
    }
  }

  /**
   The fold decomposes by table: it succeeds exactly when every table's own statements fold, and then
   each table ends as its own statements leave it.
   */
  lemma {:induction false} FoldDecomposes(tables: seq<ModelTable>, statements: seq<Statement>)
    ensures Fold(tables, statements).result.Ok? <==>
            forall name :: Fold(Named(tables, name), Only(statements, name)).result.Ok?
    ensures Fold(tables, statements).result.Ok? ==>
            forall name :: Named(Fold(tables, statements).tables, name) ==
                           Fold(Named(tables, name), Only(statements, name)).tables
  {
    if Fold(tables, statements).result.Ok? {
      forall name
        ensures Fold(Named(tables, name), Only(statements, name)).result.Ok?
        ensures Named(Fold(tables, statements).tables, name) == Fold(Named(tables, name), Only(statements, name)).tables
      {
        FoldOfOneTable(tables, statements, name);
      }
    } else {
      var name := FailureHasATable(tables, statements);
    }
  }

  /**
   So any reordering that keeps the statements about each table in their order succeeds or fails alike
   and leaves every table the same; only the order of the tables may differ.
   */
  lemma {:induction false} ReorderingAcrossTables(tables: seq<ModelTable>, a: seq<Statement>, b: seq<Statement>)
    requires forall name :: Only(a, name) == Only(b, name)
    ensures Fold(tables, a).result.Ok? <==> Fold(tables, b).result.Ok?
    ensures Fold(tables, a).result.Ok? ==>
            forall name :: Named(Fold(tables, a).tables, name) == Named(Fold(tables, b).tables, name)
  {
    FoldDecomposes(tables, a);
    FoldDecomposes(tables, b);
  }

  // ----- Which tables there are -----

  function TableNames(tables: seq<ModelTable>): (r: seq<string>)
    ensures |r| == |tables|
    ensures forall i :: 0 <= i < |tables| ==> r[i] == tables[i].name
  {
    seq(|tables|, i requires 0 <= i < |tables| => tables[i].name)
  }

  lemma {:induction false} OpsKeepNames(tables: seq<ModelTable>, name: string, ops: seq<AlterOp>)
    ensures TableNames(ApplyOps(tables, name, ops).tables) == TableNames(tables)
    decreases |ops|
  {
    if ops != [] {
      var next := ApplyOp(tables, name, ops[0]).tables;
      assert TableNames(next) == TableNames(tables) by {
        if Find(tables, name).Some? {
          AlteredKeepsName(tables[Find(tables, name).value], ops[0]);
        }
      }
      OpsKeepNames(next, name, ops[1..]);
    }
  }

  /** The model lists the tables of the CREATE TABLE statements in order and never loses or renames one. */
  lemma {:induction false} TablesAreTheCreatedOnes(tables: seq<ModelTable>, statements: seq<Statement>)
    requires Fold(tables, statements).result.Ok?
    ensures TableNames(Fold(tables, statements).tables) == TableNames(tables) + CreatedBy(statements)
    decreases |statements|
  {
    if statements != [] {
      var s := statements[0];
      var next := ApplyStatement(tables, s).tables;
      TablesAreTheCreatedOnes(next, statements[1..]);
      StatementNames(tables, s);
      CreatedFront(statements);
    }
  }

  lemma {:induction false} CreatedFront(statements: seq<Statement>)
    requires statements != []
    ensures CreatedBy(statements) == CreatedOne(statements[0]) + CreatedBy(statements[1..])
  {
  }

  function CreatedOne(s: Statement): seq<string> {
    if s.CreateTable? then [LastIdent(s.name)] else []
  }

  lemma {:induction false} StatementNames(tables: seq<ModelTable>, s: Statement)
    requires ApplyStatement(tables, s).result.Ok?
    ensures TableNames(ApplyStatement(tables, s).tables) == TableNames(tables) + CreatedOne(s)
  {
    if s.AlterTable? {
      OpsKeepNames(tables, LastIdent(s.name), s.operations);
    }
  }
}
