/**
 The model behind `schema.rs`: a list of tables, into which statements are folded one by one.

 The functions specify one step and the whole fold; the class `Model` does the same in place.
 */
module SchemaModel {
  import opened Wrappers
  import opened Sql

  datatype ModelColumn = ModelColumn(name: string, marker: Marker, nullable: bool)

  /** A foreign key is kept as (local column, parent table), one entry per column. */
  datatype ModelTable = ModelTable(name: string, columns: seq<ModelColumn>, primaryKey: seq<string>,
                                   foreignKeys: seq<(string, string)>)
  {
    /** The declared key, or the first column when none was declared. */
    function PrimaryKeyCols(): seq<string> {
      if primaryKey != [] then primaryKey
      else if columns != [] then [columns[0].name]
      else []
    }
  }

  /** The tables after a step, and whether it succeeded; after a failure the earlier changes remain. */
  datatype Outcome = Outcome(tables: seq<ModelTable>, result: Result<(), Error>)

  // ----- Reading CREATE TABLE -----

  function FirstUnmapped(columns: seq<ColumnDef>, from: nat): (k: Option<nat>)
    requires from <= |columns|
    ensures k.Some? ==> from <= k.value < |columns| && MapType(columns[k.value].dataType).None?
    ensures k.Some? ==> forall i :: from <= i < k.value ==> MapType(columns[i].dataType).Some?
    ensures k.None? ==> forall i :: from <= i < |columns| ==> MapType(columns[i].dataType).Some?
    decreases |columns| - from
  {
    if from == |columns| then None
    else if MapType(columns[from].dataType).None? then Some(from)
    else FirstUnmapped(columns, from + 1)
  }

  predicate AllMapped(columns: seq<ColumnDef>) {
    forall i :: 0 <= i < |columns| ==> MapType(columns[i].dataType).Some?
  }

  predicate DeclaredNotNull(def: ColumnDef) {
    NotNull in def.options
  }

  predicate DeclaredPrimary(def: ColumnDef) {
    Unique(true) in def.options
  }

  function ColumnOf(def: ColumnDef): ModelColumn
    requires MapType(def.dataType).Some?
  {
    ModelColumn(def.name.value, MapType(def.dataType).value.marker, !DeclaredNotNull(def) && !DeclaredPrimary(def))
  }

  function ColumnsOf(columns: seq<ColumnDef>): (r: seq<ModelColumn>)
    requires AllMapped(columns)
    ensures |r| == |columns|
    ensures forall i :: 0 <= i < |columns| ==> r[i] == ColumnOf(columns[i])
  {
    if columns == [] then []
    else ColumnsOf(columns[..|columns| - 1]) + [ColumnOf(columns[|columns| - 1])]
  }

  /** The column's name once for every inline PRIMARY KEY among the options. */
  function OptionKeys(name: string, options: seq<ColumnOption>): seq<string> {
    if options == [] then []
    else OptionKeys(name, options[..|options| - 1]) + if options[|options| - 1] == Unique(true) then [name] else []
  }

  function OptionRefs(name: string, options: seq<ColumnOption>): seq<(string, string)> {
    if options == [] then []
    else
      OptionRefs(name, options[..|options| - 1]) + (
        match options[|options| - 1]
        case References(parent, _) => [(name, LastIdent(parent))]
        case _ => [])
  }

  function InlineKeys(columns: seq<ColumnDef>): seq<string> {
    if columns == [] then []
    else
      var c := columns[|columns| - 1];
      InlineKeys(columns[..|columns| - 1]) + OptionKeys(c.name.value, c.options)
  }

  function InlineRefs(columns: seq<ColumnDef>): seq<(string, string)> {
    if columns == [] then []
    else
      var c := columns[|columns| - 1];
      InlineRefs(columns[..|columns| - 1]) + OptionRefs(c.name.value, c.options)
  }

  function Names(idents: seq<Ident>): (r: seq<string>)
    ensures |r| == |idents|
    ensures forall i :: 0 <= i < |idents| ==> r[i] == idents[i].value
  {
    seq(|idents|, i requires 0 <= i < |idents| => idents[i].value)
  }

  function Pairs(idents: seq<Ident>, parent: string): (r: seq<(string, string)>)
    ensures |r| == |idents|
    ensures forall i :: 0 <= i < |idents| ==> r[i] == (idents[i].value, parent)
  {
    seq(|idents|, i requires 0 <= i < |idents| => (idents[i].value, parent))
  }

  /** The last table-level PRIMARY KEY, or else the inline ones. */
  function KeysOf(columns: seq<ColumnDef>, constraints: seq<TableConstraint>): seq<string> {
    if constraints == [] then InlineKeys(columns)
    else
      match constraints[|constraints| - 1]
      case PrimaryKey(cols) => Names(cols)
      case _ => KeysOf(columns, constraints[..|constraints| - 1])
  }

  /** The inline foreign keys, then those of the table constraints. */
  function RefsOf(columns: seq<ColumnDef>, constraints: seq<TableConstraint>): seq<(string, string)> {
    if constraints == [] then InlineRefs(columns)
    else
      RefsOf(columns, constraints[..|constraints| - 1]) + (
        match constraints[|constraints| - 1]
        case ForeignKey(cols, parent, _) => Pairs(cols, LastIdent(parent))
        case _ => [])
  }

  function Created(name: ObjectName, columns: seq<ColumnDef>, constraints: seq<TableConstraint>)
    : Result<ModelTable, Error>
  {
    match FirstUnmapped(columns, 0)
    case Some(k) => Err(NoMapping(CreateColumn(LastIdent(name), columns[k].name), columns[k].dataType))
    case None => Ok(ModelTable(LastIdent(name), ColumnsOf(columns), KeysOf(columns, constraints),
                               RefsOf(columns, constraints)))
  }

  // ----- One step -----

  /** The first table with the name. */
  function Find(tables: seq<ModelTable>, name: string): (k: Option<nat>)
    ensures k.Some? ==> k.value < |tables| && tables[k.value].name == name
    ensures k.Some? ==> forall i :: 0 <= i < k.value ==> tables[i].name != name
    ensures k.None? ==> forall i :: 0 <= i < |tables| ==> tables[i].name != name
  {
    if tables == [] then None
    else if tables[0].name == name then Some(0)
    else
      match Find(tables[1..], name)
      case Some(k) => Some(k + 1)
      case None => None
  }

  function Retained(columns: seq<ModelColumn>, name: string): seq<ModelColumn> {
    if columns == [] then []
    else
      var last := columns[|columns| - 1];
      Retained(columns[..|columns| - 1], name) + if last.name != name then [last] else []
  }

  /** What an ALTER operation makes of the table it names; nothing for the operations that are ignored. */
  function Altered(t: ModelTable, op: AlterOp): ModelTable {
    match op
    case AddColumn(_, def) =>
      if MapType(def.dataType).None? then t
      else
        var marker := MapType(def.dataType).value.marker;
        t.(columns := t.columns + [ModelColumn(def.name.value, marker, !DeclaredNotNull(def))])
    case DropColumn(_, column, _) => t.(columns := Retained(t.columns, column.value))
    case AddConstraint(ForeignKey(cols, parent, _)) => t.(foreignKeys := t.foreignKeys + Pairs(cols, LastIdent(parent)))
    case _ => t
  }

  /** Adding a column is the only operation that can fail: by its type, or because there is no such table. */
  function AlterError(tables: seq<ModelTable>, name: string, op: AlterOp): Option<Error> {
    match op
    case AddColumn(_, def) =>
      if MapType(def.dataType).None? then Some(NoMapping(AddedColumn(name, def.name), def.dataType))
      else if Find(tables, name).None? then Some(AlterUnknownTable(name))
      else None
    case _ => None
  }

  function ApplyOp(tables: seq<ModelTable>, name: string, op: AlterOp): Outcome {
    match AlterError(tables, name, op)
    case Some(e) => Outcome(tables, Err(e))
    case None =>
      match Find(tables, name)
      case Some(k) => Outcome(tables[k := Altered(tables[k], op)], Ok(()))
      case None => Outcome(tables, Ok(()))
  }

  function ApplyOps(tables: seq<ModelTable>, name: string, ops: seq<AlterOp>): Outcome
    decreases |ops|
  {
    if ops == [] then Outcome(tables, Ok(()))
    else
      var o := ApplyOp(tables, name, ops[0]);
      if o.result.Err? then o else ApplyOps(o.tables, name, ops[1..])
  }

  function ApplyStatement(tables: seq<ModelTable>, s: Statement): Outcome {
    match s
    case CreateTable(name, _, columns, constraints, _, _) =>
      (match Created(name, columns, constraints)
       case Ok(t) => Outcome(tables + [t], Ok(()))
       case Err(e) => Outcome(tables, Err(e)))
    case AlterTable(name, _, operations) => ApplyOps(tables, LastIdent(name), operations)
    case _ => Outcome(tables, Ok(()))
  }

  function Fold(tables: seq<ModelTable>, statements: seq<Statement>): Outcome
    decreases |statements|
  {
    if statements == [] then Outcome(tables, Ok(()))
    else
      var o := ApplyStatement(tables, statements[0]);
      if o.result.Err? then o else Fold(o.tables, statements[1..])
  }

  lemma {:induction false} FoldAppend(tables: seq<ModelTable>, a: seq<Statement>, b: seq<Statement>)
    ensures Fold(tables, a + b) ==
            if Fold(tables, a).result.Err? then Fold(tables, a) else Fold(Fold(tables, a).tables, b)
    decreases |a|
  {
    if a == [] {
      assert a + b == b;
    } else {
      assert (a + b)[1..] == a[1..] + b;
      var o := ApplyStatement(tables, a[0]);
      if o.result.Ok? {
        FoldAppend(o.tables, a[1..], b);
      }
    }
  }

  // ----- Keys and errors by position -----

  /** Every inline PRIMARY KEY counts, and gives the column's name. */
  lemma {:induction false} OptionKeysCount(name: string, options: seq<ColumnOption>)
    ensures |OptionKeys(name, options)| == multiset(options)[Unique(true)]
    ensures forall i :: 0 <= i < |OptionKeys(name, options)| ==> OptionKeys(name, options)[i] == name
  {
    if options != [] {
      OptionKeysCount(name, options[..|options| - 1]);
      assert options == options[..|options| - 1] + [options[|options| - 1]];
    }
  }

  lemma {:induction false} InlineKeysAppend(x: seq<ColumnDef>, y: seq<ColumnDef>)
    ensures InlineKeys(x + y) == InlineKeys(x) + InlineKeys(y)
    decreases |y|
  {
    if y == [] {
      assert x + y == x;
    } else {
      var c := y[|y| - 1];
      assert (x + y)[..|x + y| - 1] == x + y[..|y| - 1];
      InlineKeysAppend(x, y[..|y| - 1]);
      Regrouped(InlineKeys(x), InlineKeys(y[..|y| - 1]), OptionKeys(c.name.value, c.options));
    }
  }

  lemma {:induction false} Regrouped(a: seq<string>, b: seq<string>, c: seq<string>)
    ensures a + b + c == a + (b + c)
  {
  }

  /** The last table-level key counts alone; without one the inline keys do, column by column. */
  lemma {:induction false} KeysByPosition(columns: seq<ColumnDef>, constraints: seq<TableConstraint>, j: nat)
    ensures j < |constraints| && constraints[j].PrimaryKey? &&
            (forall i :: j < i < |constraints| ==> !constraints[i].PrimaryKey?) ==>
              KeysOf(columns, constraints) == Names(constraints[j].columns)
    ensures (forall i :: 0 <= i < |constraints| ==> !constraints[i].PrimaryKey?) ==>
              KeysOf(columns, constraints) == InlineKeys(columns)
    ensures columns != [] ==>
              InlineKeys(columns) == OptionKeys(columns[0].name.value, columns[0].options) + InlineKeys(columns[1..])
    decreases |constraints|
  {
    if constraints != [] {
      var n := |constraints| - 1;
      assert forall i :: 0 <= i < n ==> constraints[..n][i] == constraints[i];
      KeysByPosition(columns, constraints[..n], j);
    }
    if columns != [] {
      assert columns == [columns[0]] + columns[1..];
      InlineKeysAppend([columns[0]], columns[1..]);
      assert InlineKeys([columns[0]]) == OptionKeys(columns[0].name.value, columns[0].options) by {
        assert [columns[0]][..0] == [];
      }
    }
  }

  /** How a CREATE TABLE fails: on its first column without a mapping, which is named, and nothing is changed. */
  lemma {:induction false} CreateFailure(tables: seq<ModelTable>, s: Statement, k: nat)
    requires s.CreateTable? && k < |s.columns| && MapType(s.columns[k].dataType).None?
    requires forall i :: 0 <= i < k ==> MapType(s.columns[i].dataType).Some?
    ensures ApplyStatement(tables, s) ==
            Outcome(tables, Err(NoMapping(CreateColumn(LastIdent(s.name), s.columns[k].name), s.columns[k].dataType)))
  {
    var first := FirstUnmapped(s.columns, 0);
    assert first == Some(k);
  }

  lemma {:induction false} OpsAppend(tables: seq<ModelTable>, name: string, x: seq<AlterOp>, y: seq<AlterOp>)
    ensures ApplyOps(tables, name, x + y) ==
            if ApplyOps(tables, name, x).result.Err? then ApplyOps(tables, name, x)
            else ApplyOps(ApplyOps(tables, name, x).tables, name, y)
    decreases |x|
  {
    if x == [] {
      assert x + y == y;
    } else {
      assert (x + y)[1..] == x[1..] + y;
      var o := ApplyOp(tables, name, x[0]);
      if o.result.Ok? {
        OpsAppend(o.tables, name, x[1..], y);
      }
    }
  }

  /**
   How an ALTER TABLE fails: on its first ADD COLUMN without a mapping, or of a table that is not there; what the
   operations before it did remains. A type without a mapping is reported first.
   */
  lemma {:induction false} AlterFailure(tables: seq<ModelTable>, s: Statement, k: nat)
    requires s.AlterTable? && k < |s.operations| && s.operations[k].AddColumn?
    requires ApplyOps(tables, LastIdent(s.name), s.operations[..k]).result.Ok?
    ensures var before := ApplyOps(tables, LastIdent(s.name), s.operations[..k]).tables;
            var name, def := LastIdent(s.name), s.operations[k].def;
            && (MapType(def.dataType).None? ==>
                  ApplyStatement(tables, s) ==
                    Outcome(before, Err(NoMapping(AddedColumn(name, def.name), def.dataType))))
            && (MapType(def.dataType).Some? && (forall i :: 0 <= i < |tables| ==> tables[i].name != name) ==>
                  ApplyStatement(tables, s) == Outcome(before, Err(AlterUnknownTable(name))))
  {
    var name, ops := LastIdent(s.name), s.operations;
    assert ops == ops[..k] + ops[k..];
    OpsAppend(tables, name, ops[..k], ops[k..]);
    OpsKeepMissing(tables, name, ops[..k]);
    var before := ApplyOps(tables, name, ops[..k]).tables;
    if forall i :: 0 <= i < |tables| ==> tables[i].name != name {
      assert Find(before, name).None?;
    }
  }

  /** Operations on a table that is not there leave all tables alone. */
  lemma {:induction false} OpsKeepMissing(tables: seq<ModelTable>, name: string, ops: seq<AlterOp>)
    ensures Find(tables, name).None? ==> ApplyOps(tables, name, ops).tables == tables
    decreases |ops|
  {
    if ops != [] {
      OpsKeepMissing(ApplyOp(tables, name, ops[0]).tables, name, ops[1..]);
    }
  }

  /** A name's own identifier is its last one, without the quote. */
  lemma {:induction false} NameIsLast(qualifiers: ObjectName, id: Ident, columns: seq<ColumnDef>)
    requires AllMapped(columns)
    ensures Created(qualifiers + [id], columns, []).Ok?
    ensures Created(qualifiers + [id], columns, []).value.name == id.value
  {
    assert FirstUnmapped(columns, 0).None?;
  }

  // ----- The model, updated in place -----

  lemma {:induction false} PrefixStep<T>(s: seq<T>, i: nat)
    requires i < |s|
    ensures s[..i + 1][..i] == s[..i] && s[..i + 1][i] == s[i] && |s[..i + 1]| == i + 1
  {
  }

  lemma {:induction false} WholePrefix<T>(s: seq<T>)
    ensures s[..|s|] == s && s[..0] == []
  {
  }

  /** The three facts that the options of one column contribute. */
  method ReadOptions(name: string, options: seq<ColumnOption>)
    returns (nullable: bool, keys: seq<string>, refs: seq<(string, string)>)
    ensures nullable == (NotNull !in options && Unique(true) !in options)
    ensures keys == OptionKeys(name, options)
    ensures refs == OptionRefs(name, options)
  {
    nullable, keys, refs := true, [], [];
    for j := 0 to |options|
      invariant nullable == (NotNull !in options[..j] && Unique(true) !in options[..j])
      invariant keys == OptionKeys(name, options[..j])
      invariant refs == OptionRefs(name, options[..j])
    {
      PrefixStep(options, j);
      assert options[..j + 1] == options[..j] + [options[j]];
      match options[j]
      case NotNull =>
        nullable := false;
      case Unique(isPrimary) =>
        if isPrimary {
          keys := keys + [name];
          nullable := false;
        }
      case References(parent, _) =>
        refs := refs + [(name, LastIdent(parent))];
      case _ =>
    }
    WholePrefix(options);
  }

  method ReadColumns(table: string, defs: seq<ColumnDef>)
    returns (r: Result<seq<ModelColumn>, Error>, keys: seq<string>, refs: seq<(string, string)>)
    ensures match FirstUnmapped(defs, 0)
            case Some(k) => r == Err(NoMapping(CreateColumn(table, defs[k].name), defs[k].dataType))
            case None => r == Ok(ColumnsOf(defs)) && keys == InlineKeys(defs) && refs == InlineRefs(defs)
  {
    var columns: seq<ModelColumn> := [];
    keys, refs := [], [];
    for i := 0 to |defs|
      invariant FirstUnmapped(defs, 0) == FirstUnmapped(defs, i)
      invariant AllMapped(defs[..i]) && columns == ColumnsOf(defs[..i])
      invariant keys == InlineKeys(defs[..i]) && refs == InlineRefs(defs[..i])
    {
      var c := defs[i];
      PrefixStep(defs, i);
      match MapType(c.dataType)
      case None =>
        return Err(NoMapping(CreateColumn(table, c.name), c.dataType)), keys, refs;
      case Some(mapped) =>
        var nullable, optionKeys, optionRefs := ReadOptions(c.name.value, c.options);
        assert defs[..i + 1] == defs[..i] + [c];
        keys := keys + optionKeys;
        refs := refs + optionRefs;
        columns := columns + [ModelColumn(c.name.value, mapped.marker, nullable)];
    }
    WholePrefix(defs);
    r := Ok(columns);
  }

  method ReadTable(name: ObjectName, defs: seq<ColumnDef>, constraints: seq<TableConstraint>)
    returns (r: Result<ModelTable, Error>)
    ensures r == Created(name, defs, constraints)
  {
    var table := LastIdent(name);
    var columns, primaryKey, foreignKeys := ReadColumns(table, defs);
    if columns.Err? {
      return Err(columns.error);
    }
    for j := 0 to |constraints|
      invariant primaryKey == KeysOf(defs, constraints[..j])
      invariant foreignKeys == RefsOf(defs, constraints[..j])
    {
      PrefixStep(constraints, j);
      match constraints[j]
      case PrimaryKey(cols) =>
        primaryKey := Names(cols);
      case ForeignKey(cols, parent, _) =>
        foreignKeys := foreignKeys + Pairs(cols, LastIdent(parent));
      case UniqueOrCheck(_) =>
    }
    WholePrefix(constraints);
    r := Ok(ModelTable(table, columns.value, primaryKey, foreignKeys));
  }

  class Model {
    var tables: seq<ModelTable>

    constructor ()
      ensures tables == []
    {
      tables := [];
    }

    method FindTable(name: string) returns (k: Option<nat>)
      ensures k == Find(tables, name)
    {
      var i := 0;
      while i < |tables|
        invariant 0 <= i <= |tables|
        invariant forall j :: 0 <= j < i ==> tables[j].name != name
      {
        if tables[i].name == name {
          return Some(i);
        }
        i := i + 1;
      }
      k := None;
    }

    method RetainColumns(columns: seq<ModelColumn>, name: string) returns (kept: seq<ModelColumn>)
      ensures kept == Retained(columns, name)
    {
      kept := [];
      for i := 0 to |columns|
        invariant kept == Retained(columns[..i], name)
      {
        PrefixStep(columns, i);
        if columns[i].name != name {
          kept := kept + [columns[i]];
        }
      }
      WholePrefix(columns);
    }

    method ApplyOperation(name: string, op: AlterOp) returns (r: Result<(), Error>)
      modifies this
      ensures Outcome(tables, r) == ApplyOp(old(tables), name, op)
    {
      match op {
      case AddColumn(_, def) =>
        var mapped := MapType(def.dataType);
        if mapped.None? {
          return Err(NoMapping(AddedColumn(name, def.name), def.dataType));
        }
        var nullable := NotNull !in def.options;
        var column := ModelColumn(def.name.value, mapped.value.marker, nullable);
        var k := FindTable(name);
        if k.None? {
          return Err(AlterUnknownTable(name));
        }
        var t := tables[k.value];
        tables := tables[k.value := t.(columns := t.columns + [column])];
      case DropColumn(_, column, _) =>
        var k := FindTable(name);
        if k.Some? {
          var t := tables[k.value];
          var kept := RetainColumns(t.columns, column.value);
          tables := tables[k.value := t.(columns := kept)];
        }
      case AddConstraint(ForeignKey(cols, parent, _)) =>
        var k := FindTable(name);
        if k.Some? {
          var t := tables[k.value];
          tables := tables[k.value := t.(foreignKeys := t.foreignKeys + Pairs(cols, LastIdent(parent)))];
        }
      case _ =>
        ghost var k := Find(tables, name);
        assert k.Some? ==> tables[k.value := tables[k.value]] == tables;
      }
      r := Ok(());
    }

    /** `Model::apply`: fold one statement into the tables. */
    method Apply(s: Statement) returns (r: Result<(), Error>)
      modifies this
      ensures Outcome(tables, r) == ApplyStatement(old(tables), s)
    {
      match s {
      case CreateTable(name, _, columns, constraints, _, _) =>
        var t := ReadTable(name, columns, constraints);
        if t.Err? {
          return Err(t.error);
        }
        tables := tables + [t.value];
      case AlterTable(name, _, operations) =>
        var tname := LastIdent(name);
        for i := 0 to |operations|
          invariant ApplyOps(old(tables), tname, operations) == ApplyOps(tables, tname, operations[i..])
        {
          assert operations[i..][0] == operations[i] && operations[i..][1..] == operations[i + 1..];
          var o := ApplyOperation(tname, operations[i]);
          if o.Err? {
            return o;
          }
        }
      case _ =>
      }
      r := Ok(());
    }
  }
}
