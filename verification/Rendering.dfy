/**
 Rendering a migration for one backend: rewrite the column types, print every statement, keep the
 backend's own blocks; and deriving the migration that undoes it.
 */
module Rendering {
  import opened Wrappers
  import opened Sql
  import opened Segments
  import opened SchemaModel
  import Text

  // ----- Rewriting types -----

  function NativeColumn(def: ColumnDef, b: Backend): ColumnDef
    requires MapType(def.dataType).Some?
  {
    def.(dataType := NativeType(MapType(def.dataType).value, b))
  }

  function NativeColumns(columns: seq<ColumnDef>, b: Backend): (r: seq<ColumnDef>)
    requires AllMapped(columns)
    ensures |r| == |columns|
    ensures forall i :: 0 <= i < |columns| ==> r[i] == NativeColumn(columns[i], b)
  {
    if columns == [] then []
    else NativeColumns(columns[..|columns| - 1], b) + [NativeColumn(columns[|columns| - 1], b)]
  }

  /** Whether the operation, if it adds a column, adds one of a mapped type. */
  predicate OpMapped(op: AlterOp) {
    op.AddColumn? ==> MapType(op.def.dataType).Some?
  }

  function FirstUnmappedOp(ops: seq<AlterOp>, from: nat): (k: Option<nat>)
    requires from <= |ops|
    ensures k.Some? ==> from <= k.value < |ops| && !OpMapped(ops[k.value])
    ensures k.Some? ==> forall i :: from <= i < k.value ==> OpMapped(ops[i])
    ensures k.None? ==> forall i :: from <= i < |ops| ==> OpMapped(ops[i])
    decreases |ops| - from
  {
    if from == |ops| then None
    else if !OpMapped(ops[from]) then Some(from)
    else FirstUnmappedOp(ops, from + 1)
  }

  function NativeOp(op: AlterOp, b: Backend): AlterOp
    requires OpMapped(op)
  {
    if op.AddColumn? then op.(def := NativeColumn(op.def, b)) else op
  }

  function NativeOps(ops: seq<AlterOp>, b: Backend): (r: seq<AlterOp>)
    requires forall i :: 0 <= i < |ops| ==> OpMapped(ops[i])
    ensures |r| == |ops|
    ensures forall i :: 0 <= i < |ops| ==> r[i] == NativeOp(ops[i], b)
  {
    if ops == [] then []
    else NativeOps(ops[..|ops| - 1], b) + [NativeOp(ops[|ops| - 1], b)]
  }

  function Rewritten(s: Statement, b: Backend): Result<Statement, Error> {
    match s
    case CreateTable(name, _, columns, _, _, _) =>
      (match FirstUnmapped(columns, 0)
       case Some(k) => Err(NoMapping(CreateColumn(LastIdent(name), columns[k].name), columns[k].dataType))
       case None => Ok(s.(columns := NativeColumns(columns, b))))
    case AlterTable(name, _, ops) =>
      (match FirstUnmappedOp(ops, 0)
       case Some(k) => Err(NoMapping(AddedColumn(LastIdent(name), ops[k].def.name), ops[k].def.dataType))
       case None => Ok(s.(operations := NativeOps(ops, b))))
    case _ => Ok(s)
  }

  /** `native_data_type`, with the place to report. */
  function NativeDataType(dt: DataType, b: Backend, site: Site): Result<DataType, Error> {
    match MapType(dt)
    case None => Err(NoMapping(site, dt))
    case Some(mapped) => Ok(NativeType(mapped, b))
  }

  method RewriteColumns(table: string, defs: seq<ColumnDef>, b: Backend) returns (r: Result<seq<ColumnDef>, Error>)
    ensures match FirstUnmapped(defs, 0)
            case Some(k) => r == Err(NoMapping(CreateColumn(table, defs[k].name), defs[k].dataType))
            case None => r == Ok(NativeColumns(defs, b))
  {
    var columns := defs;
    for i := 0 to |columns|
      invariant |columns| == |defs| && FirstUnmapped(defs, 0) == FirstUnmapped(defs, i)
      invariant forall j :: 0 <= j < i ==> MapType(defs[j].dataType).Some? && columns[j] == NativeColumn(defs[j], b)
      invariant forall j :: i <= j < |columns| ==> columns[j] == defs[j]
    {
      var native := NativeDataType(columns[i].dataType, b, CreateColumn(table, columns[i].name));
      if native.Err? {
        return Err(native.error);
      }
      columns := columns[i := columns[i].(dataType := native.value)];
    }
    r := Ok(columns);
    assert columns == NativeColumns(defs, b);
  }

  method RewriteOps(table: string, operations: seq<AlterOp>, b: Backend) returns (r: Result<seq<AlterOp>, Error>)
    ensures match FirstUnmappedOp(operations, 0)
            case Some(k) => r == Err(NoMapping(AddedColumn(table, operations[k].def.name), operations[k].def.dataType))
            case None => r == Ok(NativeOps(operations, b))
  {
    var ops := operations;
    for i := 0 to |ops|
      invariant |ops| == |operations| && FirstUnmappedOp(operations, 0) == FirstUnmappedOp(operations, i)
      invariant forall j :: 0 <= j < i ==> OpMapped(operations[j]) && ops[j] == NativeOp(operations[j], b)
      invariant forall j :: i <= j < |ops| ==> ops[j] == operations[j]
    {
      if ops[i].AddColumn? {
        var def := ops[i].def;
        var native := NativeDataType(def.dataType, b, AddedColumn(table, def.name));
        if native.Err? {
          return Err(native.error);
        }
        ops := ops[i := ops[i].(def := def.(dataType := native.value))];
      }
    }
    r := Ok(ops);
    assert ops == NativeOps(operations, b);
  }

  /** `rewrite_types`: the statement with its column types overwritten. */
  method RewriteTypes(s: Statement, b: Backend) returns (r: Result<Statement, Error>)
    ensures r == Rewritten(s, b)
  {
    match s {
      case CreateTable(name, _, columns, _, _, _) =>
        var native := RewriteColumns(LastIdent(name), columns, b);
        if native.Err? {
          return Err(native.error);
        }
        r := Ok(s.(columns := native.value));
      case AlterTable(name, _, operations) =>
        var native := RewriteOps(LastIdent(name), operations, b);
        if native.Err? {
          return Err(native.error);
        }
        r := Ok(s.(operations := native.value));
      case _ =>
        r := Ok(s);
    }
  }

  // ----- up.sql -----

  function Parsed(lib: SqlLibrary, sql: string): Result<seq<Statement>, Error> {
    match lib.parse(sql)
    case Ok(statements) => Ok(statements)
    case Err(message) => Err(SqlParseError(message))
  }

  /** More pieces in front of an outcome. */
  function Before<T>(front: seq<T>, r: Result<seq<T>, Error>): Result<seq<T>, Error> {
    match r
    case Ok(rest) => Ok(front + rest)
    case Err(e) => Err(e)
  }

  function Then<T>(first: Result<seq<T>, Error>, second: Result<seq<T>, Error>): Result<seq<T>, Error> {
    match first
    case Ok(front) => Before(front, second)
    case Err(e) => Err(e)
  }

  function StatementPieces(lib: SqlLibrary, statements: seq<Statement>, b: Backend): Result<seq<string>, Error> {
    if statements == [] then Ok([])
    else
      match Rewritten(statements[0], b)
      case Err(e) => Err(e)
      case Ok(s) => Before([lib.show(s) + ";"], StatementPieces(lib, statements[1..], b))
  }

  function SegmentPieces(lib: SqlLibrary, segment: Segment, b: Backend): Result<seq<string>, Error> {
    match segment
    case Shared(sql) =>
      (match Parsed(lib, sql)
       case Ok(statements) => StatementPieces(lib, statements, b)
       case Err(e) => Err(e))
    case Tagged(own, raw) => Ok(if own == b then [Text.Trim(raw)] else [])
  }

  function UpPieces(lib: SqlLibrary, segments: seq<Segment>, b: Backend): Result<seq<string>, Error> {
    if segments == [] then Ok([])
    else Then(SegmentPieces(lib, segments[0], b), UpPieces(lib, segments[1..], b))
  }

  function UpText(lib: SqlLibrary, segments: seq<Segment>, b: Backend): Result<string, Error> {
    match UpPieces(lib, segments, b)
    case Ok(pieces) => Ok(Text.Join(pieces, "\n\n"))
    case Err(e) => Err(e)
  }

  lemma {:induction false} BeforeBefore<T>(a: seq<T>, b: seq<T>, r: Result<seq<T>, Error>)
    ensures Before(a, Before(b, r)) == Before(a + b, r)
  {
    if r.Ok? {
      assert a + (b + r.value) == a + b + r.value;
    }
  }

  lemma {:induction false} BeforeNothing<T>(r: Result<seq<T>, Error>)
    ensures Before([], r) == r
  {
    if r.Ok? {
      assert [] + r.value == r.value;
    }
  }

  method RenderStatements(lib: SqlLibrary, statements: seq<Statement>, b: Backend)
    returns (r: Result<seq<string>, Error>)
    ensures r == StatementPieces(lib, statements, b)
  {
    var pieces: seq<string> := [];
    BeforeNothing(StatementPieces(lib, statements, b));
    for i := 0 to |statements|
      invariant StatementPieces(lib, statements, b) == Before(pieces, StatementPieces(lib, statements[i..], b))
    {
      assert statements[i..][0] == statements[i] && statements[i..][1..] == statements[i + 1..];
      var s := RewriteTypes(statements[i], b);
      if s.Err? {
        return Err(s.error);
      }
      BeforeBefore(pieces, [lib.show(s.value) + ";"], StatementPieces(lib, statements[i + 1..], b));
      pieces := pieces + [lib.show(s.value) + ";"];
    }
    assert pieces + [] == pieces;
    r := Ok(pieces);
  }

  /** `render_up`: the text of one backend's `up.sql`. */
  method RenderUp(lib: SqlLibrary, segments: seq<Segment>, b: Backend) returns (r: Result<string, Error>)
    ensures r == UpText(lib, segments, b)
  {
    var pieces: seq<string> := [];
    BeforeNothing(UpPieces(lib, segments, b));
    for i := 0 to |segments|
      invariant UpPieces(lib, segments, b) == Before(pieces, UpPieces(lib, segments[i..], b))
    {
      ghost var rest := UpPieces(lib, segments[i + 1..], b);
      assert segments[i..][0] == segments[i] && segments[i..][1..] == segments[i + 1..];
      match segments[i]
      case Shared(sql) =>
        var statements := Parsed(lib, sql);
        if statements.Err? {
          return Err(statements.error);
        }
        var rendered := RenderStatements(lib, statements.value, b);
        if rendered.Err? {
          return Err(rendered.error);
        }
        BeforeBefore(pieces, rendered.value, rest);
        pieces := pieces + rendered.value;
      case Tagged(own, raw) =>
        if own == b {
          BeforeBefore(pieces, [Text.Trim(raw)], rest);
          pieces := pieces + [Text.Trim(raw)];
        } else {
          BeforeNothing(rest);
        }
    }
    assert pieces + [] == pieces;
    r := Ok(Text.Join(pieces, "\n\n"));
  }

  // ----- Derived down.sql -----

  function CreatedBy(statements: seq<Statement>): seq<string> {
    if statements == [] then []
    else
      (if statements[0].CreateTable? then [LastIdent(statements[0].name)] else []) + CreatedBy(statements[1..])
  }

  function CreatedIn(lib: SqlLibrary, segments: seq<Segment>): Result<seq<string>, Error> {
    if segments == [] then Ok([])
    else
      match segments[0]
      case Shared(sql) =>
        (match Parsed(lib, sql)
         case Ok(statements) => Before(CreatedBy(statements), CreatedIn(lib, segments[1..]))
         case Err(e) => Err(e))
      case Tagged(_, _) => CreatedIn(lib, segments[1..])
  }

  function DropText(table: string): string {
    "DROP TABLE IF EXISTS " + table + ";"
  }

  /** One DROP per name, last name first. */
  function DropTexts(created: seq<string>): seq<string> {
    if created == [] then [] else [DropText(created[|created| - 1])] + DropTexts(created[..|created| - 1])
  }

  function DownText(lib: SqlLibrary, segments: seq<Segment>): Result<string, Error> {
    match CreatedIn(lib, segments)
    case Ok(created) => Ok(Text.Join(DropTexts(created), "\n"))
    case Err(e) => Err(e)
  }

  /** `derive_down`: collect the created tables, then drop them in reverse. */
  method DeriveDown(lib: SqlLibrary, segments: seq<Segment>) returns (r: Result<string, Error>)
    ensures r == DownText(lib, segments)
  {
    var created: seq<string> := [];
    BeforeNothing(CreatedIn(lib, segments));
    for i := 0 to |segments|
      invariant CreatedIn(lib, segments) == Before(created, CreatedIn(lib, segments[i..]))
    {
      assert segments[i..][0] == segments[i] && segments[i..][1..] == segments[i + 1..];
      match segments[i]
      case Shared(sql) =>
        var statements := Parsed(lib, sql);
        if statements.Err? {
          return Err(statements.error);
        }
        BeforeBefore(created, CreatedBy(statements.value), CreatedIn(lib, segments[i + 1..]));
        created := CollectCreated(statements.value, created);
      case Tagged(_, _) =>
    }
    assert created + [] == created;
    var drops: seq<string> := [];
    var k := |created|;
    while k > 0
      invariant 0 <= k <= |created|
      invariant DropTexts(created) == drops + DropTexts(created[..k])
    {
      assert created[..k][..k - 1] == created[..k - 1] && created[..k][k - 1] == created[k - 1];
      k := k - 1;
      assert drops + ([DropText(created[k])] + DropTexts(created[..k])) ==
             drops + [DropText(created[k])] + DropTexts(created[..k]);
      drops := drops + [DropText(created[k])];
    }
    assert created[..0] == [] && drops + [] == drops;
    r := Ok(Text.Join(drops, "\n"));
  }

  method CollectCreated(statements: seq<Statement>, before: seq<string>) returns (created: seq<string>)
    ensures created == before + CreatedBy(statements)
  {
    created := before;
    assert before + CreatedBy(statements) == created + CreatedBy(statements[0..]);
    for j := 0 to |statements|
      invariant before + CreatedBy(statements) == created + CreatedBy(statements[j..])
    {
      assert statements[j..][0] == statements[j] && statements[j..][1..] == statements[j + 1..];
      if statements[j].CreateTable? {
        ghost var rest := CreatedBy(statements[j + 1..]);
        assert created + ([LastIdent(statements[j].name)] + rest) == created + [LastIdent(statements[j].name)] + rest;
        created := created + [LastIdent(statements[j].name)];
      } else {
        assert CreatedBy(statements[j..]) == [] + CreatedBy(statements[j + 1..]);
      }
    }
  }
}
