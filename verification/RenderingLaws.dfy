/** The two backends' migrations agree on everything but types and tagged blocks, and rendering cannot fail late. */
module RenderingLaws {
  import opened Wrappers
  import opened Sql
  import opened Segments
  import opened SchemaModel
  import opened Rendering
  import Text

  // ----- Only types change -----

  function EraseColumn(def: ColumnDef): ColumnDef {
    def.(dataType := Unsupported(""))
  }

  /** The statement with every column type blanked out. */
  function Erase(s: Statement): Statement {
    match s
    case CreateTable(_, _, columns, _, _, _) =>
      s.(columns := seq(|columns|, i requires 0 <= i < |columns| => EraseColumn(columns[i])))
    case AlterTable(_, _, ops) =>
      s.(operations := seq(|ops|, i requires 0 <= i < |ops| =>
           if ops[i].AddColumn? then ops[i].(def := EraseColumn(ops[i].def)) else ops[i]))
    case _ => s
  }

  /** The column definitions a statement carries, in order. */
  function Definitions(s: Statement): seq<ColumnDef> {
    match s
    case CreateTable(_, _, columns, _, _, _) => columns
    case AlterTable(_, _, ops) => AddedDefinitions(ops)
    case _ => []
  }

  function AddedDefinitions(ops: seq<AlterOp>): seq<ColumnDef> {
    if ops == [] then []
    else AddedDefinitions(ops[..|ops| - 1]) + if ops[|ops| - 1].AddColumn? then [ops[|ops| - 1].def] else []
  }

  predicate OnlyTypesChanged(s: Statement, t: Statement, b: Backend) {
    && Erase(t) == Erase(s)
    && |Definitions(t)| == |Definitions(s)|
    && forall i :: 0 <= i < |Definitions(s)| ==>
         && MapType(Definitions(s)[i].dataType).Some?
         && Definitions(t)[i].dataType == NativeType(MapType(Definitions(s)[i].dataType).value, b)
  }

  /**
   Rewriting changes types and nothing else, and every type becomes the backend's column of the mapping
   table. It fails only on an unmapped type, so for both backends or for neither.
   */
  lemma {:induction false} RewritingChangesOnlyTypes(s: Statement, b: Backend)
    ensures Rewritten(s, b).Ok? <==> AllMapped(Definitions(s))
    ensures Rewritten(s, b).Ok? ==> OnlyTypesChanged(s, Rewritten(s, b).value, b)
  {
    match s
    case CreateTable(_, _, _, _, _, _) => RewritingTable(s, b);
    case AlterTable(_, _, _) => RewritingAlter(s, b);
    case _ =>
  }

  /** Otherwise the error names the first column without a mapping, and its table. */
  lemma {:induction false} RewritingFailure(s: Statement, b: Backend, k: nat)
    requires match s
             case CreateTable(_, _, columns, _, _, _) =>
               && k < |columns| && MapType(columns[k].dataType).None?
               && forall i :: 0 <= i < k ==> MapType(columns[i].dataType).Some?
             case AlterTable(_, _, ops) =>
               && k < |ops| && ops[k].AddColumn? && MapType(ops[k].def.dataType).None?
               && forall i :: 0 <= i < k && ops[i].AddColumn? ==> MapType(ops[i].def.dataType).Some?
             case _ => false
    ensures match s
            case CreateTable(name, _, columns, _, _, _) =>
              Rewritten(s, b) == Err(NoMapping(CreateColumn(LastIdent(name), columns[k].name), columns[k].dataType))
            case AlterTable(name, _, ops) =>
              Rewritten(s, b) == Err(NoMapping(AddedColumn(LastIdent(name), ops[k].def.name), ops[k].def.dataType))
            case _ => true
  {
    match s
    case CreateTable(_, _, columns, _, _, _) =>
      assert FirstUnmapped(columns, 0) == Some(k);
    case AlterTable(_, _, ops) =>
      assert !OpMapped(ops[k]);
      assert FirstUnmappedOp(ops, 0) == Some(k);
    case _ =>
  }

  lemma {:induction false} RewritingTable(s: Statement, b: Backend)
    requires s.CreateTable?
    ensures Rewritten(s, b).Ok? <==> AllMapped(Definitions(s))
    ensures Rewritten(s, b).Ok? ==> OnlyTypesChanged(s, Rewritten(s, b).value, b)
  {
    if Rewritten(s, b).Ok? {
      assert Erase(Rewritten(s, b).value).columns == Erase(s).columns;
    } else {
      assert MapType(s.columns[FirstUnmapped(s.columns, 0).value].dataType).None?;
    }
  }

  lemma {:induction false} RewritingAlter(s: Statement, b: Backend)
    requires s.AlterTable?
    ensures Rewritten(s, b).Ok? <==> AllMapped(Definitions(s))
    ensures Rewritten(s, b).Ok? ==> OnlyTypesChanged(s, Rewritten(s, b).value, b)
  {
    var ops := s.operations;
    AddedMapped(ops);
    if Rewritten(s, b).Ok? {
      AddedNative(ops, b);
      assert Erase(Rewritten(s, b).value).operations == Erase(s).operations;
    } else {
      assert !OpMapped(ops[FirstUnmappedOp(ops, 0).value]);
    }
  }

  lemma {:induction false} AddedMapped(ops: seq<AlterOp>)
    ensures AllMapped(AddedDefinitions(ops)) <==> forall i :: 0 <= i < |ops| ==> OpMapped(ops[i])
  {
    if ops != [] {
      var init, last := ops[..|ops| - 1], ops[|ops| - 1];
      AddedMapped(init);
      var defs := AddedDefinitions(ops);
      assert forall i :: 0 <= i < |init| ==> init[i] == ops[i];
      if last.AddColumn? {
        assert defs[|defs| - 1] == last.def;
        assert defs[..|defs| - 1] == AddedDefinitions(init);
      } else {
        assert defs == AddedDefinitions(init);
      }
    }
  }

  lemma {:induction false} AddedNative(ops: seq<AlterOp>, b: Backend)
    requires forall i :: 0 <= i < |ops| ==> OpMapped(ops[i])
    ensures AllMapped(AddedDefinitions(ops))
    ensures AddedDefinitions(NativeOps(ops, b)) == NativeColumns(AddedDefinitions(ops), b)
  {
    AddedMapped(ops);
    if ops != [] {
      var init, last := ops[..|ops| - 1], ops[|ops| - 1];
      AddedNative(init, b);
      var native := NativeOps(ops, b);
      assert native[..|native| - 1] == NativeOps(init, b);
      if last.AddColumn? {
        assert AddedDefinitions(ops)[..|AddedDefinitions(ops)| - 1] == AddedDefinitions(init);
      } else {
        assert AddedDefinitions(ops) == AddedDefinitions(init);
        assert AddedDefinitions(native) == AddedDefinitions(NativeOps(init, b));
      }
    }
  }

  // ----- Backend agreement -----

  /** What a migration consists of: statements for both backends, and blocks for one. */
  datatype Piece = Ddl(statement: Statement) | Raw(backend: Backend, text: string)

  function DdlPieces(statements: seq<Statement>): (r: seq<Piece>)
    ensures |r| == |statements|
    ensures forall i :: 0 <= i < |r| ==> r[i] == Ddl(statements[i])
  {
    seq(|statements|, i requires 0 <= i < |statements| => Ddl(statements[i]))
  }

  /** The pieces of a migration in their original order. */
  function Contents(lib: SqlLibrary, segments: seq<Segment>): Result<seq<Piece>, Error> {
    if segments == [] then Ok([])
    else
      match segments[0]
      case Shared(sql) =>
        (match Parsed(lib, sql)
         case Ok(statements) => Before(DdlPieces(statements), Contents(lib, segments[1..]))
         case Err(e) => Err(e))
      case Tagged(b, raw) => Before([Raw(b, raw)], Contents(lib, segments[1..]))
  }

  /** The pieces one backend gets: all the statements, and its own blocks, in place. */
  function KeptFor(pieces: seq<Piece>, b: Backend): seq<Piece> {
    if pieces == [] then []
    else (if pieces[0].Raw? && pieces[0].backend != b then [] else [pieces[0]]) + KeptFor(pieces[1..], b)
  }

  predicate PieceMapped(p: Piece) {
    p.Ddl? ==> AllMapped(Definitions(p.statement))
  }

  function PieceText(lib: SqlLibrary, p: Piece, b: Backend): string
    requires PieceMapped(p)
  {
    match p
    case Ddl(s) => RewritingChangesOnlyTypes(s, b); lib.show(Rewritten(s, b).value) + ";"
    case Raw(_, text) => Text.Trim(text)
  }

  function PieceTexts(lib: SqlLibrary, pieces: seq<Piece>, b: Backend): (r: seq<string>)
    requires forall i :: 0 <= i < |pieces| ==> PieceMapped(pieces[i])
    ensures |r| == |pieces|
    ensures forall i :: 0 <= i < |r| ==> r[i] == PieceText(lib, pieces[i], b)
  {
    seq(|pieces|, i requires 0 <= i < |pieces| => PieceText(lib, pieces[i], b))
  }

  predicate AllPiecesMapped(pieces: seq<Piece>) {
    forall i :: 0 <= i < |pieces| ==> PieceMapped(pieces[i])
  }

  lemma {:induction false} KeptAppend(a: seq<Piece>, c: seq<Piece>, b: Backend)
    ensures KeptFor(a + c, b) == KeptFor(a, b) + KeptFor(c, b)
  {
    if a == [] {
      assert a + c == c;
    } else {
      assert (a + c)[1..] == a[1..] + c;
      KeptAppend(a[1..], c, b);
      RegroupPieces(if a[0].Raw? && a[0].backend != b then [] else [a[0]], KeptFor(a[1..], b), KeptFor(c, b));
    }
  }

  lemma {:induction false} RegroupPieces(x: seq<Piece>, y: seq<Piece>, z: seq<Piece>)
    ensures x + y + z == x + (y + z)
  {
  }

  lemma {:induction false} KeptAreMapped(pieces: seq<Piece>, b: Backend)
    requires AllPiecesMapped(pieces)
    ensures AllPiecesMapped(KeptFor(pieces, b))
  {
    if pieces != [] {
      KeptAreMapped(pieces[1..], b);
    }
  }

  lemma {:induction false} KeptStatements(statements: seq<Statement>, b: Backend)
    ensures KeptFor(DdlPieces(statements), b) == DdlPieces(statements)
  {
    if statements != [] {
      assert DdlPieces(statements)[1..] == DdlPieces(statements[1..]);
      KeptStatements(statements[1..], b);
    }
  }

  lemma {:induction false} StatementTexts(lib: SqlLibrary, statements: seq<Statement>, b: Backend)
    requires AllPiecesMapped(DdlPieces(statements))
    ensures StatementPieces(lib, statements, b) == Ok(PieceTexts(lib, DdlPieces(statements), b))
  {
    if statements != [] {
      var front, rest := [Ddl(statements[0])], DdlPieces(statements[1..]);
      assert DdlPieces(statements) == front + rest;
      SplitMapped(front, rest);
      StatementTexts(lib, statements[1..], b);
      OneText(lib, statements[0], b);
      TextsAppend(lib, front, rest, b);
    }
  }

  lemma {:induction false} OneText(lib: SqlLibrary, s: Statement, b: Backend)
    requires AllPiecesMapped([Ddl(s)])
    ensures Rewritten(s, b).Ok? && PieceTexts(lib, [Ddl(s)], b) == [lib.show(Rewritten(s, b).value) + ";"]
  {
    assert PieceMapped([Ddl(s)][0]);
    RewritingChangesOnlyTypes(s, b);
  }

  /**
   Each backend's `up.sql` is the one common sequence of pieces, less the other backend's blocks: the
   statements in full with only their types replaced, the blocks trimmed, nothing moved.
   */
  lemma {:induction false} BackendsAgree(lib: SqlLibrary, segments: seq<Segment>, b: Backend)
    requires Contents(lib, segments).Ok? && AllPiecesMapped(Contents(lib, segments).value)
    ensures AllPiecesMapped(KeptFor(Contents(lib, segments).value, b))
    ensures UpPieces(lib, segments, b) == Ok(PieceTexts(lib, KeptFor(Contents(lib, segments).value, b), b))
  {
    KeptAreMapped(Contents(lib, segments).value, b);
    if segments != [] {
      var rest := Contents(lib, segments[1..]).value;
      var front := match segments[0]
        case Shared(sql) => DdlPieces(Parsed(lib, sql).value)
        case Tagged(own, raw) => [Raw(own, raw)];
      SplitMapped(front, rest);
      BackendsAgree(lib, segments[1..], b);
      KeptAppend(front, rest, b);
      SegmentAgrees(lib, segments[0], front, b);
      TextsAppend(lib, KeptFor(front, b), KeptFor(rest, b), b);
    }
  }

  lemma {:induction false} SplitMapped(a: seq<Piece>, c: seq<Piece>)
    requires AllPiecesMapped(a + c)
    ensures AllPiecesMapped(a) && AllPiecesMapped(c)
  {
    assert forall i :: 0 <= i < |a| ==> a[i] == (a + c)[i];
    assert forall i :: 0 <= i < |c| ==> c[i] == (a + c)[|a| + i];
  }

  lemma {:induction false} TextsAppend(lib: SqlLibrary, a: seq<Piece>, c: seq<Piece>, b: Backend)
    requires AllPiecesMapped(a) && AllPiecesMapped(c)
    ensures AllPiecesMapped(a + c)
    ensures PieceTexts(lib, a + c, b) == PieceTexts(lib, a, b) + PieceTexts(lib, c, b)
  {
  }

  lemma {:induction false} SegmentAgrees(lib: SqlLibrary, segment: Segment, pieces: seq<Piece>, b: Backend)
    requires AllPiecesMapped(pieces)
    requires match segment
             case Shared(sql) => Parsed(lib, sql).Ok? && pieces == DdlPieces(Parsed(lib, sql).value)
             case Tagged(own, raw) => pieces == [Raw(own, raw)]
    ensures AllPiecesMapped(KeptFor(pieces, b))
    ensures SegmentPieces(lib, segment, b) == Ok(PieceTexts(lib, KeptFor(pieces, b), b))
  {
    match segment
    case Shared(sql) =>
      KeptStatements(Parsed(lib, sql).value, b);
      StatementTexts(lib, Parsed(lib, sql).value, b);
    case Tagged(own, raw) =>
      assert pieces[1..] == [];
      if own == b {
        assert KeptFor(pieces, b) == pieces;
        assert PieceTexts(lib, pieces, b) == [Text.Trim(raw)];
      } else {
        assert KeptFor(pieces, b) == [];
        assert PieceTexts(lib, [], b) == [];
      }
  }

  function DdlOf(pieces: seq<Piece>): seq<Statement> {
    if pieces == [] then []
    else (if pieces[0].Ddl? then [pieces[0].statement] else []) + DdlOf(pieces[1..])
  }

  function RawOf(pieces: seq<Piece>, b: Backend): seq<string> {
    if pieces == [] then []
    else (if pieces[0].Raw? && pieces[0].backend == b then [pieces[0].text] else []) + RawOf(pieces[1..], b)
  }

  /** A backend keeps every shared statement and every block of its own, and no block of the other. */
  lemma {:induction false} NothingLostOrGained(pieces: seq<Piece>, b: Backend, other: Backend)
    requires other != b
    ensures DdlOf(KeptFor(pieces, b)) == DdlOf(pieces)
    ensures RawOf(KeptFor(pieces, b), b) == RawOf(pieces, b)
    ensures RawOf(KeptFor(pieces, b), other) == []
  {
    if pieces != [] {
      NothingLostOrGained(pieces[1..], b, other);
      var kept := KeptFor(pieces, b);
      if kept != KeptFor(pieces[1..], b) {
        assert kept[0] == pieces[0] && kept[1..] == KeptFor(pieces[1..], b);
      }
    }
  }

  // ----- No late failures -----

  /** The statements of all shared chunks, or the first parse error. */
  function SharedStatements(lib: SqlLibrary, segments: seq<Segment>): Result<seq<Statement>, Error> {
    if segments == [] then Ok([])
    else
      match segments[0]
      case Shared(sql) => Then(Parsed(lib, sql), SharedStatements(lib, segments[1..]))
      case Tagged(_, _) => SharedStatements(lib, segments[1..])
  }

  predicate StatementsMapped(statements: seq<Statement>) {
    forall i :: 0 <= i < |statements| ==> AllMapped(Definitions(statements[i]))
  }

  lemma {:induction false} AppliedOpsAreMapped(tables: seq<ModelTable>, name: string, ops: seq<AlterOp>)
    requires ApplyOps(tables, name, ops).result.Ok?
    ensures forall i :: 0 <= i < |ops| ==> OpMapped(ops[i])
    decreases |ops|
  {
    if ops != [] {
      AppliedOpsAreMapped(ApplyOp(tables, name, ops[0]).tables, name, ops[1..]);
    }
  }

  /** A statement list that folds has a mapping for every type that rewriting will meet. */
  lemma {:induction false} FoldedIsMapped(tables: seq<ModelTable>, statements: seq<Statement>)
    requires Fold(tables, statements).result.Ok?
    ensures StatementsMapped(statements)
    decreases |statements|
  {
    if statements != [] {
      var s := statements[0];
      FoldedIsMapped(ApplyStatement(tables, s).tables, statements[1..]);
      assert AllMapped(Definitions(s)) by {
        if s.AlterTable? {
          AppliedOpsAreMapped(tables, LastIdent(s.name), s.operations);
          AddedMapped(s.operations);
        }
      }
    }
  }

  lemma {:induction false} MappedStatementsRender(lib: SqlLibrary, statements: seq<Statement>, b: Backend)
    requires StatementsMapped(statements)
    ensures StatementPieces(lib, statements, b).Ok?
  {
    if statements != [] {
      assert AllMapped(Definitions(statements[0]));
      RewritingChangesOnlyTypes(statements[0], b);
      MappedStatementsRender(lib, statements[1..], b);
    }
  }

  lemma {:induction false} CreatedByAppend(a: seq<Statement>, c: seq<Statement>)
    ensures CreatedBy(a + c) == CreatedBy(a) + CreatedBy(c)
  {
    if a == [] {
      assert a + c == c;
    } else {
      assert (a + c)[1..] == a[1..] + c;
      CreatedByAppend(a[1..], c);
    }
  }

  /** Once the chunks parse and their types are mapped, neither rendering nor the derived down can fail. */
  lemma {:induction false} RenderingSucceeds(lib: SqlLibrary, segments: seq<Segment>, b: Backend)
    requires SharedStatements(lib, segments).Ok? && StatementsMapped(SharedStatements(lib, segments).value)
    ensures UpPieces(lib, segments, b).Ok?
    ensures CreatedIn(lib, segments) == Ok(CreatedBy(SharedStatements(lib, segments).value))
  {
    if segments != [] {
      var rest := SharedStatements(lib, segments[1..]).value;
      match segments[0]
      case Shared(sql) =>
        var statements := Parsed(lib, sql).value;
        var all := statements + rest;
        assert forall i :: 0 <= i < |statements| ==> statements[i] == all[i];
        assert forall i :: 0 <= i < |rest| ==> rest[i] == all[|statements| + i];
        MappedStatementsRender(lib, statements, b);
        CreatedByAppend(statements, rest);
        RenderingSucceeds(lib, segments[1..], b);
      case Tagged(_, _) =>
        RenderingSucceeds(lib, segments[1..], b);
    }
  }
}
