/**
 Printing `schema.rs`. The text is specified line by line; the methods build it as one growing string.
 */
module SchemaText {
  import opened Wrappers
  import opened Sql
  import opened SchemaModel
  import Text

  // ----- Import lists -----

  /** Rust's `rfind("::")`; the length when there is none. */
  function LastSeparator(s: string): (n: nat)
    ensures n == |s| || SeparatorAt(s, n)
    ensures forall k :: SeparatorAt(s, k) ==> n != |s| && k <= n
  {
    SeparatorBelow(s, |s|)
  }

  predicate SeparatorAt(s: string, k: int) {
    0 <= k && k + 1 < |s| && s[k] == ':' && s[k + 1] == ':'
  }

  function SeparatorBelow(s: string, limit: nat): (n: nat)
    requires limit <= |s|
    ensures n == |s| || (n < limit && SeparatorAt(s, n))
    ensures forall k :: k < limit && SeparatorAt(s, k) ==> n != |s| && k <= n
  {
    if limit == 0 then |s|
    else if SeparatorAt(s, limit - 1) then limit - 1
    else SeparatorBelow(s, limit - 1)
  }

  /** `marker_parts`: the path and the name of a qualified marker. */
  function MarkerParts(marker: string): (string, string) {
    var n := LastSeparator(marker);
    if n == |marker| then (marker, "") else (marker[..n], marker[n + 2..])
  }

  lemma {:induction false} SeparatorOfMarker(path: string, name: string)
    requires ':' !in name
    ensures MarkerParts(path + "::" + name) == (path, name)
  {
    var s := path + "::" + name;
    assert SeparatorAt(s, |path|);
    forall j | |path| + 2 <= j < |s|
      ensures s[j] != ':'
    {
      assert s[j] == name[j - |path| - 2];
      assert s[j] in name;
    }
    assert LastSeparator(s) == |path|;
    assert s[..|path|] == path && s[|path| + 2..] == name;
  }

  /** Cutting a marker's text at its last "::" gives the path and name it was composed of. */
  lemma {:induction false} MarkerPartsOfMarker(m: Marker)
    ensures MarkerParts(m.Text()) == (m.Path(), m.Name())
  {
    assert ':' !in m.Name();
    SeparatorOfMarker(m.Path(), m.Name());
  }

  /** The names of one kind that the columns use, each once, in order of appearance. */
  function Used(columns: seq<ModelColumn>, portable: bool): seq<string> {
    if columns == [] then []
    else
      var names := Used(columns[..|columns| - 1], portable);
      var m := columns[|columns| - 1].marker;
      if m.IsPortable() != portable || m.Name() in names then names else names + [m.Name()]
  }

  predicate SomeNullable(columns: seq<ModelColumn>) {
    exists i :: 0 <= i < |columns| && columns[i].nullable
  }

  function DieselUsed(columns: seq<ModelColumn>): seq<string> {
    var names := Used(columns, false);
    if SomeNullable(columns) && "Nullable" !in names then names + ["Nullable"] else names
  }

  function Insert(name: string, sorted: seq<string>): seq<string> {
    if sorted == [] || Text.Less(name, sorted[0]) then [name] + sorted
    else [sorted[0]] + Insert(name, sorted[1..])
  }

  /** The names in byte order, as `sort_unstable` leaves them. */
  function Sort(names: seq<string>): seq<string> {
    if names == [] then [] else Insert(names[0], Sort(names[1..]))
  }

  function DieselImports(columns: seq<ModelColumn>): seq<string> {
    Sort(DieselUsed(columns))
  }

  function PortableImports(columns: seq<ModelColumn>): seq<string> {
    Sort(Used(columns, true))
  }

  // ----- Lines -----

  /** `render_use`, without its line feed. */
  function UseLines(path: string, names: seq<string>): seq<string> {
    if names == [] then []
    else if |names| == 1 then ["    use " + path + "::" + (names[0] + ";")]
    else ["    use " + path + "::" + ("{" + (Text.Join(names, ", ") + "};"))]
  }

  function TypeText(c: ModelColumn): string {
    if c.nullable then "Nullable<" + (c.marker.Name() + ">") else c.marker.Name()
  }

  function ColumnLine(c: ModelColumn): string {
    "        " + (c.name + (" -> " + (TypeText(c) + ",")))
  }

  function ColumnLines(columns: seq<ModelColumn>): seq<string> {
    if columns == [] then []
    else ColumnLines(columns[..|columns| - 1]) + [ColumnLine(columns[|columns| - 1])]
  }

  const TABLE_OPEN: string := "diesel::table! {"
  const COLUMNS_CLOSE: string := "    }"
  const TABLE_CLOSE: string := "}"

  function KeyLine(t: ModelTable): string {
    "    " + (t.name + (" (" + (Text.Join(t.PrimaryKeyCols(), ", ") + ") {")))
  }

  function Imports(t: ModelTable): seq<string> {
    UseLines(DIESEL, DieselImports(t.columns)) + UseLines(DUALDB, PortableImports(t.columns))
  }

  function TableLines(t: ModelTable): seq<string> {
    [TABLE_OPEN] + Imports(t) + ["", KeyLine(t)] + ColumnLines(t.columns) + [COLUMNS_CLOSE, TABLE_CLOSE]
  }

  /** The table blocks with an empty line between; a lone empty line when there are none. */
  function BlockLines(tables: seq<ModelTable>): seq<string> {
    if tables == [] then [""]
    else if |tables| == 1 then TableLines(tables[0])
    else TableLines(tables[0]) + [""] + BlockLines(tables[1..])
  }

  function JoinLine(table: string, parent: string, column: string): string {
    "diesel::joinable!(" + (table + (" -> " + (parent + (" (" + (column + "));")))))
  }

  function TableJoins(table: string, fks: seq<(string, string)>): seq<string> {
    if fks == [] then []
    else TableJoins(table, fks[..|fks| - 1]) + [JoinLine(table, fks[|fks| - 1].1, fks[|fks| - 1].0)]
  }

  function JoinLines(tables: seq<ModelTable>): seq<string> {
    if tables == [] then []
    else
      var t := tables[|tables| - 1];
      JoinLines(tables[..|tables| - 1]) + TableJoins(t.name, t.foreignKeys)
  }

  // The two longest fixed lines are written in parts: the proofs about their characters go part by part.
  const ALLOW_OPEN: string := "diesel::allow_tables_" + "to_appear_in_same_query!("
  const ALLOW_CLOSE: string := ");"

  function AllowLine(name: string): string {
    "    " + (name + ",")
  }

  function AllowLines(tables: seq<ModelTable>): seq<string> {
    if tables == [] then [] else [AllowLine(tables[0].name)] + AllowLines(tables[1..])
  }

  const HEADER: string := "// @generated by " + "diesel-dualdb-schema " + "\U{2014} do not edit by hand."

  function Joinables(tables: seq<ModelTable>): seq<string> {
    if JoinLines(tables) == [] then []
    else [""] + JoinLines(tables) + ["", ALLOW_OPEN] + AllowLines(tables) + [ALLOW_CLOSE]
  }

  function SchemaLines(tables: seq<ModelTable>): seq<string> {
    [HEADER, ""] + BlockLines(tables) + Joinables(tables)
  }

  // ----- The methods -----

  method CollectNames(columns: seq<ModelColumn>) returns (diesel: seq<string>, dualdb: seq<string>)
    ensures diesel == DieselUsed(columns) && dualdb == Used(columns, true)
  {
    diesel, dualdb := [], [];
    var anyNullable := false;
    for i := 0 to |columns|
      invariant diesel == Used(columns[..i], false) && dualdb == Used(columns[..i], true)
      invariant anyNullable == SomeNullable(columns[..i])
    {
      PrefixStep(columns, i);
      var c := columns[i];
      MarkerPartsOfMarker(c.marker);
      PathTellsKind(c.marker);
      var (path, name) := MarkerParts(c.marker.Text());
      if "diesel_dualdb" <= path {
        if name !in dualdb {
          dualdb := dualdb + [name];
        }
      } else if name !in diesel {
        diesel := diesel + [name];
      }
      assert SomeNullable(columns[..i + 1]) == (SomeNullable(columns[..i]) || c.nullable) by {
        assert forall j :: 0 <= j < i ==> columns[..i + 1][j] == columns[..i][j];
      }
      anyNullable := anyNullable || c.nullable;
    }
    WholePrefix(columns);
    if anyNullable && "Nullable" !in diesel {
      diesel := diesel + ["Nullable"];
    }
  }

  lemma {:induction false} PathTellsKind(m: Marker)
    ensures "diesel_dualdb" <= m.Path() <==> m.IsPortable()
  {
    assert DIESEL[6] == ':' && "diesel_dualdb"[6] == '_';
    assert DUALDB == "diesel_dualdb" + "::sql_types";
  }

  /** `render_use`: one `use` line, braces only around several names. */
  function RenderUse(path: string, names: seq<string>): Option<string> {
    if names == [] then None
    else if |names| == 1 then Some("    use " + path + "::" + (names[0] + ";") + "\n")
    else Some("    use " + path + "::" + ("{" + (Text.Join(names, ", ") + "};")) + "\n")
  }

  lemma {:induction false} RenderUseLines(path: string, names: seq<string>)
    ensures RenderUse(path, names).None? ==> UseLines(path, names) == []
    ensures RenderUse(path, names).Some? ==>
            |UseLines(path, names)| == 1 && RenderUse(path, names).value == UseLines(path, names)[0] + "\n"
  {
  }

  method RenderColumns(columns: seq<ModelColumn>) returns (out: string)
    ensures out == Text.Unlines(ColumnLines(columns))
  {
    out := "";
    for i := 0 to |columns|
      invariant out == Text.Unlines(ColumnLines(columns[..i]))
    {
      PrefixStep(columns, i);
      Text.UnlinesSnoc(ColumnLines(columns[..i]), ColumnLine(columns[i]));
      out := out + ColumnLine(columns[i]) + "\n";
    }
    WholePrefix(columns);
  }

  method RenderImports(columns: seq<ModelColumn>) returns (out: string)
    ensures out == Text.Unlines(UseLines(DIESEL, DieselImports(columns)) + UseLines(DUALDB, PortableImports(columns)))
  {
    var diesel, dualdb := CollectNames(columns);
    diesel, dualdb := Sort(diesel), Sort(dualdb);
    out := "";
    UseText(DIESEL, diesel);
    UseText(DUALDB, dualdb);
    Text.UnlinesAppend(UseLines(DIESEL, diesel), UseLines(DUALDB, dualdb));
    var line := RenderUse(DIESEL, diesel);
    if line.Some? {
      out := out + line.value;
    }
    line := RenderUse(DUALDB, dualdb);
    if line.Some? {
      out := out + line.value;
    }
  }

  lemma {:induction false} UseText(path: string, names: seq<string>)
    ensures Text.Unlines(UseLines(path, names)) ==
            match RenderUse(path, names) { case Some(line) => line case None => "" }
  {
    RenderUseLines(path, names);
    if RenderUse(path, names).Some? {
      OneLineText(UseLines(path, names));
    }
  }

  lemma {:induction false} OneLineText(ls: seq<string>)
    requires |ls| == 1
    ensures Text.Unlines(ls) == ls[0] + "\n"
  {
    assert ls[1..] == [];
  }

  lemma {:induction false} TwoLineText(x: string, y: string)
    ensures Text.Unlines([x, y]) == x + "\n" + y + "\n"
  {
    assert [x, y][1..] == [y];
    OneLineText([y]);
    assert x + "\n" + (y + "\n") == x + "\n" + y + "\n";
  }

  /** `render_table_macro`: the block of one table, without a final line feed. */
  method RenderTable(t: ModelTable) returns (out: string)
    ensures out + "\n" == Text.Unlines(TableLines(t))
  {
    out := "diesel::table! {\n";
    var uses := RenderImports(t.columns);
    out := out + uses;
    HeadText(t, out);
    out := out + "\n" + KeyLine(t) + "\n";
    var columns := RenderColumns(t.columns);
    Text.UnlinesAppend(Head(t), ColumnLines(t.columns));
    out := out + columns;
    TailText(t, out);
    out := out + "    }\n}";
  }

  function Head(t: ModelTable): seq<string> {
    [TABLE_OPEN] + Imports(t) + [""] + [KeyLine(t)]
  }

  lemma {:induction false} HeadText(t: ModelTable, text: string)
    requires text == "diesel::table! {\n" + Text.Unlines(Imports(t))
    ensures Text.Unlines(Head(t)) == text + "\n" + KeyLine(t) + "\n"
  {
    OneLineText([TABLE_OPEN]);
    assert TABLE_OPEN + "\n" == "diesel::table! {\n";
    Text.UnlinesAppend([TABLE_OPEN], Imports(t));
    Text.UnlinesSnoc([TABLE_OPEN] + Imports(t), "");
    assert text + "" == text;
    Text.UnlinesSnoc([TABLE_OPEN] + Imports(t) + [""], KeyLine(t));
  }

  lemma {:induction false} TailText(t: ModelTable, text: string)
    requires text == Text.Unlines(Head(t) + ColumnLines(t.columns))
    ensures text + "    }\n}" + "\n" == Text.Unlines(TableLines(t))
  {
    var body := Head(t) + ColumnLines(t.columns);
    Text.UnlinesSnoc(body, COLUMNS_CLOSE);
    Text.UnlinesSnoc(body + [COLUMNS_CLOSE], TABLE_CLOSE);
    EndText(text);
    TableLinesShape(t);
  }

  lemma {:induction false} EndText(text: string)
    ensures text + "    }\n}" == text + COLUMNS_CLOSE + "\n" + TABLE_CLOSE
  {
    assert "    }\n}" == COLUMNS_CLOSE + "\n" + TABLE_CLOSE;
  }

  lemma {:induction false} TableLinesShape(t: ModelTable)
    ensures TableLines(t) == Head(t) + ColumnLines(t.columns) + [COLUMNS_CLOSE] + [TABLE_CLOSE]
  {
  }

  // ----- The whole file -----

  /** Text without its last line feed, and more text after it. */
  lemma {:induction false} MoreLines(out: string, lines: seq<string>, text: string, more: seq<string>)
    requires out + "\n" == Text.Unlines(lines) && text + "\n" == Text.Unlines(more)
    ensures out + "\n" + text + "\n" == Text.Unlines(lines + more)
  {
    Text.UnlinesAppend(lines, more);
    assert out + "\n" + text + "\n" == out + "\n" + (text + "\n");
  }

  lemma {:induction false} BlankFirst(text: string, ls: seq<string>)
    requires text + "\n" == Text.Unlines(ls)
    ensures "\n" + text + "\n" == Text.Unlines([""] + ls)
  {
    assert ([""] + ls)[1..] == ls;
    assert "\n" + text + "\n" == "" + "\n" + (text + "\n");
  }

  lemma {:induction false} JoinedLines(ls: seq<string>)
    requires ls != []
    ensures Text.Join(ls, "\n") + "\n" == Text.Unlines(ls)
  {
    if |ls| == 1 {
      OneLineText(ls);
    } else {
      JoinedLines(ls[1..]);
      assert ls[0] + "\n" + Text.Join(ls[1..], "\n") + "\n" == ls[0] + "\n" + (Text.Join(ls[1..], "\n") + "\n");
    }
  }

  lemma {:induction false} JoinedBlocks(tables: seq<ModelTable>, blocks: seq<string>)
    requires |blocks| == |tables|
    requires forall i :: 0 <= i < |tables| ==> blocks[i] + "\n" == Text.Unlines(TableLines(tables[i]))
    ensures Text.Join(blocks, "\n\n") + "\n" == Text.Unlines(BlockLines(tables))
  {
    if tables == [] {
      OneLineText([""]);
    } else if |tables| > 1 {
      var rest := Text.Join(blocks[1..], "\n\n");
      JoinedBlocks(tables[1..], blocks[1..]);
      BlankFirst(rest, BlockLines(tables[1..]));
      MoreLines(blocks[0], TableLines(tables[0]), "\n" + rest, [""] + BlockLines(tables[1..]));
      assert TableLines(tables[0]) + ([""] + BlockLines(tables[1..])) == BlockLines(tables);
      BlockBreak(blocks[0], rest);
    }
  }

  lemma {:induction false} BlockBreak(block: string, rest: string)
    ensures block + "\n\n" + rest + "\n" == block + "\n" + ("\n" + rest) + "\n"
  {
  }

  function NamesOf(tables: seq<ModelTable>): seq<string> {
    if tables == [] then [] else [tables[0].name] + NamesOf(tables[1..])
  }

  lemma {:induction false} JoinedNames(tables: seq<ModelTable>)
    requires tables != []
    ensures "    " + Text.Join(NamesOf(tables), ",\n    ") + "," + "\n" == Text.Unlines(AllowLines(tables))
  {
    var n := tables[0].name;
    if |tables| == 1 {
      assert NamesOf(tables) == [n] && AllowLines(tables) == [AllowLine(n)];
      OneLineText([AllowLine(n)]);
      assert "    " + n + "," == AllowLine(n);
    } else {
      var rest := Text.Join(NamesOf(tables[1..]), ",\n    ");
      JoinedNames(tables[1..]);
      assert NamesOf(tables)[1..] == NamesOf(tables[1..]);
      NameBreak(n, rest);
      assert AllowLines(tables)[1..] == AllowLines(tables[1..]);
    }
  }

  lemma {:induction false} NameBreak(n: string, rest: string)
    ensures "    " + (n + ",\n    " + rest) + "," + "\n" == AllowLine(n) + "\n" + ("    " + rest + "," + "\n")
  {
    assert ",\n    " == "," + "\n" + "    ";
  }

  lemma {:induction false} ManyTablesForJoins(tables: seq<ModelTable>)
    requires JoinLines(tables) != []
    ensures tables != []
  {
  }

  method RenderBlocks(tables: seq<ModelTable>) returns (blocks: seq<string>)
    ensures |blocks| == |tables|
    ensures forall i :: 0 <= i < |tables| ==> blocks[i] + "\n" == Text.Unlines(TableLines(tables[i]))
  {
    blocks := [];
    for i := 0 to |tables|
      invariant |blocks| == i
      invariant forall j :: 0 <= j < i ==> blocks[j] + "\n" == Text.Unlines(TableLines(tables[j]))
    {
      var block := RenderTable(tables[i]);
      blocks := blocks + [block];
    }
  }

  method RenderJoins(tables: seq<ModelTable>) returns (joinables: seq<string>)
    ensures joinables == JoinLines(tables)
  {
    joinables := [];
    for i := 0 to |tables|
      invariant joinables == JoinLines(tables[..i])
    {
      PrefixStep(tables, i);
      var t := tables[i];
      ghost var before := joinables;
      for j := 0 to |t.foreignKeys|
        invariant joinables == before + TableJoins(t.name, t.foreignKeys[..j])
      {
        PrefixStep(t.foreignKeys, j);
        var (col, parent) := t.foreignKeys[j];
        joinables := joinables + [JoinLine(t.name, parent, col)];
      }
      WholePrefix(t.foreignKeys);
    }
    WholePrefix(tables);
  }

  /** `render_schema_rs`. */
  method RenderSchemaRs(model: Model) returns (out: string)
    ensures out == Text.Unlines(SchemaLines(model.tables))
  {
    var tables := model.tables;
    var blocks := RenderBlocks(tables);
    var joinables := RenderJoins(tables);
    out := HEADER + "\n\n" + Text.Join(blocks, "\n\n");
    StartText(tables, blocks);
    ghost var lines := [HEADER, ""] + BlockLines(tables);
    if joinables != [] {
      JoinsText(out, lines, joinables);
      out := out + "\n" + ("\n" + Text.Join(joinables, "\n"));
      AllowText(out, lines + ([""] + joinables), tables);
      out := out + "\n" + ("\n" + ALLOW_OPEN + "\n" + ("    " + Text.Join(NamesOf(tables), ",\n    ") + ",") + "\n" +
                           ALLOW_CLOSE);
      SchemaShape(tables);
    } else {
      assert SchemaLines(tables) == lines;
    }
    out := out + "\n";
  }

  lemma {:induction false} StartText(tables: seq<ModelTable>, blocks: seq<string>)
    requires |blocks| == |tables|
    requires forall i :: 0 <= i < |tables| ==> blocks[i] + "\n" == Text.Unlines(TableLines(tables[i]))
    ensures HEADER + "\n\n" + Text.Join(blocks, "\n\n") + "\n" == Text.Unlines([HEADER, ""] + BlockLines(tables))
  {
    var joined := Text.Join(blocks, "\n\n");
    JoinedBlocks(tables, blocks);
    TwoLineText(HEADER, "");
    Text.UnlinesAppend([HEADER, ""], BlockLines(tables));
    TwoBreaks(HEADER, joined);
  }

  lemma {:induction false} TwoBreaks(head: string, rest: string)
    ensures head + "\n\n" + rest + "\n" == head + "\n" + "" + "\n" + (rest + "\n")
  {
  }

  lemma {:induction false} JoinsText(out: string, lines: seq<string>, joinables: seq<string>)
    requires joinables != [] && out + "\n" == Text.Unlines(lines)
    ensures out + "\n" + ("\n" + Text.Join(joinables, "\n")) + "\n" == Text.Unlines(lines + ([""] + joinables))
  {
    JoinedLines(joinables);
    BlankFirst(Text.Join(joinables, "\n"), joinables);
    MoreLines(out, lines, "\n" + Text.Join(joinables, "\n"), [""] + joinables);
  }

  function AllowBlock(tables: seq<ModelTable>): seq<string> {
    ["", ALLOW_OPEN] + AllowLines(tables) + [ALLOW_CLOSE]
  }

  lemma {:induction false} AllowText(out: string, lines: seq<string>, tables: seq<ModelTable>)
    requires JoinLines(tables) != [] && out + "\n" == Text.Unlines(lines)
    ensures out + "\n" + ("\n" + ALLOW_OPEN + "\n" + ("    " + Text.Join(NamesOf(tables), ",\n    ") + ",") + "\n" +
                          ALLOW_CLOSE) + "\n"
            == Text.Unlines(lines + AllowBlock(tables))
  {
    ManyTablesForJoins(tables);
    JoinedNames(tables);
    ThreeParts(out, lines, ALLOW_OPEN, "    " + Text.Join(NamesOf(tables), ",\n    ") + ",", AllowLines(tables),
               ALLOW_CLOSE);
  }

  lemma {:induction false} ThreeParts(out: string, lines: seq<string>, open: string, inner: string,
                                      innerLines: seq<string>, close: string)
    requires out + "\n" == Text.Unlines(lines) && inner + "\n" == Text.Unlines(innerLines)
    ensures out + "\n" + ("\n" + open + "\n" + inner + "\n" + close) + "\n" ==
            Text.Unlines(lines + (["", open] + innerLines + [close]))
  {
    TwoLineText("", open);
    MoreLines("\n" + open, ["", open], inner, innerLines);
    OneLineText([close]);
    MoreLines("\n" + open + "\n" + inner, ["", open] + innerLines, close, [close]);
    MoreLines(out, lines, "\n" + open + "\n" + inner + "\n" + close, ["", open] + innerLines + [close]);
  }

  lemma {:induction false} SchemaShape(tables: seq<ModelTable>)
    requires JoinLines(tables) != []
    ensures SchemaLines(tables) == [HEADER, ""] + BlockLines(tables) + ([""] + JoinLines(tables)) + AllowBlock(tables)
  {
    var start := [HEADER, ""] + BlockLines(tables);
    Regrouped(start, [""] + JoinLines(tables), ["", ALLOW_OPEN], AllowLines(tables), [ALLOW_CLOSE]);
  }

  lemma {:induction false} Regrouped(a: seq<string>, b: seq<string>, c: seq<string>, d: seq<string>, e: seq<string>)
    ensures a + (b + c + d + e) == a + b + (c + d + e)
  {
  }
}
