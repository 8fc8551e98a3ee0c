/** The `schema.rs` of two tables, letter by letter and for any names: the printed form, apart from any parser. */
module SchemaInWriting {
  import opened Sql
  import opened SchemaModel
  import opened SchemaText
  import Text

  // ----- The model -----

  /** A table without a declared key, with a number and a nullable Uuid, that refers to another. */
  function ChildTable(child: string, id: string, owner: string, parent: string): ModelTable {
    ModelTable(child, [ModelColumn(id, IntegerMarker, false), ModelColumn(owner, UuidMarker, true)], [],
               [(owner, parent)])
  }

  /** A table with a key of two columns. */
  function ParentTable(parent: string, x: string, y: string): ModelTable {
    ModelTable(parent, [ModelColumn(x, TextMarker, false), ModelColumn(y, BigIntMarker, false)], [x, y], [])
  }

  // ----- The text -----

  function ChildBlock(child: string, id: string, owner: string): seq<string> {
    ["diesel::table! {",
     "    use diesel::sql_types::{Integer, Nullable};",
     "    use diesel_dualdb::sql_types::Uuid;",
     "",
     "    " + child + " (" + id + ") {",
     "        " + id + " -> Integer,",
     "        " + owner + " -> Nullable<Uuid>,",
     "    }",
     "}"]
  }

  function ParentBlock(parent: string, x: string, y: string): seq<string> {
    ["diesel::table! {",
     "    use diesel::sql_types::{BigInt, Text};",
     "",
     "    " + parent + " (" + x + ", " + y + ") {",
     "        " + x + " -> Text,",
     "        " + y + " -> BigInt,",
     "    }",
     "}"]
  }

  // ----- Import lists -----

  lemma {:induction false} UsedSnoc(columns: seq<ModelColumn>, c: ModelColumn, portable: bool)
    ensures Used(columns + [c], portable) ==
            var names := Used(columns, portable);
            if c.marker.IsPortable() != portable || c.marker.Name() in names then names else names + [c.marker.Name()]
  {
    assert (columns + [c])[..|columns|] == columns;
  }

  function WithName(names: seq<string>, m: Marker, portable: bool): seq<string> {
    if m.IsPortable() != portable || m.Name() in names then names else names + [m.Name()]
  }

  lemma {:induction false} TwoUsed(x: ModelColumn, y: ModelColumn, portable: bool)
    ensures Used([x, y], portable) == WithName(WithName([], x.marker, portable), y.marker, portable)
  {
    assert [] + [x] == [x] && [x] + [y] == [x, y];
    UsedSnoc([], x, portable);
    UsedSnoc([x], y, portable);
  }

  lemma {:induction false} Sorted1(x: string)
    ensures Sort([x]) == [x]
  {
    assert [x][1..] == [];
    assert Sort([]) == [];
  }

  lemma {:induction false} Sorted2(x: string, y: string)
    requires x != "" && y != "" && x[0] != y[0]
    ensures Sort([x, y]) == if x[0] < y[0] then [x, y] else [y, x]
  {
    assert [x, y][1..] == [y];
    Sorted1(y);
    assert [y][1..] == [];
    assert Insert(x, []) == [x];
    assert Sort([x, y]) == Insert(x, [y]);
  }

  lemma {:induction false} ChildImports(columns: seq<ModelColumn>)
    requires |columns| == 2 && columns[0].marker == IntegerMarker && columns[1].marker == UuidMarker
    requires columns[1].nullable
    ensures DieselImports(columns) == ["Integer", "Nullable"] && PortableImports(columns) == ["Uuid"]
  {
    assert columns == [columns[0], columns[1]];
    TwoUsed(columns[0], columns[1], false);
    TwoUsed(columns[0], columns[1], true);
    assert Used(columns, false) == ["Integer"] && Used(columns, true) == ["Uuid"];
    assert SomeNullable(columns);
    assert "Integer" != "Nullable" && DieselUsed(columns) == ["Integer", "Nullable"];
    Sorted2("Integer", "Nullable");
    Sorted1("Uuid");
  }

  lemma {:induction false} ParentImports(columns: seq<ModelColumn>)
    requires |columns| == 2 && columns[0].marker == TextMarker && columns[1].marker == BigIntMarker
    requires !columns[0].nullable && !columns[1].nullable
    ensures DieselImports(columns) == ["BigInt", "Text"] && PortableImports(columns) == []
  {
    assert columns == [columns[0], columns[1]];
    TwoUsed(columns[0], columns[1], false);
    TwoUsed(columns[0], columns[1], true);
    Sorted2("Text", "BigInt");
  }

  lemma {:induction false} DieselUse()
    ensures "    use " + DIESEL + "::" == "    use diesel::sql_types::"
  {
  }

  lemma {:induction false} ChildDieselUse()
    ensures UseLines(DIESEL, ["Integer", "Nullable"]) == ["    use diesel::sql_types::{Integer, Nullable};"]
  {
    DieselUse();
    assert ["Integer", "Nullable"][1..] == ["Nullable"];
    assert Text.Join(["Integer", "Nullable"], ", ") + "};" == "Integer, Nullable};";
    assert "    use diesel::sql_types::" + ("{" + "Integer, Nullable};") ==
           "    use diesel::sql_types::{Integer, Nullable};";
  }

  lemma {:induction false} ChildPortableUse()
    ensures UseLines(DUALDB, ["Uuid"]) == ["    use diesel_dualdb::sql_types::Uuid;"]
  {
    assert "    use " + DUALDB + "::" == "    use diesel_dualdb::sql_types::";
    assert "    use diesel_dualdb::sql_types::" + ("Uuid" + ";") == "    use diesel_dualdb::sql_types::Uuid;";
  }

  lemma {:induction false} ParentUses()
    ensures UseLines(DIESEL, ["BigInt", "Text"]) == ["    use diesel::sql_types::{BigInt, Text};"]
    ensures UseLines(DUALDB, []) == []
  {
    assert ["BigInt", "Text"][1..] == ["Text"];
    assert Text.Join(["BigInt", "Text"], ", ") + "};" == "BigInt, Text};";
    DieselUse();
    assert "    use diesel::sql_types::" + ("{" + "BigInt, Text};") == "    use diesel::sql_types::{BigInt, Text};";
  }

  // ----- Lines -----

  lemma {:induction false} Three(a: string, b: string, c: string)
    ensures a + (b + c) == a + b + c
  {
  }

  lemma {:induction false} ColumnInWriting(c: ModelColumn, rest: string)
    requires rest == " -> " + (TypeText(c) + ",")
    ensures ColumnLine(c) == "        " + c.name + rest
  {
    Three("        ", c.name, rest);
  }

  lemma {:induction false} TwoColumns(columns: seq<ModelColumn>)
    requires |columns| == 2
    ensures ColumnLines(columns) == [ColumnLine(columns[0]), ColumnLine(columns[1])]
  {
    assert columns[..1][..0] == [];
    assert ColumnLines(columns[..1]) == [] + [ColumnLine(columns[0])];
  }

  lemma {:induction false} Types()
    ensures " -> " + ("Integer" + ",") == " -> Integer,"
    ensures " -> " + ("Nullable<" + ("Uuid" + ">") + ",") == " -> Nullable<Uuid>,"
    ensures " -> " + ("Text" + ",") == " -> Text,"
    ensures " -> " + ("BigInt" + ",") == " -> BigInt,"
  {
  }

  lemma {:induction false} ChildColumnLines(id: string, owner: string)
    ensures ColumnLines([ModelColumn(id, IntegerMarker, false), ModelColumn(owner, UuidMarker, true)]) ==
            ["        " + id + " -> Integer,", "        " + owner + " -> Nullable<Uuid>,"]
  {
    Types();
    ColumnInWriting(ModelColumn(id, IntegerMarker, false), " -> Integer,");
    ColumnInWriting(ModelColumn(owner, UuidMarker, true), " -> Nullable<Uuid>,");
    TwoColumns([ModelColumn(id, IntegerMarker, false), ModelColumn(owner, UuidMarker, true)]);
  }

  lemma {:induction false} ParentColumnLines(x: string, y: string)
    ensures ColumnLines([ModelColumn(x, TextMarker, false), ModelColumn(y, BigIntMarker, false)]) ==
            ["        " + x + " -> Text,", "        " + y + " -> BigInt,"]
  {
    Types();
    ColumnInWriting(ModelColumn(x, TextMarker, false), " -> Text,");
    ColumnInWriting(ModelColumn(y, BigIntMarker, false), " -> BigInt,");
    TwoColumns([ModelColumn(x, TextMarker, false), ModelColumn(y, BigIntMarker, false)]);
  }

  lemma {:induction false} KeyLineParts(name: string, keys: string)
    ensures "    " + (name + (" (" + (keys + ") {"))) == "    " + name + " (" + keys + ") {"
  {
  }

  lemma {:induction false} ChildKeyLine(child: string, id: string, owner: string, parent: string)
    ensures KeyLine(ChildTable(child, id, owner, parent)) == "    " + child + " (" + id + ") {"
  {
    KeyLineParts(child, id);
  }

  lemma {:induction false} ParentKeyLine(parent: string, x: string, y: string)
    ensures KeyLine(ParentTable(parent, x, y)) == "    " + parent + " (" + x + ", " + y + ") {"
  {
    assert [x, y][1..] == [y];
    assert Text.Join([x, y], ", ") == x + ", " + y;
    KeyLineParts(parent, x + ", " + y);
    assert "    " + parent + " (" + (x + ", " + y) + ") {" == "    " + parent + " (" + x + ", " + y + ") {";
  }

  lemma {:induction false} JoinLineParts(child: string, parent: string, owner: string)
    ensures JoinLine(child, parent, owner) == "diesel::joinable!(" + child + " -> " + parent + " (" + owner + "));"
  {
  }

  // ----- Blocks -----

  lemma {:induction false} ChildBlockLines(child: string, id: string, owner: string, parent: string)
    ensures TableLines(ChildTable(child, id, owner, parent)) == ChildBlock(child, id, owner)
  {
    var t := ChildTable(child, id, owner, parent);
    ChildImports(t.columns);
    ChildDieselUse();
    ChildPortableUse();
    ChildKeyLine(child, id, owner, parent);
    ChildColumnLines(id, owner);
  }

  lemma {:induction false} ParentBlockLines(parent: string, x: string, y: string)
    ensures TableLines(ParentTable(parent, x, y)) == ParentBlock(parent, x, y)
  {
    var t := ParentTable(parent, x, y);
    ParentImports(t.columns);
    ParentUses();
    ParentKeyLine(parent, x, y);
    ParentColumnLines(x, y);
  }

  lemma {:induction false} OneJoin(child: string, id: string, owner: string, parent: string, p: ModelTable)
    requires p.foreignKeys == []
    ensures JoinLines([ChildTable(child, id, owner, parent), p]) ==
            ["diesel::joinable!(" + child + " -> " + parent + " (" + owner + "));"]
  {
    var c := ChildTable(child, id, owner, parent);
    assert [c, p][..1] == [c] && [c][..0] == [] && c.foreignKeys[..0] == [];
    assert TableJoins(p.name, p.foreignKeys) == [];
    assert TableJoins(c.name, c.foreignKeys) == [] + [JoinLine(child, parent, owner)];
    assert JoinLines([c]) == [] + [JoinLine(child, parent, owner)];
    JoinLineParts(child, parent, owner);
  }

  lemma {:induction false} TwoAllowed(x: ModelTable, y: ModelTable)
    ensures AllowLines([x, y]) == ["    " + x.name + ",", "    " + y.name + ","]
  {
    assert [x, y][1..] == [y] && [y][1..] == [];
    assert AllowLines([y]) == [AllowLine(y.name)] + [];
    Three("    ", x.name, ",");
    Three("    ", y.name, ",");
  }

  // ----- The file -----

  /** A whole file for any names, and the file of no tables. */
  lemma {:induction false} FileInWriting(child: string, id: string, owner: string, parent: string, x: string, y: string)
    ensures SchemaLines([]) ==
            ["// @generated by " + "diesel-dualdb-schema " + "\U{2014} do not edit by hand.", "", ""]
    ensures SchemaLines([ChildTable(child, id, owner, parent), ParentTable(parent, x, y)]) ==
            ["// @generated by " + "diesel-dualdb-schema " + "\U{2014} do not edit by hand.", ""] +
            (ChildBlock(child, id, owner) + [""] + ParentBlock(parent, x, y)) +
            ["",
             "diesel::joinable!(" + child + " -> " + parent + " (" + owner + "));",
             "",
             "diesel::allow_tables_" + "to_appear_in_same_query!(",
             "    " + child + ",",
             "    " + parent + ",",
             ");"]
  {
    var c, p := ChildTable(child, id, owner, parent), ParentTable(parent, x, y);
    ChildBlockLines(child, id, owner, parent);
    ParentBlockLines(parent, x, y);
    OneJoin(child, id, owner, parent, p);
    TwoAllowed(c, p);
    TwoBlocks(c, p);
    FileParts([c, p]);
  }

  lemma {:induction false} TwoBlocks(c: ModelTable, p: ModelTable)
    ensures BlockLines([c, p]) == TableLines(c) + [""] + TableLines(p)
  {
    assert [c, p][1..] == [p];
  }

  lemma {:induction false} FileParts(tables: seq<ModelTable>)
    requires JoinLines(tables) != []
    ensures SchemaLines(tables) == [HEADER, ""] + BlockLines(tables) +
                                   ([""] + JoinLines(tables) + ["", ALLOW_OPEN] + AllowLines(tables) + [ALLOW_CLOSE])
  {
  }
}
