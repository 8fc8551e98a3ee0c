/** A parser for `schema.rs` as the generator writes it, and the proof that it inverts the printer. */
module SchemaParser {
  import opened Wrappers
  import opened Sql
  import opened SchemaModel
  import opened SchemaText
  import opened ImportLaws
  import Text

  // ----- What the file says -----

  datatype ColumnView = ColumnView(name: string, marker: string, nullable: bool)
  datatype TableView = TableView(name: string, key: seq<string>, columns: seq<ColumnView>)
  datatype JoinView = JoinView(table: string, parent: string, column: string)
  datatype SchemaView = SchemaView(tables: seq<TableView>, joins: seq<JoinView>)

  function ColumnViews(columns: seq<ModelColumn>): (r: seq<ColumnView>)
    ensures |r| == |columns|
    ensures forall i :: 0 <= i < |r| ==>
              r[i] == ColumnView(columns[i].name, columns[i].marker.Text(), columns[i].nullable)
  {
    seq(|columns|, i requires 0 <= i < |columns| =>
      ColumnView(columns[i].name, columns[i].marker.Text(), columns[i].nullable))
  }

  function TableViewOf(t: ModelTable): TableView {
    TableView(t.name, t.PrimaryKeyCols(), ColumnViews(t.columns))
  }

  function TableViews(tables: seq<ModelTable>): (r: seq<TableView>)
    ensures |r| == |tables|
    ensures forall i :: 0 <= i < |r| ==> r[i] == TableViewOf(tables[i])
  {
    seq(|tables|, i requires 0 <= i < |tables| => TableViewOf(tables[i]))
  }

  function KeyViews(table: string, fks: seq<(string, string)>): seq<JoinView> {
    if fks == [] then []
    else KeyViews(table, fks[..|fks| - 1]) + [JoinView(table, fks[|fks| - 1].1, fks[|fks| - 1].0)]
  }

  function JoinViews(tables: seq<ModelTable>): seq<JoinView> {
    if tables == [] then []
    else
      var t := tables[|tables| - 1];
      JoinViews(tables[..|tables| - 1]) + KeyViews(t.name, t.foreignKeys)
  }

  // ----- Words -----

  predicate IsWordChar(c: char) {
    'a' <= c <= 'z' || 'A' <= c <= 'Z' || '0' <= c <= '9' || c == '_'
  }

  /** A plain identifier: a nonempty run of letters, digits and underscores. */
  predicate IsWord(s: string) {
    s != "" && forall i :: 0 <= i < |s| ==> IsWordChar(s[i])
  }

  predicate AllWords(names: seq<string>) {
    forall i :: 0 <= i < |names| ==> IsWord(names[i])
  }

  function WordLength(s: string): (n: nat)
    ensures n <= |s|
    ensures forall i :: 0 <= i < n ==> IsWordChar(s[i])
    ensures n < |s| ==> !IsWordChar(s[n])
  {
    if s == "" || !IsWordChar(s[0]) then 0 else WordLength(s[1..]) + 1
  }

  function ParseWord(s: string): (r: Option<(string, string)>)
    ensures r.Some? ==> |r.value.1| < |s|
  {
    var n := WordLength(s);
    if n == 0 then None else Some((s[..n], s[n..]))
  }

  function After(prefix: string, s: string): (r: Option<string>)
    ensures r.Some? ==> |r.value| == |s| - |prefix|
  {
    if prefix <= s then Some(s[|prefix|..]) else None
  }

  function ParseList(s: string): (seq<string>, string)
    decreases |s|
  {
    match ParseWord(s)
    case None => ([], s)
    case Some(p) =>
      match After(", ", p.1)
      case None => ([p.0], p.1)
      case Some(more) =>
        var (names, rest) := ParseList(more);
        ([p.0] + names, rest)
  }

  lemma {:induction false} AfterPrefix(prefix: string, rest: string)
    ensures After(prefix, prefix + rest) == Some(rest)
  {
  }

  lemma {:induction false} WordThen(w: string, rest: string)
    requires IsWord(w) && (rest != "" ==> !IsWordChar(rest[0]))
    ensures ParseWord(w + rest) == Some((w, rest))
  {
    var s := w + rest;
    var n := WordLength(s);
    assert forall i :: 0 <= i < |w| ==> s[i] == w[i];
    assert rest != "" ==> s[|w|] == rest[0];
    assert n == |w|;
    assert s[..n] == w && s[n..] == rest;
  }

  lemma {:induction false} NoWordThen(rest: string)
    requires rest != "" && !IsWordChar(rest[0])
    ensures ParseWord(rest) == None
  {
  }

  lemma {:induction false} ListThen(names: seq<string>, rest: string)
    requires AllWords(names) && rest != "" && !IsWordChar(rest[0]) && rest[0] != ','
    ensures ParseList(Text.Join(names, ", ") + rest) == (names, rest)
  {
    if names == [] {
      assert "" + rest == rest;
      NoWordThen(rest);
    } else if |names| == 1 {
      WordThen(names[0], rest);
      assert names == [names[0]];
    } else {
      JoinThen(names, ", ", rest);
      ListThen(names[1..], rest);
      OneMoreName(names[0], Text.Join(names[1..], ", ") + rest);
      assert names == [names[0]] + names[1..];
    }
  }

  lemma {:induction false} JoinThen(names: seq<string>, sep: string, rest: string)
    requires |names| > 1
    ensures Text.Join(names, sep) + rest == names[0] + (sep + (Text.Join(names[1..], sep) + rest))
  {
    Quad(names[0], sep, Text.Join(names[1..], sep), rest);
  }

  lemma {:induction false} Quad(a: string, b: string, c: string, d: string)
    ensures a + b + c + d == a + (b + (c + d))
    ensures a + (b + c) + d == a + (b + (c + d))
  {
  }

  lemma {:induction false} OneMoreName(name: string, more: string)
    requires IsWord(name)
    ensures ParseList(name + (", " + more)) == ([name] + ParseList(more).0, ParseList(more).1)
  {
    WordThen(name, ", " + more);
    AfterPrefix(", ", more);
  }

  // ----- Lines -----

  function ParseUse(path: string, line: string): Option<seq<string>> {
    match After("    use " + path + "::", line)
    case None => None
    case Some(r) =>
      match After("{", r)
      case Some(inner) =>
        var (names, rest) := ParseList(inner);
        if rest == "};" then Some(names) else None
      case None =>
        match ParseWord(r)
        case Some(p) => if p.1 == ";" then Some([p.0]) else None
        case None => None
  }

  function ParseColumn(diesel: seq<string>, dualdb: seq<string>, line: string): Option<ColumnView> {
    match After("        ", line)
    case None => None
    case Some(r) =>
      match ParseWord(r)
      case None => None
      case Some(p) =>
        match After(" -> ", p.1)
        case None => None
        case Some(ty) => ParseType(diesel, dualdb, p.0, ty)
  }

  function ParseType(diesel: seq<string>, dualdb: seq<string>, column: string, ty: string): Option<ColumnView> {
    match After("Nullable<", ty)
    case Some(inner) =>
      (match ParseWord(inner)
       case Some(p) =>
         if p.1 == ">," && "Nullable" in diesel && Resolve(diesel, dualdb, p.0).Some? then
           Some(ColumnView(column, Resolve(diesel, dualdb, p.0).value, true))
         else None
       case None => None)
    case None =>
      (match ParseWord(ty)
       case Some(p) =>
         if p.1 == "," && Resolve(diesel, dualdb, p.0).Some? then
           Some(ColumnView(column, Resolve(diesel, dualdb, p.0).value, false))
         else None
       case None => None)
  }

  function ParseKey(line: string): Option<(string, seq<string>)> {
    match After("    ", line)
    case None => None
    case Some(r) =>
      match ParseWord(r)
      case None => None
      case Some(p) =>
        match After(" (", p.1)
        case None => None
        case Some(list) =>
          var (names, rest) := ParseList(list);
          if rest == ") {" then Some((p.0, names)) else None
  }

  function ParseJoin(line: string): Option<JoinView> {
    match After("diesel::joinable!(", line)
    case None => None
    case Some(r) =>
      match ParseWord(r)
      case None => None
      case Some(table) =>
        match After(" -> ", table.1)
        case None => None
        case Some(r2) =>
          match ParseWord(r2)
          case None => None
          case Some(parent) =>
            match After(" (", parent.1)
            case None => None
            case Some(r3) =>
              match ParseWord(r3)
              case None => None
              case Some(column) =>
                if column.1 == "));" then Some(JoinView(table.0, parent.0, column.0)) else None
  }

  lemma {:induction false} UseLineParses(path: string, names: seq<string>)
    requires AllWords(names) && names != []
    ensures |UseLines(path, names)| == 1
    ensures ParseUse(path, UseLines(path, names)[0]) == Some(names)
  {
    if |names| == 1 {
      AfterPrefix("    use " + path + "::", names[0] + ";");
      var r := names[0] + ";";
      assert r[0] == names[0][0];
      assert After("{", r) == None;
      WordThen(names[0], ";");
      assert names == [names[0]];
    } else {
      AfterPrefix("    use " + path + "::", "{" + (Text.Join(names, ", ") + "};"));
      AfterPrefix("{", Text.Join(names, ", ") + "};");
      ListThen(names, "};");
    }
  }

  lemma {:induction false} MarkerNameIsWord(m: Marker)
    ensures IsWord(m.Name())
  {
  }

  lemma {:induction false} TypeParses(diesel: seq<string>, dualdb: seq<string>, c: ModelColumn)
    requires Resolve(diesel, dualdb, c.marker.Name()) == Some(c.marker.Text())
    requires c.nullable ==> "Nullable" in diesel
    ensures ParseType(diesel, dualdb, c.name, TypeText(c) + ",") ==
            Some(ColumnView(c.name, c.marker.Text(), c.nullable))
  {
    var name := c.marker.Name();
    MarkerNameIsWord(c.marker);
    if c.nullable {
      assert TypeText(c) + "," == "Nullable<" + (name + ">,");
      AfterPrefix("Nullable<", name + ">,");
      WordThen(name, ">,");
    } else {
      var ty := name + ",";
      assert forall i :: 0 <= i < |ty| ==> ty[i] == if i < |name| then name[i] else ',';
      assert "Nullable<"[8] == '<';
      WordThen(name, ",");
    }
  }

  lemma {:induction false} ColumnLineParses(diesel: seq<string>, dualdb: seq<string>, c: ModelColumn)
    requires IsWord(c.name)
    requires Resolve(diesel, dualdb, c.marker.Name()) == Some(c.marker.Text())
    requires c.nullable ==> "Nullable" in diesel
    ensures ParseColumn(diesel, dualdb, ColumnLine(c)) == Some(ColumnView(c.name, c.marker.Text(), c.nullable))
    ensures ColumnLine(c) != COLUMNS_CLOSE
  {
    NameThenType(diesel, dualdb, c.name, TypeText(c) + ",");
    TypeParses(diesel, dualdb, c);
    ColumnLineIsNoClose(c);
  }

  lemma {:induction false} ColumnLineIsNoClose(c: ModelColumn)
    ensures ColumnLine(c) != COLUMNS_CLOSE
  {
    assert ColumnLine(c)[4] == ' ' && COLUMNS_CLOSE[4] == '}';
  }

  lemma {:induction false} NameThenType(diesel: seq<string>, dualdb: seq<string>, name: string, ty: string)
    requires IsWord(name)
    ensures ParseColumn(diesel, dualdb, "        " + (name + (" -> " + ty))) == ParseType(diesel, dualdb, name, ty)
  {
    AfterPrefix("        ", name + (" -> " + ty));
    WordThen(name, " -> " + ty);
    AfterPrefix(" -> ", ty);
  }

  lemma {:induction false} KeyLineParses(t: ModelTable)
    requires IsWord(t.name) && AllWords(t.PrimaryKeyCols())
    ensures ParseKey(KeyLine(t)) == Some((t.name, t.PrimaryKeyCols()))
  {
    var list := Text.Join(t.PrimaryKeyCols(), ", ") + ") {";
    AfterPrefix("    ", t.name + (" (" + list));
    WordThen(t.name, " (" + list);
    AfterPrefix(" (", list);
    ListThen(t.PrimaryKeyCols(), ") {");
  }

  lemma {:induction false} JoinLineParses(table: string, parent: string, column: string)
    requires IsWord(table) && IsWord(parent) && IsWord(column)
    ensures ParseJoin(JoinLine(table, parent, column)) == Some(JoinView(table, parent, column))
  {
    var r3 := column + "));";
    var r2 := parent + (" (" + r3);
    AfterPrefix("diesel::joinable!(", table + (" -> " + r2));
    WordThen(table, " -> " + r2);
    AfterPrefix(" -> ", r2);
    WordThen(parent, " (" + r3);
    AfterPrefix(" (", r3);
    WordThen(column, "));");
  }

  // ----- Repetition -----

  /** As many lines as p reads: what they say, and the lines after them. */
  function Many<T>(p: string -> Option<T>, lines: seq<string>): (seq<T>, seq<string>) {
    if lines == [] then ([], lines)
    else
      match p(lines[0])
      case None => ([], lines)
      case Some(x) =>
        var (xs, rest) := Many(p, lines[1..]);
        ([x] + xs, rest)
  }

  /** Lines read by p up to a closing line. */
  function Until<T>(p: string -> Option<T>, close: string, lines: seq<string>): Option<(seq<T>, seq<string>)> {
    if lines == [] then None
    else if lines[0] == close then Some(([], lines[1..]))
    else
      match p(lines[0])
      case None => None
      case Some(x) =>
        match Until(p, close, lines[1..])
        case None => None
        case Some(r) => Some(([x] + r.0, r.1))
  }

  /** Blocks read by p that begin with the line `open`, an empty line between them. */
  function Blocks<T>(p: seq<string> -> Option<(T, seq<string>)>, open: string, lines: seq<string>)
    : Option<(seq<T>, seq<string>)>
    decreases |lines|
  {
    match p(lines)
    case None => None
    case Some(r) =>
      if 2 <= |r.1| < |lines| && r.1[0] == "" && r.1[1] == open then
        match Blocks(p, open, r.1[1..])
        case None => None
        case Some(q) => Some(([r.0] + q.0, q.1))
      else Some(([r.0], r.1))
  }

  /** p reads the lines one by one. */
  ghost predicate Reads<T>(p: string -> Option<T>, ls: seq<string>, xs: seq<T>) {
    |ls| == |xs| && forall i :: 0 <= i < |ls| ==> p(ls[i]) == Some(xs[i])
  }

  lemma {:induction false} ReadsAppend<T>(p: string -> Option<T>, a: seq<string>, x: seq<T>, b: seq<string>, y: seq<T>)
    requires Reads(p, a, x) && Reads(p, b, y)
    ensures Reads(p, a + b, x + y)
  {
  }

  lemma {:induction false} ManyReads<T>(p: string -> Option<T>, ls: seq<string>, xs: seq<T>, rest: seq<string>)
    requires Reads(p, ls, xs) && (rest != [] ==> p(rest[0]) == None)
    ensures Many(p, ls + rest) == (xs, rest)
  {
    if ls == [] {
      assert ls + rest == rest;
    } else {
      assert (ls + rest)[1..] == ls[1..] + rest;
      ManyReads(p, ls[1..], xs[1..], rest);
      assert xs == [xs[0]] + xs[1..];
    }
  }

  lemma {:induction false} UntilReads<T>(p: string -> Option<T>, close: string, ls: seq<string>, xs: seq<T>,
                                         rest: seq<string>)
    requires Reads(p, ls, xs) && forall i :: 0 <= i < |ls| ==> ls[i] != close
    ensures Until(p, close, ls + ([close] + rest)) == Some((xs, rest))
  {
    var end := [close] + rest;
    if ls == [] {
      assert ls + end == end && end[1..] == rest;
    } else {
      assert (ls + end)[1..] == ls[1..] + end;
      UntilReads(p, close, ls[1..], xs[1..], rest);
      assert xs == [xs[0]] + xs[1..];
    }
  }

  /** p reads the block, whatever follows it. */
  ghost predicate ReadsBlock<T(!new)>(p: seq<string> -> Option<(T, seq<string>)>, block: seq<string>, x: T) {
    forall rest: seq<string> :: p(block + rest) == Some((x, rest))
  }

  function Separated(blocks: seq<seq<string>>): seq<string> {
    if blocks == [] then []
    else if |blocks| == 1 then blocks[0]
    else blocks[0] + [""] + Separated(blocks[1..])
  }

  lemma {:induction false} BlocksRead<T(!new)>(p: seq<string> -> Option<(T, seq<string>)>, open: string,
                                         blocks: seq<seq<string>>, xs: seq<T>, rest: seq<string>)
    requires blocks != [] && |xs| == |blocks|
    requires forall i :: 0 <= i < |blocks| ==>
               ReadsBlock(p, blocks[i], xs[i]) && blocks[i] != [] && blocks[i][0] == open
    requires |rest| >= 2 && rest[0] == "" ==> rest[1] != open
    ensures Blocks(p, open, Separated(blocks) + rest) == Some((xs, rest))
    decreases |blocks|
  {
    assert ReadsBlock(p, blocks[0], xs[0]);
    if |blocks| == 1 {
      assert p(blocks[0] + rest) == Some((xs[0], rest));
      assert xs == [xs[0]];
    } else {
      var more := Separated(blocks[1..]) + rest;
      FirstBlock(blocks, rest);
      assert blocks[1] != [] && blocks[1][0] == open;
      BlocksRead(p, open, blocks[1..], xs[1..], rest);
      assert blocks[0] != [];
      OneMoreBlock(p, open, blocks[0], xs[0], more);
      assert xs == [xs[0]] + xs[1..];
    }
  }

  lemma {:induction false} FirstBlock(blocks: seq<seq<string>>, rest: seq<string>)
    requires |blocks| > 1 && blocks[1] != []
    ensures Separated(blocks) + rest == blocks[0] + ([""] + (Separated(blocks[1..]) + rest))
    ensures Separated(blocks[1..]) != [] && Separated(blocks[1..])[0] == blocks[1][0]
  {
    assert blocks[1..][0] == blocks[1];
    Regroup4(blocks[0], [""], Separated(blocks[1..]), rest);
  }

  lemma {:induction false} Regroup4(a: seq<string>, b: seq<string>, c: seq<string>, d: seq<string>)
    ensures a + b + c + d == a + (b + (c + d))
  {
  }

  lemma {:induction false} OneMoreBlock<T(!new)>(p: seq<string> -> Option<(T, seq<string>)>, open: string,
                                                 block: seq<string>, x: T, more: seq<string>)
    requires ReadsBlock(p, block, x) && block != [] && more != [] && more[0] == open
    ensures Blocks(p, open, block + ([""] + more)) ==
            match Blocks(p, open, more) { case Some(q) => Some(([x] + q.0, q.1)) case None => None }
  {
    var tail := [""] + more;
    assert p(block + tail) == Some((x, tail));
    assert tail[1..] == more && tail[0] == "" && tail[1] == open;
  }

  // ----- The grammar -----

  function ColumnReader(diesel: seq<string>, dualdb: seq<string>): string -> Option<ColumnView> {
    (line: string) => ParseColumn(diesel, dualdb, line)
  }

  /** An import line if there is one: the names, and the lines after it. */
  function TakeUse(path: string, lines: seq<string>): (seq<string>, seq<string>) {
    if lines == [] then ([], lines)
    else
      match ParseUse(path, lines[0])
      case Some(names) => (names, lines[1..])
      case None => ([], lines)
  }

  function ParseTable(lines: seq<string>): (r: Option<(TableView, seq<string>)>) {
    if lines == [] || lines[0] != TABLE_OPEN then None
    else
      var (diesel, r1) := TakeUse(DIESEL, lines[1..]);
      var (dualdb, r2) := TakeUse(DUALDB, r1);
      if |r2| < 2 || r2[0] != "" then None
      else
        match ParseKey(r2[1])
        case None => None
        case Some(head) =>
          match Until(ColumnReader(diesel, dualdb), COLUMNS_CLOSE, r2[2..])
          case None => None
          case Some(p) =>
            if p.1 == [] || p.1[0] != TABLE_CLOSE then None
            else Some((TableView(head.0, head.1, p.0), p.1[1..]))
  }

  function AllowBlockOf(tables: seq<TableView>): seq<string> {
    ["", ALLOW_OPEN] + AllowLinesOf(tables) + [ALLOW_CLOSE]
  }

  function AllowLinesOf(tables: seq<TableView>): seq<string> {
    if tables == [] then [] else [AllowLine(tables[0].name)] + AllowLinesOf(tables[1..])
  }

  function ParseSchema(lines: seq<string>): Option<SchemaView> {
    if |lines| < 3 || lines[0] != HEADER || lines[1] != "" then None
    else if lines[2..] == [""] then Some(SchemaView([], []))
    else
      match Blocks(ParseTable, TABLE_OPEN, lines[2..])
      case None => None
      case Some(p) =>
        if p.1 == [] then Some(SchemaView(p.0, []))
        else if p.1[0] != "" then None
        else
          var (joins, rest) := Many(ParseJoin, p.1[1..]);
          if joins != [] && rest == AllowBlockOf(p.0) then Some(SchemaView(p.0, joins)) else None
  }

  function ParseText(text: string): Option<SchemaView> {
    ParseSchema(Text.Lines(text))
  }

  // ----- The parser inverts the printer -----

  /** Every identifier of the table is plain. */
  predicate PlainTable(t: ModelTable) {
    && IsWord(t.name)
    && (forall i :: 0 <= i < |t.columns| ==> IsWord(t.columns[i].name))
    && AllWords(t.primaryKey)
    && forall i :: 0 <= i < |t.foreignKeys| ==> IsWord(t.foreignKeys[i].0) && IsWord(t.foreignKeys[i].1)
  }

  predicate PlainTables(tables: seq<ModelTable>) {
    forall i :: 0 <= i < |tables| ==> PlainTable(tables[i])
  }

  lemma {:induction false} ColumnParses(all: seq<ModelColumn>, c: ModelColumn)
    requires c in all && IsWord(c.name)
    ensures ParseColumn(DieselImports(all), PortableImports(all), ColumnLine(c)) ==
            Some(ColumnView(c.name, c.marker.Text(), c.nullable))
    ensures ColumnLine(c) != COLUMNS_CLOSE
  {
    var k :| 0 <= k < |all| && all[k] == c;
    ImportsResolve(all, k);
    ImportsAreExact(all);
    ColumnLineParses(DieselImports(all), PortableImports(all), c);
  }

  lemma {:induction false} ColumnLinesAt(columns: seq<ModelColumn>)
    ensures |ColumnLines(columns)| == |columns|
    ensures forall i :: 0 <= i < |columns| ==> ColumnLines(columns)[i] == ColumnLine(columns[i])
  {
    if columns != [] {
      ColumnLinesAt(columns[..|columns| - 1]);
    }
  }

  lemma {:induction false} ColumnsRead(columns: seq<ModelColumn>)
    requires forall i :: 0 <= i < |columns| ==> IsWord(columns[i].name)
    ensures Reads(ColumnReader(DieselImports(columns), PortableImports(columns)), ColumnLines(columns),
                  ColumnViews(columns))
    ensures forall i :: 0 <= i < |columns| ==> ColumnLines(columns)[i] != COLUMNS_CLOSE
  {
    ColumnLinesAt(columns);
    forall i | 0 <= i < |columns|
      ensures ParseColumn(DieselImports(columns), PortableImports(columns), ColumnLines(columns)[i]) ==
              Some(ColumnViews(columns)[i])
      ensures ColumnLines(columns)[i] != COLUMNS_CLOSE
    {
      ColumnParses(columns, columns[i]);
    }
  }

  lemma {:induction false} ImportNamesAreWords(columns: seq<ModelColumn>)
    ensures AllWords(DieselImports(columns)) && AllWords(PortableImports(columns))
  {
    ImportsAreExact(columns);
    forall i | 0 <= i < |DieselImports(columns)|
      ensures IsWord(DieselImports(columns)[i])
    {
      var name := DieselImports(columns)[i];
      assert name in DieselImports(columns);
      if Carries(columns, false, name) {
        var j :| 0 <= j < |columns| && columns[j].marker.IsPortable() == false && columns[j].marker.Name() == name;
        MarkerNameIsWord(columns[j].marker);
      }
    }
    forall i | 0 <= i < |PortableImports(columns)|
      ensures IsWord(PortableImports(columns)[i])
    {
      var name := PortableImports(columns)[i];
      assert name in PortableImports(columns);
      var j :| 0 <= j < |columns| && columns[j].marker.IsPortable() == true && columns[j].marker.Name() == name;
      MarkerNameIsWord(columns[j].marker);
    }
  }

  /** A line that is not an import of the path, by an early character. */
  lemma {:induction false} NotAUse(path: string, line: string, k: nat)
    requires k < |"    use " + path + "::"| && (k < |line| ==> line[k] != ("    use " + path + "::")[k])
    requires k < |line| || line == ""
    ensures ParseUse(path, line) == None
  {
  }

  lemma {:induction false} TakesUse(path: string, names: seq<string>, rest: seq<string>)
    requires AllWords(names)
    requires names == [] ==> rest != [] && ParseUse(path, rest[0]) == None
    ensures TakeUse(path, UseLines(path, names) + rest) == (names, rest)
  {
    var lines := UseLines(path, names) + rest;
    if names == [] {
      assert lines == rest;
    } else {
      UseLineParses(path, names);
      assert lines[0] == UseLines(path, names)[0] && lines[1..] == rest;
    }
  }

  lemma {:induction false} EmptyLineIsNoUse(path: string)
    ensures ParseUse(path, "") == None
  {
  }

  lemma {:induction false} PortableUseIsNoDieselUse(names: seq<string>)
    requires names != []
    ensures ParseUse(DIESEL, UseLines(DUALDB, names)[0]) == None
  {
    var line := UseLines(DUALDB, names)[0];
    var prefix := "    use " + DIESEL + "::";
    assert prefix[14] == DIESEL[6] == ':';
    assert line[14] == DUALDB[6] == '_';
    NotAUse(DIESEL, line, 14);
  }

  lemma {:induction false} TakesUses(diesel: seq<string>, dualdb: seq<string>, rest: seq<string>)
    requires AllWords(diesel) && AllWords(dualdb) && rest != [] && rest[0] == ""
    ensures TakeUse(DIESEL, UseLines(DIESEL, diesel) + (UseLines(DUALDB, dualdb) + rest)) ==
            (diesel, UseLines(DUALDB, dualdb) + rest)
    ensures TakeUse(DUALDB, UseLines(DUALDB, dualdb) + rest) == (dualdb, rest)
  {
    EmptyLineIsNoUse(DIESEL);
    EmptyLineIsNoUse(DUALDB);
    TakesUse(DUALDB, dualdb, rest);
    var r1 := UseLines(DUALDB, dualdb) + rest;
    if dualdb == [] {
      assert r1 == rest;
    } else {
      UseLineParses(DUALDB, dualdb);
      PortableUseIsNoDieselUse(dualdb);
      assert r1[0] == UseLines(DUALDB, dualdb)[0];
    }
    TakesUse(DIESEL, diesel, r1);
  }

  lemma {:induction false} KeyIsWords(t: ModelTable)
    requires PlainTable(t)
    ensures AllWords(t.PrimaryKeyCols())
  {
  }

  lemma {:induction false} Regroup(a: seq<string>, b: seq<string>, c: seq<string>)
    ensures a + b + c == a + (b + c)
  {
  }

  lemma {:induction false} TableSteps(lines: seq<string>, diesel: seq<string>, dualdb: seq<string>, r1: seq<string>,
                                      key: string, body: seq<string>, head: (string, seq<string>),
                                      columns: seq<ColumnView>, rest: seq<string>)
    requires lines != [] && lines[0] == TABLE_OPEN
    requires TakeUse(DIESEL, lines[1..]) == (diesel, r1) && TakeUse(DUALDB, r1) == (dualdb, ["", key] + body)
    requires ParseKey(key) == Some(head)
    requires Until(ColumnReader(diesel, dualdb), COLUMNS_CLOSE, body) == Some((columns, [TABLE_CLOSE] + rest))
    ensures ParseTable(lines) == Some((TableView(head.0, head.1, columns), rest))
  {
    var r2 := ["", key] + body;
    assert r2[2..] == body && ([TABLE_CLOSE] + rest)[1..] == rest;
  }

  /** One block is read back, whatever follows it. */
  lemma {:induction false} TableParses(t: ModelTable, rest: seq<string>)
    requires PlainTable(t)
    ensures ParseTable(TableLines(t) + rest) == Some((TableViewOf(t), rest))
  {
    var after := [TABLE_CLOSE] + rest;
    var body := ColumnLines(t.columns) + ([COLUMNS_CLOSE] + after);
    var r2 := ["", KeyLine(t)] + body;
    var diesel, dualdb := DieselImports(t.columns), PortableImports(t.columns);
    ImportNamesAreWords(t.columns);
    TakesUses(diesel, dualdb, r2);
    TableLinesSplit(t, rest);
    KeyIsWords(t);
    KeyLineParses(t);
    ColumnsRead(t.columns);
    UntilReads(ColumnReader(diesel, dualdb), COLUMNS_CLOSE, ColumnLines(t.columns), ColumnViews(t.columns), after);
    TableSteps(TableLines(t) + rest, diesel, dualdb, UseLines(DUALDB, dualdb) + r2, KeyLine(t), body,
               (t.name, t.PrimaryKeyCols()), ColumnViews(t.columns), rest);
  }

  lemma {:induction false} TableLinesSplit(t: ModelTable, rest: seq<string>)
    ensures var lines := TableLines(t) + rest;
            && lines != [] && lines[0] == TABLE_OPEN
            && lines[1..] == UseLines(DIESEL, DieselImports(t.columns)) +
                (UseLines(DUALDB, PortableImports(t.columns)) +
                 (["", KeyLine(t)] + (ColumnLines(t.columns) + ([COLUMNS_CLOSE] + ([TABLE_CLOSE] + rest)))))
  {
    var open, key, close := [TABLE_OPEN], ["", KeyLine(t)], [COLUMNS_CLOSE, TABLE_CLOSE];
    var u1, u2 := UseLines(DIESEL, DieselImports(t.columns)), UseLines(DUALDB, PortableImports(t.columns));
    var cols := ColumnLines(t.columns);
    Regroup(open + Imports(t) + key + cols, close, rest);
    Regroup(open + Imports(t) + key, cols, close + rest);
    Regroup(open + Imports(t), key, cols + (close + rest));
    Regroup(open, u1 + u2, key + (cols + (close + rest)));
    Regroup(u1, u2, key + (cols + (close + rest)));
    assert close + rest == [COLUMNS_CLOSE] + ([TABLE_CLOSE] + rest);
  }

  function TableBlocks(tables: seq<ModelTable>): (r: seq<seq<string>>)
    ensures |r| == |tables|
    ensures forall i :: 0 <= i < |tables| ==> r[i] == TableLines(tables[i])
  {
    seq(|tables|, i requires 0 <= i < |tables| => TableLines(tables[i]))
  }

  lemma {:induction false} BlockLinesAreSeparated(tables: seq<ModelTable>)
    requires tables != []
    ensures BlockLines(tables) == Separated(TableBlocks(tables))
    decreases |tables|
  {
    if |tables| > 1 {
      BlockLinesAreSeparated(tables[1..]);
      assert TableBlocks(tables)[1..] == TableBlocks(tables[1..]);
    }
  }

  lemma {:induction false} TablesRead(tables: seq<ModelTable>, rest: seq<string>)
    requires tables != [] && PlainTables(tables)
    requires |rest| >= 2 && rest[0] == "" ==> rest[1] != TABLE_OPEN
    ensures Blocks(ParseTable, TABLE_OPEN, BlockLines(tables) + rest) == Some((TableViews(tables), rest))
  {
    forall i | 0 <= i < |tables|
      ensures ReadsBlock(ParseTable, TableBlocks(tables)[i], TableViews(tables)[i])
    {
      forall more: seq<string>
        ensures ParseTable(TableBlocks(tables)[i] + more) == Some((TableViews(tables)[i], more))
      {
        TableParses(tables[i], more);
      }
    }
    forall i | 0 <= i < |tables|
      ensures TableBlocks(tables)[i] != [] && TableBlocks(tables)[i][0] == TABLE_OPEN
    {
      TableLinesSplit(tables[i], []);
      assert TableLines(tables[i]) + [] == TableLines(tables[i]);
    }
    BlocksRead(ParseTable, TABLE_OPEN, TableBlocks(tables), TableViews(tables), rest);
    BlockLinesAreSeparated(tables);
  }

  lemma {:induction false} BlocksStart(tables: seq<ModelTable>, rest: seq<string>)
    requires tables != []
    ensures BlockLines(tables) + rest != [] && (BlockLines(tables) + rest)[0] == TABLE_OPEN
  {
    assert TableLines(tables[0])[0] == TABLE_OPEN;
  }

  // ----- Joins -----

  lemma {:induction false} TableJoinsRead(table: string, fks: seq<(string, string)>)
    requires IsWord(table) && forall i :: 0 <= i < |fks| ==> IsWord(fks[i].0) && IsWord(fks[i].1)
    ensures Reads(ParseJoin, TableJoins(table, fks), KeyViews(table, fks))
  {
    if fks != [] {
      var init, last := fks[..|fks| - 1], fks[|fks| - 1];
      TableJoinsRead(table, init);
      JoinLineParses(table, last.1, last.0);
      OneReads(ParseJoin, JoinLine(table, last.1, last.0), JoinView(table, last.1, last.0));
      ReadsAppend(ParseJoin, TableJoins(table, init), KeyViews(table, init),
                  [JoinLine(table, last.1, last.0)], [JoinView(table, last.1, last.0)]);
    }
  }

  lemma {:induction false} OneReads<T>(p: string -> Option<T>, l: string, x: T)
    requires p(l) == Some(x)
    ensures Reads(p, [l], [x])
  {
  }

  lemma {:induction false} JoinsRead(tables: seq<ModelTable>)
    requires PlainTables(tables)
    ensures Reads(ParseJoin, JoinLines(tables), JoinViews(tables))
  {
    if tables != [] {
      var init, t := tables[..|tables| - 1], tables[|tables| - 1];
      assert PlainTable(t);
      JoinsRead(init);
      TableJoinsRead(t.name, t.foreignKeys);
      ReadsAppend(ParseJoin, JoinLines(init), JoinViews(init), TableJoins(t.name, t.foreignKeys),
                  KeyViews(t.name, t.foreignKeys));
    }
  }

  lemma {:induction false} AllowLinesAgree(tables: seq<ModelTable>)
    ensures AllowLinesOf(TableViews(tables)) == AllowLines(tables)
  {
    if tables != [] {
      AllowLinesAgree(tables[1..]);
      assert TableViews(tables)[1..] == TableViews(tables[1..]);
    }
  }

  lemma {:induction false} OpeningIsNoJoin()
    ensures ParseJoin(TABLE_OPEN) == None && ParseJoin("") == None
  {
    assert TABLE_OPEN[8] == 't' && "diesel::joinable!("[8] == 'j';
  }

  // ----- The whole file -----

  lemma {:induction false} WithoutJoins(lines: seq<string>, tables: seq<TableView>)
    requires lines != [] && lines[0] == TABLE_OPEN && Blocks(ParseTable, TABLE_OPEN, lines) == Some((tables, []))
    ensures ParseSchema([HEADER, ""] + lines) == Some(SchemaView(tables, []))
  {
    assert ([HEADER, ""] + lines)[2..] == lines;
    assert TABLE_OPEN != "";
  }

  lemma {:induction false} WithJoins(lines: seq<string>, tables: seq<TableView>, tail: seq<string>,
                                     joins: seq<JoinView>)
    requires lines != [] && lines[0] == TABLE_OPEN && joins != [] && tail != [] && tail[0] == ""
    requires Blocks(ParseTable, TABLE_OPEN, lines) == Some((tables, tail))
    requires Many(ParseJoin, tail[1..]) == (joins, AllowBlockOf(tables))
    ensures ParseSchema([HEADER, ""] + lines) == Some(SchemaView(tables, joins))
  {
    assert ([HEADER, ""] + lines)[2..] == lines;
    assert TABLE_OPEN != "";
  }

  lemma {:induction false} JoinablesRead(tables: seq<ModelTable>)
    requires PlainTables(tables) && JoinLines(tables) != []
    ensures |Joinables(tables)| >= 2 && Joinables(tables)[0] == "" && Joinables(tables)[1] != TABLE_OPEN
    ensures Many(ParseJoin, Joinables(tables)[1..]) == (JoinViews(tables), AllowBlockOf(TableViews(tables)))
  {
    AllowLinesAgree(tables);
    var tail := AllowBlockOf(TableViews(tables));
    BlankThen(JoinLines(tables), ["", ALLOW_OPEN], AllowLines(tables), [ALLOW_CLOSE]);
    OpeningIsNoJoin();
    JoinsRead(tables);
    ManyReads(ParseJoin, JoinLines(tables), JoinViews(tables), tail);
  }

  lemma {:induction false} BlankThen(a: seq<string>, b: seq<string>, c: seq<string>, d: seq<string>)
    requires a != []
    ensures var all := [""] + a + b + c + d; |all| >= 2 && all[0] == "" && all[1] == a[0] && all[1..] == a + (b + c + d)
  {
  }

  /** Parsing the printed lines gives back what the model says. */
  lemma {:induction false} LinesParse(tables: seq<ModelTable>)
    requires PlainTables(tables)
    ensures ParseSchema(SchemaLines(tables)) == Some(SchemaView(TableViews(tables), JoinViews(tables)))
  {
    Regroup([HEADER, ""], BlockLines(tables), Joinables(tables));
    JoinsRead(tables);
    if tables == [] {
      assert SchemaLines(tables) == [HEADER, "", ""];
      assert [HEADER, "", ""][2..] == [""];
    } else {
      var body := BlockLines(tables) + Joinables(tables);
      BlocksStart(tables, Joinables(tables));
      if JoinLines(tables) == [] {
        TablesRead(tables, []);
        WithoutJoins(body, TableViews(tables));
      } else {
        JoinablesRead(tables);
        TablesRead(tables, Joinables(tables));
        WithJoins(body, TableViews(tables), Joinables(tables), JoinViews(tables));
      }
    }
  }

  // ----- From lines to text -----

  /** Free of line breaks of any kind. */
  predicate OnOneLine(s: string) {
    forall i :: 0 <= i < |s| ==> s[i] != '\n' && s[i] != '\r'
  }

  predicate AllOnOneLine(ls: seq<string>) {
    forall i :: 0 <= i < |ls| ==> OnOneLine(ls[i])
  }

  lemma {:induction false} Concat(a: string, b: string)
    requires OnOneLine(a) && OnOneLine(b)
    ensures OnOneLine(a + b)
  {
  }

  lemma {:induction false} WordOnOneLine(w: string)
    requires IsWord(w)
    ensures OnOneLine(w)
  {
  }

  lemma {:induction false} JoinOnOneLine(names: seq<string>)
    requires AllWords(names)
    ensures OnOneLine(Text.Join(names, ", "))
  {
    if names != [] {
      WordOnOneLine(names[0]);
      if |names| > 1 {
        JoinOnOneLine(names[1..]);
        Concat(names[0], ", ");
        Concat(names[0] + ", ", Text.Join(names[1..], ", "));
      }
    }
  }

  lemma {:induction false} UseOnOneLine(path: string, names: seq<string>)
    requires AllWords(names) && OnOneLine(path)
    ensures AllOnOneLine(UseLines(path, names))
  {
    Concat("    use ", path);
    Concat("    use " + path, "::");
    if |names| == 1 {
      WordOnOneLine(names[0]);
      Concat(names[0], ";");
      Concat("    use " + path + "::", names[0] + ";");
    } else if names != [] {
      JoinOnOneLine(names);
      Concat(Text.Join(names, ", "), "};");
      Concat("{", Text.Join(names, ", ") + "};");
      Concat("    use " + path + "::", "{" + (Text.Join(names, ", ") + "};"));
    }
  }

  lemma {:induction false} ColumnOnOneLine(c: ModelColumn)
    requires IsWord(c.name)
    ensures OnOneLine(ColumnLine(c))
  {
    MarkerNameIsWord(c.marker);
    WordOnOneLine(c.marker.Name());
    Concat(c.marker.Name(), ">");
    Concat("Nullable<", c.marker.Name() + ">");
    Concat(TypeText(c), ",");
    Concat(" -> ", TypeText(c) + ",");
    WordOnOneLine(c.name);
    Concat(c.name, " -> " + (TypeText(c) + ","));
    Concat("        ", c.name + (" -> " + (TypeText(c) + ",")));
  }

  lemma {:induction false} KeyOnOneLine(t: ModelTable)
    requires PlainTable(t)
    ensures OnOneLine(KeyLine(t))
  {
    KeyIsWords(t);
    var list := Text.Join(t.PrimaryKeyCols(), ", ");
    JoinOnOneLine(t.PrimaryKeyCols());
    Concat(list, ") {");
    Concat(" (", list + ") {");
    WordOnOneLine(t.name);
    Concat(t.name, " (" + (list + ") {"));
    Concat("    ", t.name + (" (" + (list + ") {")));
  }

  lemma {:induction false} Together(a: seq<string>, b: seq<string>)
    requires AllOnOneLine(a) && AllOnOneLine(b)
    ensures AllOnOneLine(a + b)
  {
  }

  lemma {:induction false} AllTogether(a: seq<string>, b: seq<string>, c: seq<string>, d: seq<string>, e: seq<string>)
    requires AllOnOneLine(a) && AllOnOneLine(b) && AllOnOneLine(c) && AllOnOneLine(d) && AllOnOneLine(e)
    ensures AllOnOneLine(a + b + c + d + e)
  {
    Together(a, b);
    Together(a + b, c);
    Together(a + b + c, d);
    Together(a + b + c + d, e);
  }

  lemma {:induction false} Pair(x: string, y: string)
    requires OnOneLine(x) && OnOneLine(y)
    ensures AllOnOneLine([x, y])
  {
  }

  lemma {:induction false} AllowOpenOnOneLine()
    ensures OnOneLine(ALLOW_OPEN)
  {
    Concat("diesel::allow_tables_", "to_appear_in_same_query!(");
    assert ALLOW_OPEN == "diesel::allow_tables_" + "to_appear_in_same_query!(";
  }

  lemma {:induction false} HeaderOnOneLine()
    ensures OnOneLine(HEADER)
  {
    var a, b, c := "// @generated by ", "diesel-dualdb-schema ", "\U{2014} do not edit by hand.";
    Concat(a, b);
    Concat(a + b, c);
    assert HEADER == a + b + c;
  }

  /** The lines that are always the same. */
  lemma {:induction false} FixedOnLines()
    ensures AllOnOneLine([TABLE_OPEN]) && AllOnOneLine([COLUMNS_CLOSE, TABLE_CLOSE])
    ensures AllOnOneLine([HEADER, ""]) && AllOnOneLine([""]) && AllOnOneLine(["", ALLOW_OPEN]) &&
            AllOnOneLine([ALLOW_CLOSE])
  {
    assert OnOneLine(TABLE_OPEN) && OnOneLine(COLUMNS_CLOSE) && OnOneLine(TABLE_CLOSE);
    assert OnOneLine(ALLOW_CLOSE);
    AllowOpenOnOneLine();
    HeaderOnOneLine();
  }

  lemma {:induction false} ImportsOnLines(t: ModelTable)
    ensures AllOnOneLine(Imports(t))
  {
    ImportNamesAreWords(t.columns);
    FixedOnLines();
    UseOnOneLine(DIESEL, DieselImports(t.columns));
    UseOnOneLine(DUALDB, PortableImports(t.columns));
    Together(UseLines(DIESEL, DieselImports(t.columns)), UseLines(DUALDB, PortableImports(t.columns)));
  }

  lemma {:induction false} ColumnsOnLines(columns: seq<ModelColumn>)
    requires forall i :: 0 <= i < |columns| ==> IsWord(columns[i].name)
    ensures AllOnOneLine(ColumnLines(columns))
  {
    ColumnLinesAt(columns);
    forall i | 0 <= i < |columns|
      ensures OnOneLine(ColumnLines(columns)[i])
    {
      ColumnOnOneLine(columns[i]);
    }
  }

  lemma {:induction false} TableOnLines(t: ModelTable)
    requires PlainTable(t)
    ensures AllOnOneLine(TableLines(t))
  {
    ImportsOnLines(t);
    KeyOnOneLine(t);
    ColumnsOnLines(t.columns);
    FixedOnLines();
    Pair("", KeyLine(t));
    AllTogether([TABLE_OPEN], Imports(t), ["", KeyLine(t)], ColumnLines(t.columns), [COLUMNS_CLOSE, TABLE_CLOSE]);
  }

  lemma {:induction false} BlocksOnLines(tables: seq<ModelTable>)
    requires PlainTables(tables)
    ensures AllOnOneLine(BlockLines(tables))
  {
    if tables != [] {
      TableOnLines(tables[0]);
      if |tables| > 1 {
        BlocksOnLines(tables[1..]);
        Together(TableLines(tables[0]), [""]);
        Together(TableLines(tables[0]) + [""], BlockLines(tables[1..]));
      }
    }
  }

  lemma {:induction false} JoinLineOnOneLine(table: string, parent: string, column: string)
    requires IsWord(table) && IsWord(parent) && IsWord(column)
    ensures OnOneLine(JoinLine(table, parent, column))
  {
    WordOnOneLine(table);
    WordOnOneLine(parent);
    WordOnOneLine(column);
    var r3 := column + "));";
    var r2 := parent + (" (" + r3);
    Concat(column, "));");
    Concat(" (", r3);
    Concat(parent, " (" + r3);
    Concat(" -> ", r2);
    Concat(table, " -> " + r2);
    Concat("diesel::joinable!(", table + (" -> " + r2));
  }

  lemma {:induction false} TableJoinsOnLines(table: string, fks: seq<(string, string)>)
    requires IsWord(table) && forall i :: 0 <= i < |fks| ==> IsWord(fks[i].0) && IsWord(fks[i].1)
    ensures AllOnOneLine(TableJoins(table, fks))
  {
    if fks != [] {
      var init, last := fks[..|fks| - 1], fks[|fks| - 1];
      TableJoinsOnLines(table, init);
      JoinLineOnOneLine(table, last.1, last.0);
      Together(TableJoins(table, init), [JoinLine(table, last.1, last.0)]);
    }
  }

  lemma {:induction false} JoinsOnLines(tables: seq<ModelTable>)
    requires PlainTables(tables)
    ensures AllOnOneLine(JoinLines(tables))
  {
    if tables != [] {
      var init, t := tables[..|tables| - 1], tables[|tables| - 1];
      assert PlainTable(t);
      JoinsOnLines(init);
      TableJoinsOnLines(t.name, t.foreignKeys);
      Together(JoinLines(init), TableJoins(t.name, t.foreignKeys));
    }
  }

  lemma {:induction false} AllowOnLines(tables: seq<ModelTable>)
    requires PlainTables(tables)
    ensures AllOnOneLine(AllowLines(tables))
  {
    if tables != [] {
      assert PlainTable(tables[0]);
      WordOnOneLine(tables[0].name);
      Concat(tables[0].name, ",");
      Concat("    ", tables[0].name + ",");
      AllowOnLines(tables[1..]);
      Together([AllowLine(tables[0].name)], AllowLines(tables[1..]));
    }
  }

  lemma {:induction false} SchemaOnLines(tables: seq<ModelTable>)
    requires PlainTables(tables)
    ensures Text.CleanLines(SchemaLines(tables))
  {
    BlocksOnLines(tables);
    JoinsOnLines(tables);
    AllowOnLines(tables);
    FixedOnLines();
    Together([HEADER, ""], BlockLines(tables));
    AllTogether([""], JoinLines(tables), ["", ALLOW_OPEN], AllowLines(tables), [ALLOW_CLOSE]);
    Together([HEADER, ""] + BlockLines(tables), Joinables(tables));
    OneLineIsClean(SchemaLines(tables));
  }

  lemma {:induction false} OneLineIsClean(ls: seq<string>)
    requires AllOnOneLine(ls)
    ensures Text.CleanLines(ls)
  {
    forall i | 0 <= i < |ls|
      ensures Text.CleanLine(ls[i])
    {
      assert OnOneLine(ls[i]);
    }
  }

  /**
   The printed `schema.rs` can be read back: for every model with plain identifiers, parsing its text gives
   the tables in order with their keys, columns, full marker paths and nullability, and every join.
   */
  lemma {:induction false} SchemaRoundTrip(tables: seq<ModelTable>)
    requires PlainTables(tables)
    ensures ParseText(Text.Unlines(SchemaLines(tables))) == Some(SchemaView(TableViews(tables), JoinViews(tables)))
  {
    SchemaOnLines(tables);
    Text.LinesOfUnlines(SchemaLines(tables));
    LinesParse(tables);
  }

  /** So two models with the same `schema.rs` say the same. */
  lemma {:induction false} RenderingIsInjective(a: seq<ModelTable>, b: seq<ModelTable>)
    requires PlainTables(a) && PlainTables(b)
    requires Text.Unlines(SchemaLines(a)) == Text.Unlines(SchemaLines(b))
    ensures TableViews(a) == TableViews(b) && JoinViews(a) == JoinViews(b)
  {
    SchemaRoundTrip(a);
    SchemaRoundTrip(b);
  }
}
