/** What segmentation promises: which inputs it accepts, that no line is lost, and that it inverts printing. */
module SegmentLaws {
  import opened Wrappers
  import opened Sql
  import opened Segments
  import Text

  // ----- Directives -----

  /** A line is a directive of a name if it is the name after the prefix, with white space around both. */
  ghost predicate Directs(line: string, name: string) {
    && Text.Tight(name)
    && exists a, b, c :: Text.Blank(a) && Text.Blank(b) && Text.Blank(c) && line == a + "-- dualdb:" + b + name + c
  }

  lemma {:induction false} NamelessDirective(a: string, rest: string)
    requires Text.Blank(a) && Text.Blank(rest)
    ensures Directive(a + "-- dualdb:" + rest) == Some("")
  {
    Text.TrimOf(a, "-- dualdb:", rest);
    assert "-- dualdb:"[|PREFIX|..] == "";
  }

  lemma {:induction false} NamedDirective(a: string, b: string, name: string, c: string)
    requires Text.Blank(a) && Text.Blank(b) && Text.Blank(c) && Text.Tight(name) && name != ""
    ensures Directive(a + ("-- dualdb:" + (b + name)) + c) == Some(name)
  {
    var t := "-- dualdb:" + (b + name);
    assert t[|t| - 1] == name[|name| - 1] && t[0] == '-';
    Text.TrimOf(a, t, c);
    Text.TrimOf(b, name, "");
    assert t[|PREFIX|..] == b + name == b + name + "";
  }

  lemma {:induction false} DirectiveOf(a: string, b: string, name: string, c: string)
    requires Text.Blank(a) && Text.Blank(b) && Text.Blank(c) && Text.Tight(name)
    ensures Directive(a + "-- dualdb:" + b + name + c) == Some(name)
  {
    if name == "" {
      Text.BlankParts(b, c);
      NamelessDirective(a, b + c);
      assert a + "-- dualdb:" + b + name + c == a + "-- dualdb:" + (b + c);
    } else {
      NamedDirective(a, b, name, c);
      assert a + "-- dualdb:" + b + name + c == a + ("-- dualdb:" + (b + name)) + c;
    }
  }

  lemma {:induction false} DirectiveSplits(line: string)
    requires Directive(line).Some?
    ensures Directs(line, Directive(line).value)
  {
    var a, c := Text.TrimSplits(line);
    var t := Text.Trim(line);
    var b, d := Text.TrimSplits(t[|PREFIX|..]);
    Text.BlankParts(d, c);
    var name := Directive(line).value;
    assert t == "-- dualdb:" + (b + name + d);
    assert line == a + "-- dualdb:" + b + name + (d + c);
  }

  /** The lines that are directives, and their names, written out. */
  lemma {:induction false} DirectiveIff(line: string, name: string)
    ensures Directive(line) == Some(name) <==> Directs(line, name)
  {
    if Directive(line) == Some(name) {
      DirectiveSplits(line);
    }
    if Directs(line, name) {
      var a, b, c :| Text.Blank(a) && Text.Blank(b) && Text.Blank(c) && line == a + "-- dualdb:" + b + name + c;
      DirectiveOf(a, b, name, c);
    }
  }

  /** An ordinary line: no prefix after white space. */
  predicate Ordinary(line: string) {
    forall i :: 0 <= i <= |line| && Text.Blank(line[..i]) ==> !("-- dualdb:" <= line[i..])
  }

  lemma {:induction false} PrefixAt(a: string, rest: string)
    ensures var line := a + PREFIX + rest; line[..|a|] == a && PREFIX <= line[|a|..]
  {
    var line := a + PREFIX + rest;
    assert line[|a|..] == PREFIX + rest;
  }

  lemma {:induction false} DirectiveHasPrefix(line: string)
    requires Directive(line).Some?
    ensures !Ordinary(line)
  {
    DirectiveSplits(line);
    var name := Directive(line).value;
    var a, b, c :| Text.Blank(a) && Text.Blank(b) && Text.Blank(c) && line == a + "-- dualdb:" + b + name + c;
    assert line == a + PREFIX + (b + name + c);
    PrefixAt(a, b + name + c);
  }

  lemma {:induction false} PrefixIsDirective(line: string, i: nat)
    requires i <= |line| && Text.Blank(line[..i]) && PREFIX <= line[i..]
    ensures Directive(line).Some?
  {
    var rest := line[i..][|PREFIX|..];
    var b, c := Text.TrimSplits(rest);
    DirectiveOf(line[..i], b, Text.Trim(rest), c);
    Parts4(line, i, b, Text.Trim(rest), c);
  }

  lemma {:induction false} Parts4(line: string, i: nat, b: string, name: string, c: string)
    requires i <= |line| && PREFIX <= line[i..] && line[i..][|PREFIX|..] == b + name + c
    ensures line[..i] + "-- dualdb:" + b + name + c == line
  {
    assert line == line[..i] + line[i..];
    assert line[i..] == PREFIX + line[i..][|PREFIX|..];
    assert line[..i] + "-- dualdb:" + b + name + c == line[..i] + (PREFIX + (b + name + c));
  }

  lemma {:induction false} OrdinaryIff(line: string)
    ensures Directive(line).None? <==> Ordinary(line)
  {
    if Directive(line).Some? {
      DirectiveHasPrefix(line);
    } else {
      forall i | 0 <= i <= |line| && Text.Blank(line[..i])
        ensures !("-- dualdb:" <= line[i..])
      {
        if PREFIX <= line[i..] {
          PrefixIsDirective(line, i);
        }
      }
    }
  }

  // ----- Acceptance -----

  function DirectiveNames(lines: seq<string>): seq<string> {
    if lines == [] then []
    else
      var d := Directive(lines[|lines| - 1]);
      DirectiveNames(lines[..|lines| - 1]) + if d.Some? then [d.value] else []
  }

  function OrdinaryLines(lines: seq<string>): seq<string> {
    if lines == [] then []
    else
      var l := lines[|lines| - 1];
      OrdinaryLines(lines[..|lines| - 1]) + if Directive(l).None? then [l] else []
  }

  /** Blocks opened by a known backend and ended, one after the other. */
  predicate Balanced(marks: seq<string>) {
    && |marks| % 2 == 0
    && forall k :: 0 <= k < |marks| ==>
         if k % 2 == 0 then marks[k] == "postgres" || marks[k] == "sqlite" else marks[k] == "end"
  }

  lemma {:induction false} MarksAreDirectives(lines: seq<string>)
    ensures Cut(lines).marks == DirectiveNames(lines)
  {
    if lines != [] {
      MarksAreDirectives(lines[..|lines| - 1]);
    }
  }

  /** Segmentation succeeds exactly when the directives pair up. */
  lemma {:induction false} Acceptance(lines: seq<string>)
    ensures Segmented(lines).Ok? <==> Balanced(DirectiveNames(lines))
  {
    MarksAreDirectives(lines);
    var marks := Cut(lines).marks;
    if FaultFrom(marks, 0).None? {
      NoFault(marks, 0);
    } else {
      SomeFault(marks, 0);
    }
  }

  lemma {:induction false} NoFault(marks: seq<string>, k: nat)
    requires k <= |marks| && FaultFrom(marks, k).None?
    ensures |marks| % 2 == 0
    ensures forall j :: k <= j < |marks| ==> FaultAt(marks[j], j).None?
    decreases |marks| - k
  {
    if k < |marks| {
      NoFault(marks, k + 1);
    }
  }

  lemma {:induction false} SomeFault(marks: seq<string>, k: nat)
    requires k <= |marks| && FaultFrom(marks, k).Some?
    ensures |marks| % 2 == 1 || exists j :: k <= j < |marks| && FaultAt(marks[j], j).Some?
    decreases |marks| - k
  {
    if k < |marks| && FaultAt(marks[k], k).None? {
      SomeFault(marks, k + 1);
    }
  }

  lemma {:induction false} FirstFaultFrom(marks: seq<string>, from: nat, k: nat)
    requires from <= k < |marks| && FaultAt(marks[k], k).Some?
    requires forall j :: from <= j < k ==> FaultAt(marks[j], j).None?
    ensures FaultFrom(marks, from) == FaultAt(marks[k], k)
    decreases k - from
  {
    if from < k {
      FirstFaultFrom(marks, from + 1, k);
    }
  }

  lemma {:induction false} NoneFrom(marks: seq<string>, from: nat)
    requires from <= |marks| && forall j :: from <= j < |marks| ==> FaultAt(marks[j], j).None?
    ensures FaultFrom(marks, from) == if |marks| % 2 == 1 then Some(UnclosedBlock) else None
    decreases |marks| - from
  {
    if from < |marks| {
      NoneFrom(marks, from + 1);
    }
  }

  /** The directives at even places open a block, those at odd places end it. */
  predicate InPlace(name: string, k: nat) {
    if k % 2 == 0 then name == "postgres" || name == "sqlite" else name == "end"
  }

  /** The error for a directive that is out of place: by its name, and inside or outside a block. */
  predicate Explains(e: Error, name: string, k: nat) {
    match e
    case NestedBlock => k % 2 == 1 && (name == "postgres" || name == "sqlite")
    case EndWithoutBlock => k % 2 == 0 && name == "end"
    case UnknownDirective(unknown) => unknown == name && name != "postgres" && name != "sqlite" && name != "end"
    case _ => false
  }

  lemma {:induction false} FaultIff(name: string, k: nat, e: Error)
    ensures FaultAt(name, k).None? <==> InPlace(name, k)
    ensures FaultAt(name, k) == Some(e) <==> !InPlace(name, k) && Explains(e, name, k)
  {
  }

  /** Directive k is the first one out of place, and e says why. */
  predicate FirstOutOfPlace(marks: seq<string>, k: nat, e: Error) {
    k < |marks| && !InPlace(marks[k], k) && Explains(e, marks[k], k) && forall j :: 0 <= j < k ==> InPlace(marks[j], j)
  }

  lemma {:induction false} FindFirst(marks: seq<string>, from: nat) returns (k: nat)
    requires from <= |marks| && exists j :: from <= j < |marks| && FaultAt(marks[j], j).Some?
    ensures from <= k < |marks| && FaultAt(marks[k], k).Some?
    ensures forall j :: from <= j < k ==> FaultAt(marks[j], j).None?
    decreases |marks| - from
  {
    k := from;
    if FaultAt(marks[from], from).None? {
      k := FindFirst(marks, from + 1);
    }
  }

  /**
   The error reported is that of the first directive out of place: an opening inside a block, an end outside one,
   or an unknown name. If none is, it can only be that the last block is not closed.
   */
  lemma {:induction false} FirstFaultIsReported(lines: seq<string>, e: Error)
    ensures var marks := DirectiveNames(lines);
            Segmented(lines) == Err(e) <==>
              || (exists k :: FirstOutOfPlace(marks, k, e))
              || ((forall j :: 0 <= j < |marks| ==> InPlace(marks[j], j)) && |marks| % 2 == 1 && e == UnclosedBlock)
  {
    MarksAreDirectives(lines);
    var marks := Cut(lines).marks;
    forall j | 0 <= j < |marks|
      ensures FaultAt(marks[j], j).None? <==> InPlace(marks[j], j)
      ensures FaultAt(marks[j], j) == Some(e) <==> !InPlace(marks[j], j) && Explains(e, marks[j], j)
    {
      FaultIff(marks[j], j, e);
    }
    if exists j :: 0 <= j < |marks| && FaultAt(marks[j], j).Some? {
      var k := FindFirst(marks, 0);
      FirstFaultFrom(marks, 0, k);
      assert FaultAt(marks[k], k) == Some(e) <==> FirstOutOfPlace(marks, k, e);
      forall i | FirstOutOfPlace(marks, i, e)
        ensures i == k
      {
      }
    } else {
      NoneFrom(marks, 0);
    }
  }

  // ----- Conservation -----

  function Body(s: Segment): string {
    match s
    case Shared(sql) => sql
    case Tagged(_, raw) => raw
  }

  function Bodies(segments: seq<Segment>): string {
    if segments == [] then "" else Bodies(segments[..|segments| - 1]) + Body(segments[|segments| - 1])
  }

  /** The lines of the first n runs. */
  function AllRuns(p: Pieces, n: nat): seq<string>
    requires n <= |p.runs|
  {
    if n == 0 then [] else AllRuns(p, n - 1) + p.runs[n - 1]
  }

  /** The same without the shared runs that are blank as a whole. */
  function KeptRuns(p: Pieces, n: nat): seq<string>
    requires n <= |p.runs|
  {
    if n == 0 then []
    else KeptRuns(p, n - 1) + KeptRun(p.runs[n - 1], (n - 1) % 2 == 0)
  }

  function KeptRun(run: seq<string>, shared: bool): seq<string> {
    if shared && Text.Blank(Text.Unlines(run)) then [] else run
  }

  lemma {:induction false} KeptRunKeepsText(run: seq<string>, shared: bool)
    ensures NonBlank(KeptRun(run, shared)) == NonBlank(run)
    ensures Text.Unlines(KeptRun(run, shared)) ==
            if shared && Text.Blank(Text.Unlines(run)) then "" else Text.Unlines(run)
  {
    if Text.Blank(Text.Unlines(run)) {
      BlankTextHasBlankLines(run);
    }
  }

  function NonBlank(lines: seq<string>): seq<string> {
    if lines == [] then []
    else (if Text.Blank(lines[0]) then [] else [lines[0]]) + NonBlank(lines[1..])
  }

  lemma {:induction false} NonBlankAppend(a: seq<string>, b: seq<string>)
    ensures NonBlank(a + b) == NonBlank(a) + NonBlank(b)
  {
    if a == [] {
      assert a + b == b;
    } else {
      assert (a + b)[1..] == a[1..] + b;
      NonBlankAppend(a[1..], b);
    }
  }

  lemma {:induction false} BlankTextHasBlankLines(ls: seq<string>)
    requires Text.Blank(Text.Unlines(ls))
    ensures NonBlank(ls) == []
  {
    if ls != [] {
      var head, tail := ls[0], Text.Unlines(ls[1..]);
      var s := Text.Unlines(ls);
      assert s == head + "\n" + tail;
      assert forall i :: 0 <= i < |head| ==> head[i] == s[i];
      assert forall i :: 0 <= i < |tail| ==> tail[i] == s[|head| + 1 + i];
      BlankTextHasBlankLines(ls[1..]);
    }
  }

  lemma {:induction false} RunsAreOrdinaryLines(lines: seq<string>)
    ensures AllRuns(Cut(lines), |Cut(lines).runs|) == OrdinaryLines(lines)
  {
    if lines == [] {
      assert AllRuns(Cut(lines), 1) == AllRuns(Cut(lines), 0) + [];
    } else {
      var init, l := lines[..|lines| - 1], lines[|lines| - 1];
      RunsAreOrdinaryLines(init);
      var p, q := Cut(init), Cut(lines);
      var n := |p.marks|;
      AllRunsPrefix(p, q, n);
      assert AllRuns(p, n + 1) == AllRuns(p, n) + p.runs[n];
      assert AllRuns(q, n + 1) == AllRuns(q, n) + q.runs[n];
      if Directive(l).Some? {
        assert AllRuns(q, n + 2) == AllRuns(q, n + 1) + [];
      }
    }
  }

  lemma {:induction false} AllRunsPrefix(p: Pieces, q: Pieces, n: nat)
    requires n <= |p.runs| && n <= |q.runs| && forall j :: 0 <= j < n ==> p.runs[j] == q.runs[j]
    ensures AllRuns(p, n) == AllRuns(q, n)
  {
    if n > 0 {
      AllRunsPrefix(p, q, n - 1);
    }
  }

  lemma {:induction false} BodiesAppend(a: seq<Segment>, b: seq<Segment>)
    ensures Bodies(a + b) == Bodies(a) + Bodies(b)
  {
    if b == [] {
      assert a + b == a;
    } else {
      assert (a + b)[..|a + b| - 1] == a + b[..|b| - 1];
      BodiesAppend(a, b[..|b| - 1]);
    }
  }

  lemma {:induction false} OneBody(s: Segment)
    ensures Bodies([s]) == Body(s)
  {
    assert [s][..0] == [];
    assert "" + Body(s) == Body(s);
  }

  /** The segments hold exactly these lines. */
  ghost predicate Hold(segments: seq<Segment>, lines: seq<string>) {
    Bodies(segments) == Text.Unlines(lines)
  }

  lemma {:induction false} BodiesAreKeptRuns(p: Pieces, n: nat)
    requires n <= |p.runs| == |p.marks| + 1
    ensures Hold(Parts(p, n), KeptRuns(p, n))
  {
    var segments: seq<Segment>, kept: seq<string> := [], [];
    for j := 0 to n
      invariant segments == Parts(p, j) && kept == KeptRuns(p, j) && Hold(segments, kept)
    {
      var part, run := Part(p, j), KeptRun(p.runs[j], j % 2 == 0);
      BodiesOfPart(p, j);
      BodiesStep(segments, part, kept, run);
      segments, kept := segments + part, kept + run;
    }
  }

  lemma {:induction false} BodiesStep(segments: seq<Segment>, part: seq<Segment>, kept: seq<string>, run: seq<string>)
    requires Hold(segments, kept) && Hold(part, run)
    ensures Hold(segments + part, kept + run)
  {
    BodiesAppend(segments, part);
    Text.UnlinesAppend(kept, run);
  }

  lemma {:induction false} KeptRunsKeepText(p: Pieces, n: nat)
    requires n <= |p.runs|
    ensures NonBlank(KeptRuns(p, n)) == NonBlank(AllRuns(p, n))
  {
    var all: seq<string>, kept: seq<string> := [], [];
    for j := 0 to n
      invariant all == AllRuns(p, j) && kept == KeptRuns(p, j) && NonBlank(kept) == NonBlank(all)
    {
      var run, keptRun := p.runs[j], KeptRun(p.runs[j], j % 2 == 0);
      KeptRunKeepsText(run, j % 2 == 0);
      NonBlankAppend(all, run);
      NonBlankAppend(kept, keptRun);
      all, kept := all + run, kept + keptRun;
    }
  }

  lemma {:induction false} BodiesOfPart(p: Pieces, j: nat)
    requires j < |p.runs| == |p.marks| + 1
    ensures Hold(Part(p, j), KeptRun(p.runs[j], j % 2 == 0))
  {
    KeptRunKeepsText(p.runs[j], j % 2 == 0);
    if Part(p, j) != [] {
      OneBody(Part(p, j)[0]);
    }
  }

  /**
   The bodies of the segments, end to end, are the ordinary lines in order, less the shared runs that
   are wholly blank; so every line with a visible character appears once, in its place.
   */
  lemma {:induction false} Conservation(lines: seq<string>)
    requires Segmented(lines).Ok?
    ensures var p := Cut(lines); var kept := KeptRuns(p, |p.runs|);
            && Bodies(Segmented(lines).value) == Text.Unlines(kept)
            && NonBlank(kept) == NonBlank(OrdinaryLines(lines))
    ensures var p := Cut(lines);
            (forall j :: 0 <= j < |p.runs| && j % 2 == 0 ==> !Text.Blank(Text.Unlines(p.runs[j]))) ==>
              Bodies(Segmented(lines).value) == Text.Unlines(OrdinaryLines(lines))
  {
    var p := Cut(lines);
    BodiesAreKeptRuns(p, |p.runs|);
    assert Hold(Segmented(lines).value, KeptRuns(p, |p.runs|));
    KeptRunsKeepText(p, |p.runs|);
    RunsAreOrdinaryLines(lines);
    if forall j :: 0 <= j < |p.runs| && j % 2 == 0 ==> !Text.Blank(Text.Unlines(p.runs[j])) {
      AllKept(p, |p.runs|);
    }
  }

  lemma {:induction false} AllKept(p: Pieces, n: nat)
    requires n <= |p.runs|
    requires forall j :: 0 <= j < n && j % 2 == 0 ==> !Text.Blank(Text.Unlines(p.runs[j]))
    ensures KeptRuns(p, n) == AllRuns(p, n)
  {
    if n > 0 {
      AllKept(p, n - 1);
    }
  }

  // ----- Segmenting printed segments -----

  function PrintedLines(s: Segment): seq<string> {
    match s
    case Shared(sql) => Text.Lines(sql)
    case Tagged(b, raw) => [PREFIX + NameOf(b)] + Text.Lines(raw) + [PREFIX + "end"]
  }

  /** The canonical text of a segment: its body, between directives if it is tagged. */
  function PrintedSegment(s: Segment): string {
    match s
    case Shared(sql) => sql
    case Tagged(b, raw) => PREFIX + NameOf(b) + "\n" + raw + PREFIX + "end" + "\n"
  }

  function Printed(segments: seq<Segment>): string {
    if segments == [] then "" else Printed(segments[..|segments| - 1]) + PrintedSegment(segments[|segments| - 1])
  }

  function AllPrintedLines(segments: seq<Segment>): seq<string> {
    if segments == [] then []
    else AllPrintedLines(segments[..|segments| - 1]) + PrintedLines(segments[|segments| - 1])
  }

  /** Whole "\n"-terminated lines, none of them a directive. */
  predicate NormalBody(text: string) {
    && text == Text.Unlines(Text.Lines(text))
    && Text.CleanLines(Text.Lines(text))
    && forall i :: 0 <= i < |Text.Lines(text)| ==> Directive(Text.Lines(text)[i]).None?
  }

  predicate NormalBodies(segments: seq<Segment>) {
    forall i :: 0 <= i < |segments| ==> NormalBody(Body(segments[i]))
  }

  /** No blank shared chunk, and no two shared chunks side by side. */
  predicate Separated(segments: seq<Segment>) {
    && (forall i :: 0 <= i < |segments| && segments[i].Shared? ==> !Text.Blank(segments[i].sql))
    && (forall i :: 0 <= i < |segments| - 1 ==> segments[i].Tagged? || segments[i + 1].Tagged?)
  }

  predicate EndsTagged(segments: seq<Segment>) {
    segments == [] || segments[|segments| - 1].Tagged?
  }

  predicate Normal(segments: seq<Segment>) {
    NormalBodies(segments) && Separated(segments)
  }

  /** Lines without a line break at the end or a directive among them. */
  predicate OrdinaryText(ls: seq<string>) {
    Text.CleanLines(ls) && forall i :: 0 <= i < |ls| ==> Ordinary(ls[i])
  }

  lemma {:induction false} OrdinaryIsNormal(ls: seq<string>)
    requires OrdinaryText(ls)
    ensures NormalBody(Text.Unlines(ls))
  {
    Text.LinesOfUnlines(ls);
    forall i | 0 <= i < |ls|
      ensures Directive(ls[i]).None?
    {
      OrdinaryIff(ls[i]);
    }
  }

  lemma {:induction false} PrintedAlone(b: Backend, y: string)
    ensures Printed([Tagged(b, y)]) == "-- dualdb:" + NameOf(b) + "\n" + y + "-- dualdb:end\n"
  {
    var s := Tagged(b, y);
    assert [s][..0] == [];
    assert "-- dualdb:end\n" == PREFIX + "end" + "\n";
    assert PrintedSegment(s) == "-- dualdb:" + NameOf(b) + "\n" + y + "-- dualdb:end\n";
  }

  lemma {:induction false} PrintedSnoc(segments: seq<Segment>, s: Segment)
    ensures Printed(segments + [s]) == Printed(segments) + PrintedSegment(s)
  {
    assert (segments + [s])[..|segments|] == segments;
  }

  lemma {:induction false} PrintedSingle(s: Segment)
    ensures Printed([s]) == PrintedSegment(s)
  {
    assert [s][..0] == [];
    assert "" + PrintedSegment(s) == PrintedSegment(s);
  }

  lemma {:induction false} PrintedThree(s: Segment, t: Segment, u: Segment)
    ensures Printed([s, t, u]) == PrintedSegment(s) + PrintedSegment(t) + PrintedSegment(u)
  {
    PrintedSingle(s);
    assert [s] + [t] == [s, t];
    PrintedSnoc([s], t);
    assert [s, t] + [u] == [s, t, u];
    PrintedSnoc([s, t], u);
  }

  lemma {:induction false} NormalThree(s: Segment, t: Segment, u: Segment)
    requires NormalBody(Body(s)) && NormalBody(Body(t)) && NormalBody(Body(u))
    ensures NormalBodies([s, t, u])
  {
    var all := [s, t, u];
    forall i | 0 <= i < |all|
      ensures NormalBody(Body(all[i]))
    {
      if i == 0 {
        assert all[i] == s;
      } else if i == 1 {
        assert all[i] == t;
      } else {
        assert all[i] == u;
      }
    }
  }

  lemma {:induction false} BlockAlone(b: Backend, body: seq<string>, open: string)
    requires OrdinaryText(body) && open == "-- dualdb:" + NameOf(b) + "\n"
    ensures var y := Text.Unlines(body); Segmented(Text.Lines(open + y + "-- dualdb:end\n")) == Ok([Tagged(b, y)])
  {
    OrdinaryIsNormal(body);
    PrintedAlone(b, Text.Unlines(body));
    NormalAlone(Tagged(b, Text.Unlines(body)));
    SegmentInvertsPrint([Tagged(b, Text.Unlines(body))]);
  }

  lemma {:induction false} NormalAlone(s: Segment)
    requires NormalBody(Body(s)) && s.Tagged?
    ensures Normal([s])
  {
  }

  /** A block in writing belongs to the backend named on its first line. */
  lemma {:induction false} BlockInWriting(body: seq<string>)
    requires OrdinaryText(body)
    ensures var y := Text.Unlines(body);
            && Segmented(Text.Lines("-- dualdb:postgres\n" + y + "-- dualdb:end\n")) == Ok([Tagged(Postgres, y)])
            && Segmented(Text.Lines("-- dualdb:sqlite\n" + y + "-- dualdb:end\n")) == Ok([Tagged(Sqlite, y)])
  {
    Openings();
    BlockAlone(Postgres, body, "-- dualdb:postgres\n");
    BlockAlone(Sqlite, body, "-- dualdb:sqlite\n");
  }

  lemma {:induction false} Openings()
    ensures "-- dualdb:postgres\n" == "-- dualdb:" + NameOf(Postgres) + "\n"
    ensures "-- dualdb:sqlite\n" == "-- dualdb:" + NameOf(Sqlite) + "\n"
  {
  }

  /** Between shared chunks it cuts the text in three. */
  lemma {:induction false} BlockBetweenChunks(before: seq<string>, b: Backend, body: seq<string>, after: seq<string>,
                                              block: string)
    requires OrdinaryText(before) && OrdinaryText(body) && OrdinaryText(after)
    requires !Text.Blank(Text.Unlines(before)) && !Text.Blank(Text.Unlines(after))
    requires block == "-- dualdb:" + NameOf(b) + "\n" + Text.Unlines(body) + "-- dualdb:end\n"
    ensures var x, y, z := Text.Unlines(before), Text.Unlines(body), Text.Unlines(after);
            Segmented(Text.Lines(x + block + z)) == Ok([Shared(x), Tagged(b, y), Shared(z)])
  {
    var x, y, z := Text.Unlines(before), Text.Unlines(body), Text.Unlines(after);
    OrdinaryIsNormal(before);
    OrdinaryIsNormal(body);
    OrdinaryIsNormal(after);
    PrintedAlone(b, y);
    PrintedSingle(Tagged(b, y));
    PrintedThree(Shared(x), Tagged(b, y), Shared(z));
    NormalBetween(x, Tagged(b, y), z);
    SegmentInvertsPrint([Shared(x), Tagged(b, y), Shared(z)]);
  }

  lemma {:induction false} NormalBetween(x: string, s: Segment, z: string)
    requires NormalBody(x) && NormalBody(Body(s)) && NormalBody(z) && s.Tagged? && !Text.Blank(x) && !Text.Blank(z)
    ensures Normal([Shared(x), s, Shared(z)])
  {
    NormalThree(Shared(x), s, Shared(z));
  }

  lemma {:induction false} DirectiveLine(name: string)
    requires name == "postgres" || name == "sqlite" || name == "end"
    ensures Directive(PREFIX + name) == Some(name)
    ensures Text.CleanLine(PREFIX + name)
  {
    var line := PREFIX + name;
    assert line[|line| - 1] == name[|name| - 1];
    Text.TrimOfTight(line);
    Text.TrimOfTight(name);
    assert line[|PREFIX|..] == name;
    assert forall i :: 0 <= i < |line| ==> line[i] == if i < |PREFIX| then PREFIX[i] else name[i - |PREFIX|];
  }

  lemma {:induction false} PrintedSegmentLines(s: Segment)
    requires NormalBody(Body(s))
    ensures PrintedSegment(s) == Text.Unlines(PrintedLines(s)) && Text.CleanLines(PrintedLines(s))
  {
    if s.Tagged? {
      DirectiveLine(NameOf(s.backend));
      DirectiveLine("end");
      var open, end := PREFIX + NameOf(s.backend), PREFIX + "end";
      var lines := Text.Lines(s.raw);
      Text.UnlinesAppend([open] + lines, [end]);
      Text.UnlinesAppend([open], lines);
      assert Text.Unlines([open]) == open + "\n";
      assert Text.Unlines([end]) == end + "\n";
      assert Text.Unlines(PrintedLines(s)) == open + "\n" + s.raw + (end + "\n");
    }
  }

  lemma {:induction false} LinesOfPrinted(segments: seq<Segment>)
    requires NormalBodies(segments)
    ensures Printed(segments) == Text.Unlines(AllPrintedLines(segments)) && Text.CleanLines(AllPrintedLines(segments))
  {
    if segments != [] {
      var init, s := segments[..|segments| - 1], segments[|segments| - 1];
      LinesOfPrinted(init);
      PrintedSegmentLines(s);
      Text.UnlinesAppend(AllPrintedLines(init), PrintedLines(s));
    }
  }

  /** The runs and marks that normal segments print as. */
  function Layout(segments: seq<Segment>): (p: Pieces)
    ensures |p.runs| == |p.marks| + 1
  {
    if segments == [] then Pieces([[]], [])
    else
      var p := Layout(segments[..|segments| - 1]);
      match segments[|segments| - 1]
      case Shared(sql) => Pieces(p.runs[|p.marks| := p.runs[|p.marks|] + Text.Lines(sql)], p.marks)
      case Tagged(b, raw) => Pieces(p.runs + [Text.Lines(raw), []], p.marks + [NameOf(b), "end"])
  }

  lemma {:induction false} CutOrdinary(ls: seq<string>)
    requires forall i :: 0 <= i < |ls| ==> Directive(ls[i]).None?
    ensures Cut(ls) == Pieces([ls], [])
  {
    if ls != [] {
      CutOrdinary(ls[..|ls| - 1]);
      assert ls[..|ls| - 1] + [ls[|ls| - 1]] == ls;
    }
  }

  lemma {:induction false} CutSnoc(ls: seq<string>, l: string)
    ensures Cut(ls + [l]) == Extend(Cut(ls), l)
  {
    assert (ls + [l])[..|ls|] == ls;
  }

  lemma {:induction false} CutOne(open: string)
    requires Directive(open).Some?
    ensures Cut([open]) == Pieces([[], []], [Directive(open).value])
  {
    CutSnoc([], open);
    assert [] + [open] == [open];
  }

  lemma {:induction false} CutOpen(open: string, ls: seq<string>)
    requires Directive(open).Some?
    requires forall i :: 0 <= i < |ls| ==> Directive(ls[i]).None?
    ensures Cut([open] + ls) == Pieces([[], ls], [Directive(open).value])
  {
    var p := Pieces([[], []], [Directive(open).value]);
    CutOne(open);
    CutOrdinary(ls);
    CutAppend([open], ls);
    GlueOrdinary(p, ls);
    assert [] + ls == ls;
    assert p.runs[1 := ls] == [[], ls];
  }

  lemma {:induction false} CutBetween(open: string, end: string, ls: seq<string>)
    requires Directive(open).Some? && Directive(end).Some?
    requires forall i :: 0 <= i < |ls| ==> Directive(ls[i]).None?
    ensures Cut([open] + ls + [end]) == Pieces([[], ls, []], [Directive(open).value, Directive(end).value])
  {
    CutOpen(open, ls);
    CutSnoc([open] + ls, end);
    ExtendWithMark(Pieces([[], ls], [Directive(open).value]), end);
    assert [[], ls] + [[]] == [[], ls, []];
  }

  lemma {:induction false} ExtendWithMark(p: Pieces, line: string)
    requires |p.runs| == |p.marks| + 1 && Directive(line).Some?
    ensures Extend(p, line) == Pieces(p.runs + [[]], p.marks + [Directive(line).value])
  {
  }

  lemma {:induction false} GlueBlock(p: Pieces, ls: seq<string>, open: string, end: string)
    requires |p.runs| == |p.marks| + 1
    ensures Glue(p, Pieces([[], ls, []], [open, end])) == Pieces(p.runs + [ls, []], p.marks + [open, end])
  {
    var q := Pieces([[], ls, []], [open, end]);
    assert p.runs[|p.marks|] + [] == p.runs[|p.marks|];
    assert q.runs[1..] == [ls, []];
    assert p.runs[..|p.marks|] + [p.runs[|p.marks|]] == p.runs;
  }

  lemma {:induction false} GlueOrdinary(p: Pieces, ls: seq<string>)
    requires |p.runs| == |p.marks| + 1
    ensures Glue(p, Pieces([ls], [])) == Pieces(p.runs[|p.marks| := p.runs[|p.marks|] + ls], p.marks)
  {
    var q := Pieces([ls], []);
    assert q.runs[1..] == [];
    assert Glue(p, q).runs == p.runs[|p.marks| := p.runs[|p.marks|] + ls];
    assert Glue(p, q).marks == p.marks;
  }

  lemma {:induction false} CutOfBlock(b: Backend, ls: seq<string>)
    requires forall i :: 0 <= i < |ls| ==> Directive(ls[i]).None?
    ensures Cut([PREFIX + NameOf(b)] + ls + [PREFIX + "end"]) == Pieces([[], ls, []], [NameOf(b), "end"])
  {
    DirectiveLine(NameOf(b));
    DirectiveLine("end");
    CutBetween(PREFIX + NameOf(b), PREFIX + "end", ls);
  }

  lemma {:induction false} CutOfPrinted(segments: seq<Segment>)
    requires NormalBodies(segments)
    ensures Cut(AllPrintedLines(segments)) == Layout(segments)
  {
    if segments != [] {
      var init, s := segments[..|segments| - 1], segments[|segments| - 1];
      CutOfPrinted(init);
      CutAppend(AllPrintedLines(init), PrintedLines(s));
      var p := Layout(init);
      var lines := Text.Lines(Body(s));
      match s
      case Shared(_) =>
        CutOrdinary(lines);
        GlueOrdinary(p, lines);
      case Tagged(b, _) =>
        CutOfBlock(b, lines);
        GlueBlock(p, lines, NameOf(b), "end");
    }
  }

  /** Reading the layout off by position gives the segments back; its last run holds a trailing shared chunk. */
  lemma {:induction false} PartsOfLayout(segments: seq<Segment>)
    requires NormalBodies(segments) && Separated(segments)
    ensures Parts(Layout(segments), |Layout(segments).runs|) == segments
    ensures EndsTagged(segments) ==> Layout(segments).runs[|Layout(segments).marks|] == []
  {
    LayoutMarks(segments);
    if segments == [] {
      PartsOfNothing();
    } else {
      var init, s := segments[..|segments| - 1], segments[|segments| - 1];
      LayoutMarks(init);
      SeparatedInit(segments);
      PartsOfLayout(init);
      assert segments == init + [s];
      match s
      case Shared(sql) => PartsOfSharedLayout(Layout(init), sql);
      case Tagged(b, raw) => PartsOfBlockLayout(Layout(init), b, raw);
    }
  }

  lemma {:induction false} PartsOfNothing()
    ensures Parts(Pieces([[]], []), 1) == []
  {
    var p := Pieces([[]], []);
    assert Text.Unlines([]) == "";
    assert Part(p, 0) == [];
    assert Parts(p, 1) == Parts(p, 0) + Part(p, 0);
  }

  lemma {:induction false} LayoutMarks(segments: seq<Segment>)
    ensures Balanced(Layout(segments).marks)
  {
    if segments != [] {
      LayoutMarks(segments[..|segments| - 1]);
    }
  }

  lemma {:induction false} SeparatedInit(segments: seq<Segment>)
    requires Separated(segments) && segments != []
    ensures Separated(segments[..|segments| - 1])
    ensures segments[|segments| - 1].Shared? ==> EndsTagged(segments[..|segments| - 1])
  {
    var n := |segments| - 1;
    var init := segments[..n];
    assert forall i :: 0 <= i < n ==> init[i] == segments[i];
    if n > 0 {
      assert init[n - 1] == segments[n - 1];
      assert segments[n - 1].Tagged? || segments[n - 1 + 1].Tagged?;
    }
  }

  lemma {:induction false} PartsOfSharedLayout(p: Pieces, sql: string)
    requires |p.runs| == |p.marks| + 1 && |p.marks| % 2 == 0 && p.runs[|p.marks|] == []
    requires sql == Text.Unlines(Text.Lines(sql)) && !Text.Blank(sql)
    ensures var q := Pieces(p.runs[|p.marks| := p.runs[|p.marks|] + Text.Lines(sql)], p.marks);
            Parts(q, |q.runs|) == Parts(p, |p.runs|) + [Shared(sql)]
  {
    var n, lines := |p.marks|, Text.Lines(sql);
    assert [] + lines == lines;
    var q := Pieces(p.runs[n := lines], p.marks);
    assert q.runs[..n] == p.runs[..n];
    PartsOfPrefix(p, q, n);
    EvenPart(p, n);
    EvenPart(q, n);
    assert Text.Unlines([]) == "";
    assert Parts(p, n + 1) == Parts(p, n) + [];
    assert Parts(q, n + 1) == Parts(q, n) + [Shared(sql)];
  }

  lemma {:induction false} EvenPart(p: Pieces, j: nat)
    requires j < |p.runs| == |p.marks| + 1 && j % 2 == 0
    ensures Part(p, j) == if Text.Blank(Text.Unlines(p.runs[j])) then [] else [Shared(Text.Unlines(p.runs[j]))]
  {
  }

  lemma {:induction false} PartsOfBlockLayout(p: Pieces, b: Backend, raw: string)
    requires |p.runs| == |p.marks| + 1 && |p.marks| % 2 == 0
    requires raw == Text.Unlines(Text.Lines(raw))
    ensures var q := Pieces(p.runs + [Text.Lines(raw), []], p.marks + [NameOf(b), "end"]);
            Parts(q, |q.runs|) == Parts(p, |p.runs|) + [Tagged(b, raw)]
  {
    var n, lines := |p.marks|, Text.Lines(raw);
    var q := Pieces(p.runs + [lines, []], p.marks + [NameOf(b), "end"]);
    assert q.runs[..n] == p.runs[..n] && q.marks[..n] == p.marks[..n];
    PartsOfPrefix(p, q, n);
    EvenPart(p, n);
    EvenPart(q, n);
    assert q.runs[n] == p.runs[n];
    assert Parts(q, n + 1) == Parts(p, n + 1);
    BlockAtEnd(q, n + 1, b, raw);
  }

  lemma {:induction false} BlockAtEnd(q: Pieces, j: nat, b: Backend, raw: string)
    requires |q.runs| == |q.marks| + 1 == j + 2 && j % 2 == 1
    requires q.marks[j - 1] == NameOf(b) && Text.Unlines(q.runs[j]) == raw && q.runs[j + 1] == []
    ensures Parts(q, j + 2) == Parts(q, j) + [Tagged(b, raw)]
  {
    BlockPart(q, j, b, raw);
    EvenPart(q, j + 1);
    assert Text.Unlines([]) == "";
    assert Parts(q, j + 1) == Parts(q, j) + [Tagged(b, raw)];
    assert Parts(q, j + 2) == Parts(q, j + 1) + [];
  }

  lemma {:induction false} BlockPart(p: Pieces, j: nat, b: Backend, raw: string)
    requires 0 < j < |p.runs| == |p.marks| + 1 && j % 2 == 1
    requires p.marks[j - 1] == NameOf(b) && Text.Unlines(p.runs[j]) == raw
    ensures Part(p, j) == [Tagged(b, raw)]
  {
  }

  /** Segmentation inverts printing: every normal segment list is read back from its text. */
  lemma {:induction false} SegmentInvertsPrint(segments: seq<Segment>)
    requires Normal(segments)
    ensures Segmented(Text.Lines(Printed(segments))) == Ok(segments)
  {
    LinesOfPrinted(segments);
    Text.LinesOfUnlines(AllPrintedLines(segments));
    CutOfPrinted(segments);
    PartsOfLayout(segments);
    LayoutMarks(segments);
    BalancedIsFaultless(Layout(segments).marks);
    ReadOff(AllPrintedLines(segments), Layout(segments));
  }

  lemma {:induction false} BalancedIsFaultless(marks: seq<string>)
    requires Balanced(marks)
    ensures FaultFrom(marks, 0).None?
  {
    if FaultFrom(marks, 0).Some? {
      SomeFault(marks, 0);
    }
  }

  lemma {:induction false} ReadOff(lines: seq<string>, p: Pieces)
    requires |p.runs| == |p.marks| + 1 && Cut(lines) == p && FaultFrom(p.marks, 0).None?
    ensures Segmented(lines) == Ok(Parts(p, |p.runs|))
  {
  }

  // ----- What segmentation yields -----

  lemma {:induction false} RunsHoldOrdinaryLines(lines: seq<string>, j: nat)
    requires j < |Cut(lines).runs|
    ensures forall i :: 0 <= i < |Cut(lines).runs[j]| ==>
              Cut(lines).runs[j][i] in lines && Directive(Cut(lines).runs[j][i]).None?
  {
    if lines != [] {
      var init := lines[..|lines| - 1];
      if j < |Cut(init).runs| {
        RunsHoldOrdinaryLines(init, j);
      }
    }
  }

  lemma {:induction false} PartsAreSeparated(p: Pieces, n: nat)
    requires n <= |p.runs| == |p.marks| + 1
    ensures Separated(Parts(p, n))
    ensures n % 2 == 0 ==> EndsTagged(Parts(p, n))
  {
    if n > 0 {
      PartsAreSeparated(p, n - 1);
      SeparatedAppend(Parts(p, n - 1), Part(p, n - 1));
    }
  }

  lemma {:induction false} SeparatedAppend(init: seq<Segment>, part: seq<Segment>)
    requires Separated(init) && |part| <= 1
    requires part != [] && part[0].Shared? ==> EndsTagged(init) && !Text.Blank(part[0].sql)
    ensures Separated(init + part)
  {
    var all := init + part;
    assert forall i :: 0 <= i < |all| ==> all[i] == if i < |init| then init[i] else part[0];
  }

  lemma {:induction false} PartsHaveRunBodies(p: Pieces, n: nat)
    requires n <= |p.runs| == |p.marks| + 1
    ensures forall i :: 0 <= i < |Parts(p, n)| ==>
              exists j :: 0 <= j < n && Body(Parts(p, n)[i]) == Text.Unlines(p.runs[j])
  {
    if n > 0 {
      PartsHaveRunBodies(p, n - 1);
      var init, part := Parts(p, n - 1), Part(p, n - 1);
      forall i | 0 <= i < |Parts(p, n)|
        ensures exists j :: 0 <= j < n && Body(Parts(p, n)[i]) == Text.Unlines(p.runs[j])
      {
        if i < |init| {
          var j :| 0 <= j < n - 1 && Body(init[i]) == Text.Unlines(p.runs[j]);
        } else {
          assert Parts(p, n)[i] == part[i - |init|] == part[0];
          assert Body(part[0]) == Text.Unlines(p.runs[n - 1]);
        }
      }
    } else {
      assert Parts(p, n) == [];
    }
  }
}
