/**
 The escape hatch: splitting a logical migration into shared chunks and per-backend blocks.

 `SegmentText` walks the lines once with mutable state. Its specification never mentions that state:
 it cuts the text at the directive lines and reads the segments off the pieces by their position.
 */
module Segments {
  import opened Wrappers
  import opened Sql
  import Text

  datatype Segment = Shared(sql: string) | Tagged(backend: Backend, raw: string)

  const PREFIX: string := "-- dualdb:"

  /** The name on a directive line, or nothing for an ordinary line. */
  function Directive(line: string): Option<string> {
    var t := Text.Trim(line);
    if PREFIX <= t then Some(Text.Trim(t[|PREFIX|..])) else None
  }

  function BackendNamed(name: string): Option<Backend> {
    if name == "postgres" then Some(Postgres) else if name == "sqlite" then Some(Sqlite) else None
  }

  function NameOf(b: Backend): string {
    match b
    case Postgres => "postgres"
    case Sqlite => "sqlite"
  }

  // ----- Cutting at the directives -----

  /** The ordinary lines between directives, and the directives: one more run than there are marks. */
  datatype Pieces = Pieces(runs: seq<seq<string>>, marks: seq<string>)

  /** A directive ends the last run and starts an empty one; any other line is added to the last run. */
  function Extend(p: Pieces, line: string): (q: Pieces)
    requires |p.runs| == |p.marks| + 1
    ensures |q.runs| == |q.marks| + 1
  {
    var n := |p.marks|;
    match Directive(line)
    case Some(name) => Pieces(p.runs + [[]], p.marks + [name])
    case None => Pieces(p.runs[n := p.runs[n] + [line]], p.marks)
  }

  function Cut(lines: seq<string>): (p: Pieces)
    ensures |p.runs| == |p.marks| + 1
  {
    if lines == [] then Pieces([[]], [])
    else Extend(Cut(lines[..|lines| - 1]), lines[|lines| - 1])
  }

  /** What is wrong with the mark at index k, which must open a block (even k) or end one (odd k). */
  function FaultAt(name: string, k: nat): Option<Error> {
    if k % 2 == 0 then
      if BackendNamed(name).Some? then None
      else if name == "end" then Some(EndWithoutBlock)
      else Some(UnknownDirective(name))
    else
      if name == "end" then None
      else if BackendNamed(name).Some? then Some(NestedBlock)
      else Some(UnknownDirective(name))
  }

  /** The first fault at or after mark k. */
  function FaultFrom(marks: seq<string>, k: nat): Option<Error>
    requires k <= |marks|
    decreases |marks| - k
  {
    if k == |marks| then
      if k % 2 == 1 then Some(UnclosedBlock) else None
    else if FaultAt(marks[k], k).Some? then FaultAt(marks[k], k)
    else FaultFrom(marks, k + 1)
  }

  /** The segments that run j contributes: a shared chunk unless blank, or the body of a block. */
  function Part(p: Pieces, j: nat): seq<Segment>
    requires j < |p.runs| == |p.marks| + 1
  {
    var text := Text.Unlines(p.runs[j]);
    if j % 2 == 0 then
      if Text.Blank(text) then [] else [Shared(text)]
    else
      [Tagged(if p.marks[j - 1] == "postgres" then Postgres else Sqlite, text)]
  }

  function Parts(p: Pieces, n: nat): seq<Segment>
    requires n <= |p.runs| == |p.marks| + 1
  {
    if n == 0 then [] else Parts(p, n - 1) + Part(p, n - 1)
  }

  /** The specification of `SegmentText`. */
  function Segmented(lines: seq<string>): Result<seq<Segment>, Error> {
    var p := Cut(lines);
    match FaultFrom(p.marks, 0)
    case Some(e) => Err(e)
    case None => Ok(Parts(p, |p.runs|))
  }

  // ----- Cutting a concatenation -----

  /** Pieces put end to end: the last run of the first joins the first run of the second. */
  function Glue(a: Pieces, b: Pieces): (p: Pieces)
    requires |a.runs| == |a.marks| + 1 && |b.runs| == |b.marks| + 1
    ensures |p.runs| == |p.marks| + 1
  {
    Pieces(a.runs[..|a.marks|] + [a.runs[|a.marks|] + b.runs[0]] + b.runs[1..], a.marks + b.marks)
  }

  lemma {:induction false} GlueExtend(p: Pieces, q: Pieces, line: string)
    requires |p.runs| == |p.marks| + 1 && |q.runs| == |q.marks| + 1
    ensures Extend(Glue(p, q), line) == Glue(p, Extend(q, line))
  {
    var m, n := |p.marks|, |q.marks|;
    var e, g := Extend(q, line), Glue(p, q);
    assert g.runs[m + n] == if n == 0 then p.runs[m] + q.runs[0] else q.runs[n];
    match Directive(line)
    case Some(name) =>
      assert Extend(g, line).runs == Glue(p, e).runs;
    case None =>
      if n == 0 {
        assert p.runs[m] + q.runs[0] + [line] == p.runs[m] + (q.runs[0] + [line]);
      }
      assert Extend(g, line).runs == Glue(p, e).runs;
  }

  lemma {:induction false} CutAppend(a: seq<string>, b: seq<string>)
    ensures Cut(a + b) == Glue(Cut(a), Cut(b))
    decreases |b|
  {
    if b == [] {
      assert a + b == a;
      var p := Cut(a);
      assert Cut(b) == Pieces([[]], []);
      assert p.runs[|p.marks|] + [] == p.runs[|p.marks|];
      assert p.runs == Glue(p, Cut(b)).runs;
      assert p.marks == Glue(p, Cut(b)).marks;
    } else {
      var b', line := b[..|b| - 1], b[|b| - 1];
      CutAppend(a, b');
      assert (a + b)[..|a + b| - 1] == a + b';
      GlueExtend(Cut(a), Cut(b'), line);
    }
  }

  lemma {:induction false} CutMarksPrefix(lines: seq<string>, i: nat)
    requires i <= |lines|
    ensures Cut(lines[..i]).marks <= Cut(lines).marks
  {
    CutAppend(lines[..i], lines[i..]);
    assert lines[..i] + lines[i..] == lines;
  }

  lemma {:induction false} PartsOfPrefix(p: Pieces, q: Pieces, n: nat)
    requires |p.runs| == |p.marks| + 1 && |q.runs| == |q.marks| + 1
    requires n < |p.runs| && n < |q.runs|
    requires p.runs[..n] == q.runs[..n] && p.marks[..n] == q.marks[..n]
    ensures Parts(p, n) == Parts(q, n)
  {
    if n > 0 {
      assert p.runs[..n - 1] == p.runs[..n][..n - 1] && q.runs[..n - 1] == q.runs[..n][..n - 1];
      assert p.marks[..n - 1] == p.marks[..n][..n - 1] && q.marks[..n - 1] == q.marks[..n][..n - 1];
      PartsOfPrefix(p, q, n - 1);
      assert p.runs[n - 1] == p.runs[..n][n - 1] == q.runs[..n][n - 1] == q.runs[n - 1];
      if n >= 2 {
        assert p.marks[n - 2] == p.marks[..n][n - 2] == q.marks[..n][n - 2] == q.marks[n - 2];
      }
    }
  }

  // ----- The method -----

  /** What the loop's variables hold after cutting some lines into p. */
  ghost predicate Reached(p: Pieces, segments: seq<Segment>, shared: string, tagged: Option<(Backend, string)>)
    requires |p.runs| == |p.marks| + 1
  {
    var n := |p.marks|;
    && segments == Parts(p, n)
    && (tagged.Some? <==> n % 2 == 1)
    && match tagged
       case None => shared == Text.Unlines(p.runs[n])
       case Some(block) => shared == "" && Part(p, n) == [Tagged(block.0, block.1)]
  }

  lemma {:induction false} ReachedLine(p: Pieces, line: string, segments: seq<Segment>, shared: string,
                                       tagged: Option<(Backend, string)>)
    requires |p.runs| == |p.marks| + 1 && Reached(p, segments, shared, tagged) && Directive(line).None?
    ensures match tagged
            case None => Reached(Extend(p, line), segments, shared + line + "\n", None)
            case Some(block) => Reached(Extend(p, line), segments, "", Some((block.0, block.1 + line + "\n")))
  {
    var n := |p.marks|;
    var q := Extend(p, line);
    Text.UnlinesSnoc(p.runs[n], line);
    assert q.runs[..n] == p.runs[..n];
    PartsOfPrefix(p, q, n);
  }

  lemma {:induction false} ReachedMark(p: Pieces, line: string)
    requires |p.runs| == |p.marks| + 1 && Directive(line).Some?
    ensures Parts(Extend(p, line), |p.marks| + 1) == Parts(p, |p.marks|) + Part(p, |p.marks|)
  {
    var n := |p.marks|;
    var q := Extend(p, line);
    assert q.runs[..n] == p.runs[..n] && q.marks[..n] == p.marks[..n];
    PartsOfPrefix(p, q, n);
    assert q.runs[n] == p.runs[n];
    if n > 0 {
      assert q.marks[n - 1] == p.marks[n - 1];
    }
  }

  /** The segments after closing a shared run. */
  function WithShared(segments: seq<Segment>, shared: string): (r: seq<Segment>)
    ensures r == segments + (if Text.Blank(shared) then [] else [Shared(shared)])
  {
    if Text.Blank(shared) then segments else segments + [Shared(shared)]
  }

  /** A backend directive closes the shared run, keeping it unless it is blank, and opens a block. */
  lemma {:induction false} ReachedOpen(p: Pieces, line: string, segments: seq<Segment>, shared: string)
    requires |p.runs| == |p.marks| + 1 && Reached(p, segments, shared, None)
    requires Directive(line).Some? && BackendNamed(Directive(line).value).Some?
    ensures Reached(Extend(p, line), WithShared(segments, shared), "",
                    Some((BackendNamed(Directive(line).value).value, "")))
  {
    ReachedMark(p, line);
    assert Text.Unlines([]) == "";
  }

  /** An end directive turns the open block into a segment and starts an empty shared run. */
  lemma {:induction false} ReachedEnd(p: Pieces, line: string, segments: seq<Segment>, shared: string,
                                      block: (Backend, string))
    requires |p.runs| == |p.marks| + 1 && Reached(p, segments, shared, Some(block))
    requires Directive(line).Some?
    ensures Reached(Extend(p, line), segments + [Tagged(block.0, block.1)], "", None)
  {
    ReachedMark(p, line);
    assert Text.Unlines([]) == "";
  }

  lemma {:induction false} CutStep(lines: seq<string>, i: nat)
    requires i < |lines|
    ensures Cut(lines[..i + 1]) == Extend(Cut(lines[..i]), lines[i])
    ensures Cut(lines[..i + 1]).marks <= Cut(lines).marks
    ensures Directive(lines[i]).Some? ==>
      var n := |Cut(lines[..i]).marks|;
      n < |Cut(lines).marks| && Cut(lines).marks[n] == Directive(lines[i]).value
  {
    assert lines[..i + 1][..i] == lines[..i];
    CutMarksPrefix(lines, i + 1);
    if Directive(lines[i]).Some? {
      var q := Cut(lines[..i + 1]);
      assert Cut(lines).marks[..|q.marks|] == q.marks;
    }
  }

  /** The loop's variables after i lines, with no fault among the marks so far. */
  ghost predicate Scanned(lines: seq<string>, i: nat, segments: seq<Segment>, shared: string,
                          tagged: Option<(Backend, string)>)
    requires i <= |lines|
  {
    var p, marks := Cut(lines[..i]), Cut(lines).marks;
    && |p.marks| <= |marks|
    && FaultFrom(marks, 0) == FaultFrom(marks, |p.marks|)
    && Reached(p, segments, shared, tagged)
  }

  lemma {:induction false} ScannedLine(lines: seq<string>, i: nat, segments: seq<Segment>, shared: string,
                                       tagged: Option<(Backend, string)>)
    requires i < |lines| && Scanned(lines, i, segments, shared, tagged) && Directive(lines[i]).None?
    ensures match tagged
            case None => Scanned(lines, i + 1, segments, shared + lines[i] + "\n", None)
            case Some(block) => Scanned(lines, i + 1, segments, shared, Some((block.0, block.1 + lines[i] + "\n")))
  {
    CutStep(lines, i);
    ReachedLine(Cut(lines[..i]), lines[i], segments, shared, tagged);
  }

  lemma {:induction false} MarkPasses(marks: seq<string>, n: nat)
    requires n < |marks|
    ensures FaultAt(marks[n], n).None? ==> FaultFrom(marks, n) == FaultFrom(marks, n + 1)
  {
  }

  lemma {:induction false} ScannedMark(lines: seq<string>, i: nat, segments: seq<Segment>, shared: string,
                                       tagged: Option<(Backend, string)>)
    requires i < |lines| && Directive(lines[i]).Some?
    requires var n, marks := |Cut(lines[..i]).marks|, Cut(lines).marks;
             n <= |marks| && FaultFrom(marks, 0) == FaultFrom(marks, n) && FaultAt(Directive(lines[i]).value, n).None?
    requires Reached(Extend(Cut(lines[..i]), lines[i]), segments, shared, tagged)
    ensures Scanned(lines, i + 1, segments, shared, tagged)
  {
    CutStep(lines, i);
    var n, next := |Cut(lines[..i]).marks|, Cut(lines[..i + 1]);
    MarkPasses(Cut(lines).marks, n);
    assert |next.marks| == n + 1;
  }

  lemma {:induction false} ScannedOpen(lines: seq<string>, i: nat, segments: seq<Segment>, shared: string, name: string,
                                       b: Backend)
    requires i < |lines| && Scanned(lines, i, segments, shared, None)
    requires Directive(lines[i]) == Some(name) && BackendNamed(name) == Some(b)
    ensures Scanned(lines, i + 1, WithShared(segments, shared), "", Some((b, "")))
  {
    CutStep(lines, i);
    ReachedOpen(Cut(lines[..i]), lines[i], segments, shared);
    ScannedMark(lines, i, WithShared(segments, shared), "", Some((b, "")));
  }

  lemma {:induction false} ScannedEnd(lines: seq<string>, i: nat, segments: seq<Segment>, shared: string,
                                      block: (Backend, string))
    requires i < |lines| && Scanned(lines, i, segments, shared, Some(block)) && Directive(lines[i]) == Some("end")
    ensures Scanned(lines, i + 1, segments + [Tagged(block.0, block.1)], "", None)
  {
    CutStep(lines, i);
    ReachedEnd(Cut(lines[..i]), lines[i], segments, shared, block);
    ScannedMark(lines, i, segments + [Tagged(block.0, block.1)], "", None);
  }

  lemma {:induction false} ScannedStart(lines: seq<string>)
    ensures Scanned(lines, 0, [], "", None)
  {
    assert lines[..0] == [];
  }

  /** The error that ends the loop: an opening mark inside a block, an end outside one, or an unknown name. */
  function Fault(name: string, inside: bool): Option<Error> {
    FaultAt(name, if inside then 1 else 0)
  }

  lemma {:induction false} ScannedFault(lines: seq<string>, i: nat, segments: seq<Segment>, shared: string,
                                        tagged: Option<(Backend, string)>, name: string)
    requires i < |lines| && Scanned(lines, i, segments, shared, tagged) && Directive(lines[i]) == Some(name)
    requires Fault(name, tagged.Some?).Some?
    ensures Segmented(lines) == Err(Fault(name, tagged.Some?).value)
  {
    FaultAtLine(lines, i, tagged.Some?);
  }

  lemma {:induction false} FaultAtLine(lines: seq<string>, i: nat, inside: bool)
    requires i < |lines| && Directive(lines[i]).Some? && Fault(Directive(lines[i]).value, inside).Some?
    requires var n, marks := |Cut(lines[..i]).marks|, Cut(lines).marks;
             n <= |marks| && FaultFrom(marks, 0) == FaultFrom(marks, n) && (inside <==> n % 2 == 1)
    ensures Segmented(lines) == Err(Fault(Directive(lines[i]).value, inside).value)
  {
    MarkAt(lines, i);
    FirstFault(Cut(lines).marks, |Cut(lines[..i]).marks|, if inside then 1 else 0);
    FaultIsReported(lines);
  }

  lemma {:induction false} MarkAt(lines: seq<string>, i: nat)
    requires i < |lines| && Directive(lines[i]).Some?
    ensures var n := |Cut(lines[..i]).marks|;
            n < |Cut(lines).marks| && Cut(lines).marks[n] == Directive(lines[i]).value
  {
    CutStep(lines, i);
  }

  lemma {:induction false} FaultIsReported(lines: seq<string>)
    ensures match FaultFrom(Cut(lines).marks, 0)
            case Some(e) => Segmented(lines) == Err(e)
            case None => true
  {
  }

  lemma {:induction false} FirstFault(marks: seq<string>, n: nat, k: nat)
    requires n < |marks| && FaultFrom(marks, 0) == FaultFrom(marks, n)
    requires n % 2 == k % 2 && FaultAt(marks[n], k).Some?
    ensures FaultFrom(marks, 0) == FaultAt(marks[n], k)
  {
    assert FaultAt(marks[n], n) == FaultAt(marks[n], k);
  }

  lemma {:induction false} ScannedAll(lines: seq<string>, segments: seq<Segment>, shared: string,
                                      tagged: Option<(Backend, string)>)
    requires Scanned(lines, |lines|, segments, shared, tagged)
    ensures Segmented(lines) ==
            if tagged.Some? then Err(UnclosedBlock)
            else Ok(WithShared(segments, shared))
  {
    assert lines[..|lines|] == lines;
  }

  /** `segment`: one pass over the lines. */
  method SegmentText(sql: string) returns (r: Result<seq<Segment>, Error>)
    ensures r == Segmented(Text.Lines(sql))
  {
    var segments: seq<Segment> := [];
    var shared := "";
    var tagged: Option<(Backend, string)> := None;
    var lines := Text.Lines(sql);
    ScannedStart(lines);
    for i := 0 to |lines|
      invariant Scanned(lines, i, segments, shared, tagged)
    {
      var line := lines[i];
      match Directive(line)
      case Some(name) =>
        if name == "postgres" || name == "sqlite" {
          if tagged.Some? {
            ScannedFault(lines, i, segments, shared, tagged, name);
            return Err(NestedBlock);
          }
          var backend := if name == "postgres" then Postgres else Sqlite;
          ScannedOpen(lines, i, segments, shared, name, backend);
          Text.TrimIsEmptyIffBlank(shared);
          if Text.Trim(shared) != "" {
            segments := segments + [Shared(shared)];
          }
          shared := "";
          tagged := Some((backend, ""));
        } else if name == "end" {
          if tagged.None? {
            ScannedFault(lines, i, segments, shared, tagged, name);
            return Err(EndWithoutBlock);
          }
          ScannedEnd(lines, i, segments, shared, tagged.value);
          segments := segments + [Tagged(tagged.value.0, tagged.value.1)];
          tagged := None;
        } else {
          ScannedFault(lines, i, segments, shared, tagged, name);
          return Err(UnknownDirective(name));
        }
      case None =>
        ScannedLine(lines, i, segments, shared, tagged);
        if tagged.Some? {
          tagged := Some((tagged.value.0, tagged.value.1 + line + "\n"));
        } else {
          shared := shared + line + "\n";
        }
    }
    ScannedAll(lines, segments, shared, tagged);
    if tagged.Some? {
      return Err(UnclosedBlock);
    }
    Text.TrimIsEmptyIffBlank(shared);
    if Text.Trim(shared) != "" {
      segments := segments + [Shared(shared)];
    }
    r := Ok(segments);
  }
}
