/** When printing the segments of a text and segmenting it again changes nothing. */
module SegmentStability {
  import opened Wrappers
  import opened Segments
  import opened SegmentLaws
  import Text

  predicate NoBreaks(ls: seq<string>) {
    forall i :: 0 <= i < |ls| ==> '\n' !in ls[i]
  }

  /** A carriage return right before a line feed. */
  predicate HasCrLf(text: string) {
    exists i :: 0 <= i < |text| - 1 && text[i] == '\r' && text[i + 1] == '\n'
  }

  // ----- Lines and carriage returns -----

  lemma {:induction false} LinesHaveNoBreaks(s: string)
    ensures NoBreaks(Text.Lines(s))
    decreases |s|
  {
    var n := Text.LineEnd(s);
    if s != "" && n < |s| {
      LinesHaveNoBreaks(s[n + 1..]);
    }
  }

  function Stripped(ls: seq<string>): (r: seq<string>)
    ensures |r| == |ls| && forall i :: 0 <= i < |r| ==> r[i] == Text.StripCr(ls[i])
  {
    seq(|ls|, i requires 0 <= i < |ls| => Text.StripCr(ls[i]))
  }

  /** Writing lines and splitting the text strips one carriage return from each. */
  lemma {:induction false} LinesOfAny(ls: seq<string>)
    requires NoBreaks(ls)
    ensures Text.Lines(Text.Unlines(ls)) == Stripped(ls)
  {
    if ls != [] {
      var l, rest := ls[0], Text.Unlines(ls[1..]);
      var s := l + "\n" + rest;
      Text.LineEndAt(l, rest);
      assert s[..|l|] == l && s[|l| + 1..] == rest;
      LinesOfAny(ls[1..]);
      assert Stripped(ls) == [Text.StripCr(l)] + Stripped(ls[1..]);
    }
  }

  lemma {:induction false} UnlinesInjective(a: seq<string>, b: seq<string>)
    requires NoBreaks(a) && NoBreaks(b) && Text.Unlines(a) == Text.Unlines(b)
    ensures a == b
  {
    if a != [] && b != [] {
      var x, y := Text.Unlines(a[1..]), Text.Unlines(b[1..]);
      Text.LineEndAt(a[0], x);
      Text.LineEndAt(b[0], y);
      var s := a[0] + "\n" + x;
      assert s[..|a[0]|] == a[0] && s[|a[0]| + 1..] == x;
      assert s == b[0] + "\n" + y;
      assert s[..|b[0]|] == b[0] && s[|b[0]| + 1..] == y;
      UnlinesInjective(a[1..], b[1..]);
      assert a == [a[0]] + a[1..] && b == [b[0]] + b[1..];
    }
  }

  lemma {:induction false} CleanIffNoCrLf(run: seq<string>)
    requires NoBreaks(run)
    ensures Text.CleanLines(run) <==> !HasCrLf(Text.Unlines(run))
  {
    if run != [] {
      var l, rest := run[0], Text.Unlines(run[1..]);
      CleanIffNoCrLf(run[1..]);
      CrLfInFront(l, rest);
      assert Text.CleanLines(run) <==> Text.CleanLine(l) && Text.CleanLines(run[1..]) by {
        assert forall i :: 0 <= i < |run[1..]| ==> run[1..][i] == run[i + 1];
        assert forall i :: 1 <= i < |run| ==> run[i] == run[1..][i - 1];
      }
    }
  }

  lemma {:induction false} CrLfInFront(l: string, rest: string)
    requires '\n' !in l
    ensures HasCrLf(l + "\n" + rest) <==> !Text.CleanLine(l) || HasCrLf(rest)
  {
    var s, n := l + "\n" + rest, |l|;
    assert forall i :: 0 <= i < |s| ==> s[i] == if i < n then l[i] else if i == n then '\n' else rest[i - n - 1];
    assert forall i :: 0 <= i < n ==> s[i] != '\n';
    if HasCrLf(s) {
      var i :| 0 <= i < |s| - 1 && s[i] == '\r' && s[i + 1] == '\n';
      assert i > n ==> rest[i - n - 1] == '\r' && rest[i - n - 1 + 1] == '\n';
    }
    if HasCrLf(rest) {
      var i :| 0 <= i < |rest| - 1 && rest[i] == '\r' && rest[i + 1] == '\n';
      assert s[n + 1 + i] == '\r' && s[n + 1 + i + 1] == '\n';
    }
    if !Text.CleanLine(l) {
      assert s[n - 1] == '\r' && s[n - 1 + 1] == '\n';
    }
  }

  // ----- The lines of the printed text -----

  function LaidPart(part: seq<Segment>, run: seq<string>): seq<string> {
    if part == [] then []
    else
      match part[0]
      case Shared(_) => run
      case Tagged(b, _) => [PREFIX + NameOf(b)] + run + [PREFIX + "end"]
  }

  /** The lines printed for the first n runs, as they are before splitting strips them. */
  function Laid(p: Pieces, n: nat): seq<string>
    requires n <= |p.runs| == |p.marks| + 1
  {
    if n == 0 then [] else Laid(p, n - 1) + LaidPart(Part(p, n - 1), p.runs[n - 1])
  }

  lemma {:induction false} PrintedPart(part: seq<Segment>, run: seq<string>)
    requires |part| <= 1 && (part != [] ==> Body(part[0]) == Text.Unlines(run))
    ensures Prints(part, LaidPart(part, run))
  {
    if part != [] {
      var s := part[0];
      assert part == [s];
      PrintedSingle(s);
      match s
      case Shared(_) =>
      case Tagged(b, _) =>
        var open := PREFIX + NameOf(b);
        Text.UnlinesSnoc([open] + run, PREFIX + "end");
        Text.UnlinesAppend([open], run);
        assert Text.Unlines([open]) == open + "\n" by {
          assert [open][1..] == [];
        }
    }
  }

  lemma {:induction false} PrintedAppend(a: seq<Segment>, b: seq<Segment>)
    ensures Printed(a + b) == Printed(a) + Printed(b)
  {
    if b == [] {
      assert a + b == a;
    } else {
      assert (a + b)[..|a + b| - 1] == a + b[..|b| - 1];
      PrintedAppend(a, b[..|b| - 1]);
      Assoc(Printed(a), Printed(b[..|b| - 1]), PrintedSegment(b[|b| - 1]));
    }
  }

  lemma {:induction false} Assoc(x: string, y: string, z: string)
    ensures x + (y + z) == x + y + z
  {
  }

  ghost predicate Prints(segments: seq<Segment>, lines: seq<string>) {
    Printed(segments) == Text.Unlines(lines)
  }

  lemma {:induction false} PartBody(p: Pieces, j: nat)
    requires j < |p.runs| == |p.marks| + 1
    ensures |Part(p, j)| <= 1 && (Part(p, j) != [] ==> Body(Part(p, j)[0]) == Text.Unlines(p.runs[j]))
  {
  }

  lemma {:induction false} PrintedIsLaid(p: Pieces, n: nat)
    requires n <= |p.runs| == |p.marks| + 1
    ensures Prints(Parts(p, n), Laid(p, n))
  {
    var segments: seq<Segment>, laid: seq<string> := [], [];
    for j := 0 to n
      invariant segments == Parts(p, j) && laid == Laid(p, j) && Prints(segments, laid)
    {
      var part, lines := Part(p, j), LaidPart(Part(p, j), p.runs[j]);
      PartBody(p, j);
      PrintedPart(part, p.runs[j]);
      PrintsAppend(segments, laid, part, lines);
      segments, laid := segments + part, laid + lines;
    }
  }

  lemma {:induction false} PrintsAppend(a: seq<Segment>, x: seq<string>, b: seq<Segment>, y: seq<string>)
    requires Prints(a, x) && Prints(b, y)
    ensures Prints(a + b, x + y)
  {
    PrintedAppend(a, b);
    Text.UnlinesAppend(x, y);
  }

  // ----- Lines held by segments -----

  ghost predicate IsLineOf(l: string, body: string) {
    exists run :: NoBreaks(run) && body == Text.Unlines(run) && l in run
  }

  ghost predicate Held(segments: seq<Segment>, l: string) {
    exists i :: 0 <= i < |segments| && IsLineOf(l, Body(segments[i]))
  }

  /** A printed line is a line of some segment, or a directive, which does not end in a carriage return. */
  lemma {:induction false} LaidLineIsHeld(p: Pieces, n: nat, m: string)
    requires n <= |p.runs| == |p.marks| + 1 && m in Laid(p, n)
    requires forall j :: 0 <= j < |p.runs| ==> NoBreaks(p.runs[j])
    ensures Held(Parts(p, n), m) || Text.CleanLine(m)
  {
    var init, part, run := Parts(p, n - 1), Part(p, n - 1), p.runs[n - 1];
    if m in Laid(p, n - 1) {
      LaidLineIsHeld(p, n - 1, m);
      if Held(init, m) {
        var i :| 0 <= i < |init| && IsLineOf(m, Body(init[i]));
        assert Parts(p, n)[i] == init[i];
      }
    } else {
      LaidPartLine(part, run, m);
      PartBody(p, n - 1);
      if m in run {
        assert Parts(p, n)[|init|] == part[0];
        assert IsLineOf(m, Body(part[0]));
      }
    }
  }

  lemma {:induction false} LaidPartLine(part: seq<Segment>, run: seq<string>, m: string)
    requires m in LaidPart(part, run)
    ensures part != [] && (m in run || Text.CleanLine(m))
  {
    DirectiveLine("postgres");
    DirectiveLine("sqlite");
    DirectiveLine("end");
  }

  lemma {:induction false} HeldLineIsInARun(p: Pieces, n: nat, l: string) returns (j: nat)
    requires n <= |p.runs| == |p.marks| + 1 && Held(Parts(p, n), l)
    requires forall j :: 0 <= j < |p.runs| ==> NoBreaks(p.runs[j])
    ensures j < n && l in p.runs[j]
  {
    PartsHaveRunBodies(p, n);
    var i :| 0 <= i < |Parts(p, n)| && IsLineOf(l, Body(Parts(p, n)[i]));
    var run :| NoBreaks(run) && Body(Parts(p, n)[i]) == Text.Unlines(run) && l in run;
    j :| 0 <= j < n && Body(Parts(p, n)[i]) == Text.Unlines(p.runs[j]);
    UnlinesInjective(run, p.runs[j]);
  }

  lemma {:induction false} HeldLineFits(lines: seq<string>, l: string)
    requires NoBreaks(lines) && Segmented(lines).Ok? && Held(Segmented(lines).value, l)
    ensures |l| <= |Text.Unlines(lines)|
  {
    RunsHaveNoBreaks(lines);
    var j := HeldLineIsInARun(Cut(lines), |Cut(lines).runs|, l);
    RunsHoldOrdinaryLines(lines, j);
    LineFits(lines, l);
  }

  lemma {:induction false} LineFits(run: seq<string>, l: string)
    requires l in run
    ensures |l| <= |Text.Unlines(run)|
  {
    if l != run[0] {
      LineFits(run[1..], l);
    }
  }

  lemma {:induction false} RunsHaveNoBreaks(lines: seq<string>)
    requires NoBreaks(lines)
    ensures forall j :: 0 <= j < |Cut(lines).runs| ==> NoBreaks(Cut(lines).runs[j])
  {
    forall j | 0 <= j < |Cut(lines).runs|
      ensures NoBreaks(Cut(lines).runs[j])
    {
      RunsHoldOrdinaryLines(lines, j);
    }
  }

  // ----- Stability -----

  ghost predicate Stable(segments: seq<Segment>) {
    Segmented(Text.Lines(Printed(segments))) == Ok(segments)
  }

  predicate EndsInCrs(l: string, k: nat) {
    k <= |l| && forall i :: |l| - k <= i < |l| ==> l[i] == '\r'
  }

  /** In a stable list, a line ending in carriage returns can only come from one with one more. */
  lemma {:induction false} OneMoreCr(lines: seq<string>, l: string, k: nat) returns (m: string)
    requires NoBreaks(lines) && Segmented(lines).Ok? && Stable(Segmented(lines).value)
    requires Held(Segmented(lines).value, l) && 1 <= k && EndsInCrs(l, k)
    ensures Held(Segmented(lines).value, m) && EndsInCrs(m, k + 1)
  {
    var p := Cut(lines);
    var laid := Laid(p, |p.runs|);
    RunsHaveNoBreaks(lines);
    PrintedIsLaid(p, |p.runs|);
    LaidHasNoBreaks(p, |p.runs|);
    LinesOfAny(laid);
    var q := Cut(Stripped(laid));
    RunsHaveNoBreaks(Stripped(laid));
    var j := HeldLineIsInARun(q, |q.runs|, l);
    RunsHoldOrdinaryLines(Stripped(laid), j);
    m := WithCr(laid, l, k);
    LaidLineIsHeld(p, |p.runs|, m);
  }

  lemma {:induction false} WithCr(laid: seq<string>, l: string, k: nat) returns (m: string)
    requires l in Stripped(laid) && 1 <= k && EndsInCrs(l, k)
    ensures m in laid && EndsInCrs(m, k + 1) && !Text.CleanLine(m)
  {
    var i :| 0 <= i < |laid| && Stripped(laid)[i] == l;
    m := laid[i];
    assert l[|l| - 1] == '\r';
    assert m != "" && m[|m| - 1] == '\r';
    assert m == l + "\r";
  }

  lemma {:induction false} LaidHasNoBreaks(p: Pieces, n: nat)
    requires n <= |p.runs| == |p.marks| + 1
    requires forall j :: 0 <= j < |p.runs| ==> NoBreaks(p.runs[j])
    ensures NoBreaks(Laid(p, n))
  {
    if n > 0 {
      LaidHasNoBreaks(p, n - 1);
      var part, run := Part(p, n - 1), p.runs[n - 1];
      forall m | m in LaidPart(part, run)
        ensures '\n' !in m
      {
        LaidPartLine(part, run, m);
      }
    }
  }

  /** So a stable list holds no line that ends in a carriage return. */
  lemma {:induction false} NoEndlessCrs(lines: seq<string>, l: string, k: nat)
    requires NoBreaks(lines) && Segmented(lines).Ok? && Stable(Segmented(lines).value)
    requires Held(Segmented(lines).value, l) && 1 <= k && EndsInCrs(l, k)
    ensures false
    decreases |Text.Unlines(lines)| - k
  {
    var m := OneMoreCr(lines, l, k);
    HeldLineFits(lines, m);
    NoEndlessCrs(lines, m, k + 1);
  }

  lemma {:induction false} StableHasNoCrLf(lines: seq<string>, i: nat)
    requires NoBreaks(lines) && Segmented(lines).Ok? && Stable(Segmented(lines).value)
    requires i < |Segmented(lines).value|
    ensures !HasCrLf(Body(Segmented(lines).value[i]))
  {
    var p, segments := Cut(lines), Segmented(lines).value;
    RunsHaveNoBreaks(lines);
    PartsHaveRunBodies(p, |p.runs|);
    var j :| 0 <= j < |p.runs| && Body(segments[i]) == Text.Unlines(p.runs[j]);
    if HasCrLf(Body(segments[i])) {
      var l := LineWithCr(p.runs[j]);
      assert IsLineOf(l, Body(segments[i]));
      NoEndlessCrs(lines, l, 1);
    }
  }

  lemma {:induction false} LineWithCr(run: seq<string>) returns (l: string)
    requires NoBreaks(run) && HasCrLf(Text.Unlines(run))
    ensures l in run && EndsInCrs(l, 1)
  {
    CleanIffNoCrLf(run);
    var x :| 0 <= x < |run| && !Text.CleanLine(run[x]);
    l := run[x];
  }

  lemma {:induction false} NoCrLfIsNormal(lines: seq<string>, i: nat)
    requires NoBreaks(lines) && Segmented(lines).Ok? && i < |Segmented(lines).value|
    requires !HasCrLf(Body(Segmented(lines).value[i]))
    ensures NormalBody(Body(Segmented(lines).value[i]))
  {
    var p := Cut(lines);
    RunsHaveNoBreaks(lines);
    PartsHaveRunBodies(p, |p.runs|);
    var j :| 0 <= j < |p.runs| && Body(Segmented(lines).value[i]) == Text.Unlines(p.runs[j]);
    CleanIffNoCrLf(p.runs[j]);
    RunsHoldOrdinaryLines(lines, j);
    Text.LinesOfUnlines(p.runs[j]);
  }

  /**
   For every text that segments: printing its segments and segmenting again gives the same segments if and
   only if no segment holds a carriage return before a line feed.
   */
  lemma {:induction false} SegmentationIsStableIff(sql: string)
    requires Segmented(Text.Lines(sql)).Ok?
    ensures var segments := Segmented(Text.Lines(sql)).value;
            Segmented(Text.Lines(Printed(segments))) == Ok(segments) <==>
              forall i :: 0 <= i < |segments| ==> !HasCrLf(Body(segments[i]))
  {
    var lines := Text.Lines(sql);
    var segments := Segmented(lines).value;
    LinesHaveNoBreaks(sql);
    if Stable(segments) {
      forall i | 0 <= i < |segments|
        ensures !HasCrLf(Body(segments[i]))
      {
        StableHasNoCrLf(lines, i);
      }
    }
    if forall i :: 0 <= i < |segments| ==> !HasCrLf(Body(segments[i])) {
      forall i | 0 <= i < |segments|
        ensures NormalBody(Body(segments[i]))
      {
        NoCrLfIsNormal(lines, i);
      }
      PartsAreSeparated(Cut(lines), |Cut(lines).runs|);
      SegmentInvertsPrint(segments);
    }
  }

  /** The failing case: a second carriage return before the line feed. Each pass removes one. */
  lemma {:induction false} CarriageReturnIsUnstable()
    ensures Segmented(Text.Lines("a\r\r\n")) == Ok([Shared("a\r\n")])
    ensures Segmented(Text.Lines(Printed([Shared("a\r\n")]))) == Ok([Shared("a\n")])
  {
    OneLine("a\r\r", "a\r");
    OneLine("a\r", "a");
    assert "a\r\r\n" == "a\r\r" + "\n" && "a\r\n" == "a\r" + "\n" && "a\n" == "a" + "\n";
    PrintedOne("a\r\n");
  }

  lemma {:induction false} PrintedOne(sql: string)
    ensures Printed([Shared(sql)]) == sql
  {
    assert [Shared(sql)][..0] == [];
  }

  lemma {:induction false} OneLine(content: string, line: string)
    requires '\n' !in content && Text.StripCr(content) == line
    requires line != "" && line[0] == 'a'
    ensures Segmented(Text.Lines(content + "\n")) == Ok([Shared(line + "\n")])
  {
    var text := content + "\n";
    Text.LineEndAt(content, "");
    assert content + "\n" + "" == text;
    assert text[..|content|] == content;
    assert Text.Lines(text) == [line];
    NotADirective(line);
    assert Text.Unlines([line]) == line + "\n";
    assert (line + "\n")[0] == 'a';
    SegmentedOneRun([line]);
  }

  lemma {:induction false} SegmentedOneRun(ls: seq<string>)
    requires forall i :: 0 <= i < |ls| ==> Directive(ls[i]).None?
    requires !Text.Blank(Text.Unlines(ls))
    ensures Segmented(ls) == Ok([Shared(Text.Unlines(ls))])
  {
    CutOrdinary(ls);
    var p := Pieces([ls], []);
    EvenPart(p, 0);
    OnePart(p);
    NoMarksNoFault();
  }

  lemma {:induction false} OnePart(p: Pieces)
    requires |p.runs| == 1 && p.marks == []
    ensures Parts(p, 1) == Part(p, 0)
  {
    assert Parts(p, 1) == [] + Part(p, 0);
  }

  lemma {:induction false} NoMarksNoFault()
    ensures FaultFrom([], 0) == None
  {
  }

  lemma {:induction false} NotADirective(line: string)
    requires line != "" && line[0] == 'a'
    ensures Directive(line).None?
  {
    assert Text.TrimStart(line) == line;
    TrimEndIsPrefix(line);
  }

  lemma {:induction false} TrimEndIsPrefix(s: string)
    ensures Text.TrimEnd(s) <= s
  {
    if s != "" && Text.IsSpace(s[|s| - 1]) {
      TrimEndIsPrefix(s[..|s| - 1]);
    }
  }
}
