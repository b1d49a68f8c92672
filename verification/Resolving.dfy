/** Resolving the Include lines of a configuration. */
module Resolving {
  // What the graph of Include lines holds once it is resolved, in terms of the files read:
  // every argument of every Include line has its edge, every match is in the graph or was
  // reported as too deep, and what is reported of single files is exactly what is wrong
  // with them.

  import opened Results
  import opened Text
  import opened Syntax
  import opened Blocks
  import opened Reading
  import opened Names
  import opened Regions
  import opened Includes

  // ---- edges ----

  /** The condition under which a line is read: the text of the header over it, or none. */
  ghost predicate ConditionIs(lines: seq<Line>, line: nat, condition: string) {
    && 1 <= line <= |lines|
    && ((condition == "" && NoHeader(lines, 0, line))
        || (exists h :: 0 <= h < line && IsHeader(lines[h]) && NoHeader(lines, h + 1, line) && condition == TrimSpace(lines[h].Render())))
  }

  /** The edge says what its argument expands to and what that matches. */
  ghost predicate EdgeTrue(resolver: Resolver, lines: seq<Line>, edge: Edge) {
    && ConditionIs(lines, edge.line, edge.condition)
    && match resolver.expand(edge.pattern)
       case None => edge.expanded == "" && edge.matches == []
       case Some(expanded) =>
         && edge.expanded == expanded
         && match resolver.glob(expanded)
            case None => edge.matches == []
            case Some(found) =>
              && multiset(edge.matches) == multiset(found)
              && forall i, j :: 0 <= i < j < |edge.matches| ==> !LexLess(edge.matches[j], edge.matches[i])
  }

  /** The patterns recorded for one line, in order. */
  function PatternsAt(edges: seq<Edge>, line: nat): seq<string> {
    if edges == [] then []
    else PatternsAt(edges[..|edges| - 1], line) + if edges[|edges| - 1].line == line then [edges[|edges| - 1].pattern] else []
  }

  /** The arguments of a line that reads files. */
  function Arguments(line: Line): seq<string> {
    if line.kind == Directive && EqualFold(line.keyword, "Include") then line.Values() else []
  }

  /** From top to bottom, every argument of every Include line of the file has its edge, and there are no others. */
  ghost predicate Followed(resolver: Resolver, lines: seq<Line>, edges: seq<Edge>) {
    && (forall i :: 0 <= i < |edges| ==> EdgeTrue(resolver, lines, edges[i]))
    && (forall i, j :: 0 <= i < j < |edges| ==> edges[i].line <= edges[j].line)
    && (forall index :: 0 <= index < |lines| ==> PatternsAt(edges, index + 1) == Arguments(lines[index]))
  }

  lemma {:induction false} StringInserted(text: string, sorted: seq<string>)
    requires forall i, j :: 0 <= i < j < |sorted| ==> !LexLess(sorted[j], sorted[i])
    ensures forall i, j :: 0 <= i < j < |InsertString(text, sorted)| ==> !LexLess(InsertString(text, sorted)[j], InsertString(text, sorted)[i])
  {
    hide LexLess;
    if sorted != [] && LexLess(sorted[0], text) {
      var rest := sorted[1..];
      StringInserted(text, rest);
      var more := InsertString(text, rest);
      forall j | 0 <= j < |more| ensures !LexLess(more[j], sorted[0]) {
        assert more[j] in multiset(more);
        LexTotal(sorted[0], text);
        if more[j] != text {
          assert more[j] in rest;
          var m :| 0 <= m < |rest| && rest[m] == more[j];
          assert sorted[m + 1] == rest[m];
        }
      }
    } else if sorted != [] {
      forall j | 0 <= j < |sorted| ensures !LexLess(sorted[j], text) {
        LexTotal(sorted[0], text);
        if sorted[0] != text && LexLess(sorted[j], text) { LexTransitive(sorted[j], text, sorted[0]); }
      }
    }
  }

  lemma {:induction false} StringsSorted(texts: seq<string>)
    ensures forall i, j :: 0 <= i < j < |SortStrings(texts)| ==> !LexLess(SortStrings(texts)[j], SortStrings(texts)[i])
  {
    hide LexLess;
    if texts != [] {
      StringsSorted(texts[1..]);
      StringInserted(texts[0], SortStrings(texts[1..]));
    }
  }

  lemma GovernedBy(lines: seq<Line>, index: nat)
    requires index < |lines|
    ensures ConditionIs(lines, index + 1, Condition(lines, HeaderOver(lines, index)))
  {
    hide IsHeader;
    var h := HeaderOver(lines, index);
    assert NoHeader(lines, h + 1, index + 1);
  }

  lemma EdgeForTrue(resolver: Resolver, lines: seq<Line>, index: nat, value: string)
    requires index < |lines|
    ensures EdgeTrue(resolver, lines, EdgeFor(resolver, index + 1, Condition(lines, HeaderOver(lines, index)), value))
    ensures EdgeFor(resolver, index + 1, Condition(lines, HeaderOver(lines, index)), value).pattern == value
  {
    hide Condition, HeaderOver, ConditionIs, LexLess, SortStrings;
    GovernedBy(lines, index);
    if resolver.expand(value).Some? && resolver.glob(resolver.expand(value).value).Some? {
      StringsSorted(resolver.glob(resolver.expand(value).value).value);
    }
  }

  lemma {:induction false} PatternsJoined(front: seq<Edge>, back: seq<Edge>, line: nat)
    ensures PatternsAt(front + back, line) == PatternsAt(front, line) + PatternsAt(back, line)
  {
    if back == [] {
      assert front + back == front;
    } else {
      assert (front + back)[..|front + back| - 1] == front + back[..|back| - 1];
      PatternsJoined(front, back[..|back| - 1], line);
    }
  }

  lemma {:induction false} OtherLine(edges: seq<Edge>, line: nat)
    requires forall i :: 0 <= i < |edges| ==> edges[i].line != line
    ensures PatternsAt(edges, line) == []
  {
    if edges != [] { OtherLine(edges[..|edges| - 1], line); }
  }

  lemma {:induction false} OwnPatterns(resolver: Resolver, line: nat, condition: string, values: seq<string>)
    ensures PatternsAt(ValueEdges(resolver, line, condition, values), line) == values
  {
    if values != [] {
      var n := |values| - 1;
      var edges := ValueEdges(resolver, line, condition, values);
      OwnPatterns(resolver, line, condition, values[..n]);
      assert edges[..n] == ValueEdges(resolver, line, condition, values[..n]);
      assert edges[n].pattern == values[n];
      assert values == values[..n] + [values[n]];
    }
  }

  lemma LineFollowed(resolver: Resolver, lines: seq<Line>, index: nat)
    requires index < |lines|
    ensures var edges := LineEdges(resolver, lines, index);
            && (forall i :: 0 <= i < |edges| ==> EdgeTrue(resolver, lines, edges[i]) && edges[i].line == index + 1)
            && PatternsAt(edges, index + 1) == Arguments(lines[index])
  {
    hide EdgeTrue, EdgeFor, EqualFold, Line.Values, Condition, HeaderOver, PatternsAt, ConditionIs;
    var edges, values := LineEdges(resolver, lines, index), lines[index].Values();
    if lines[index].kind == Directive && IsInclude(lines[index]) {
      OwnPatterns(resolver, index + 1, Condition(lines, HeaderOver(lines, index)), values);
      forall i | 0 <= i < |edges| ensures EdgeTrue(resolver, lines, edges[i]) && edges[i].line == index + 1 {
        EdgeForTrue(resolver, lines, index, values[i]);
      }
    } else {
      OtherLine(edges, index + 1);
    }
  }

  lemma {:induction false} FileFollowed(resolver: Resolver, lines: seq<Line>, n: nat)
    requires n <= |lines|
    ensures var edges := FileEdges(resolver, lines, n);
            && (forall i :: 0 <= i < |edges| ==> EdgeTrue(resolver, lines, edges[i]) && 1 <= edges[i].line <= n)
            && (forall i, j :: 0 <= i < j < |edges| ==> edges[i].line <= edges[j].line)
            && (forall index :: 0 <= index < n ==> PatternsAt(edges, index + 1) == Arguments(lines[index]))
  {
    hide EdgeTrue, LineEdges, Arguments;
    if n > 0 {
      var front, back := FileEdges(resolver, lines, n - 1), LineEdges(resolver, lines, n - 1);
      FileFollowed(resolver, lines, n - 1);
      LineFollowed(resolver, lines, n - 1);
      forall index | 0 <= index < n ensures PatternsAt(front + back, index + 1) == Arguments(lines[index]) {
        PatternsJoined(front, back, index + 1);
        if index == n - 1 { OtherLine(front, n); } else { OtherLine(back, index + 1); }
      }
    }
  }

  // ---- reports ----

  /** Outside the root directory. */
  predicate Outside(resolver: Resolver, path: string) {
    path != resolver.root && !(|path| > |resolver.root| && path[..|resolver.root|] == resolver.root && path[|resolver.root|] == '/')
  }

  /** What one argument of an Include line gives cause to report: it cannot be expanded, cannot be looked
      up, matches nothing outside the generated region, or matches a file outside the root. */
  ghost predicate ArgumentTrue(resolver: Resolver, path: string, line: nat, value: string, quiet: bool, d: Diagnostic) {
    && d.path == path && d.line == line
    && match resolver.expand(value)
       case None => d.code == Unsupported && d.detail == value
       case Some(expanded) =>
         match resolver.glob(expanded)
         case None => d.code == Unreadable && d.detail == ""
         case Some(found) =>
           || (d.code == NoMatch && d.detail == expanded && found == [] && !quiet)
           || (d.code == OutsideRoot && d.detail in found && Outside(resolver, d.detail))
  }

  /** What a line gives cause to report. */
  ghost predicate LineTrue(resolver: Resolver, path: string, lines: seq<Line>, index: nat, quiet: bool, d: Diagnostic)
    requires index < |lines|
  {
    var line := lines[index];
    && d.path == path && d.line == index + 1
    && if line.kind == Unstructured then d.code == UnstructuredLine && d.detail == ""
       else
         && line.kind == Directive && EqualFold(line.keyword, "Include")
         && (|| (d.code == Conditional && d.detail != "" && ConditionIs(lines, index + 1, d.detail))
             || (d.code == NoArgument && d.detail == "" && line.Values() == [])
             || (exists k :: 0 <= k < |line.Values()| && ArgumentTrue(resolver, path, index + 1, line.Values()[k], quiet, d)))
  }

  /** Strictly between the markers of the generated region. */
  predicate Generated(resolver: Resolver, lines: seq<Line>, index: nat) {
    match resolver.generated(lines) case None => false case Some((first, last)) => first < index && index < last
  }

  ghost predicate ReportTrue(resolver: Resolver, path: string, d: Diagnostic) {
    match resolver.read(path)
    case Contents(text) =>
      var lines := Parse(text);
      exists index :: 0 <= index < |lines| && LineTrue(resolver, path, lines, index, Generated(resolver, lines, index), d)
    case _ => d == Diagnostic(Unreadable, path, 0, "")
  }

  lemma OutsideIff(resolver: Resolver, path: string)
    ensures resolver.InsideRoot(path) <==> !Outside(resolver, path)
  {
    var root := resolver.root;
    if HasPrefix(path, root + "/") {
      assert path[..|root|] == (root + "/")[..|root|] == root && path[|root|] == (root + "/")[|root|];
    }
    if !Outside(resolver, path) && path != root { assert path[..|root| + 1] == path[..|root|] + [path[|root|]]; }
  }

  lemma OutsideReported(resolver: Resolver, path: string, line: nat, found: seq<string>, d: Diagnostic)
    ensures d in OutsideReports(resolver, path, line, SortStrings(found))
            <==> d.code == OutsideRoot && d.path == path && d.line == line && d.detail in found && Outside(resolver, d.detail)
  {
    hide Outside;
    var matches := SortStrings(found);
    OutsideIff(resolver, d.detail);
    assert d.detail in found <==> d.detail in multiset(matches);
    if d.code == OutsideRoot && d.path == path && d.line == line && d.detail in matches && !resolver.InsideRoot(d.detail) {
      var k :| 0 <= k < |matches| && matches[k] == d.detail;
      assert d == Diagnostic(OutsideRoot, path, line, matches[k]);
    }
  }

  lemma ArgumentReported(resolver: Resolver, path: string, line: nat, value: string, quiet: bool, d: Diagnostic)
    ensures d in ValueReports(resolver, path, line, value, quiet) <==> ArgumentTrue(resolver, path, line, value, quiet, d)
  {
    hide Outside, OutsideReports;
    if resolver.expand(value).Some? && resolver.glob(resolver.expand(value).value).Some? {
      OutsideReported(resolver, path, line, resolver.glob(resolver.expand(value).value).value, d);
    } else {
      NoneOutside(resolver, path, line);
    }
  }

  lemma {:induction false} ValuesReported(resolver: Resolver, path: string, line: nat, values: seq<string>, quiet: bool, d: Diagnostic)
    ensures d in ValuesReports(resolver, path, line, values, quiet)
            <==> exists k :: 0 <= k < |values| && ArgumentTrue(resolver, path, line, values[k], quiet, d)
  {
    hide ArgumentTrue, ValueReports;
    if values != [] {
      var n := |values| - 1;
      ValuesReported(resolver, path, line, values[..n], quiet, d);
      ArgumentReported(resolver, path, line, values[n], quiet, d);
      if k :| 0 <= k < n && ArgumentTrue(resolver, path, line, values[..n][k], quiet, d) { assert values[k] == values[..n][k]; }
      if k :| 0 <= k < |values| && ArgumentTrue(resolver, path, line, values[k], quiet, d) { assert k < n ==> values[..n][k] == values[k]; }
    }
  }

  lemma ConditionOnce(lines: seq<Line>, index: nat, condition: string)
    requires index < |lines| && ConditionIs(lines, index + 1, condition)
    ensures condition == Condition(lines, HeaderOver(lines, index))
  {
    hide IsHeader;
    var h := HeaderOver(lines, index);
    if condition == "" && NoHeader(lines, 0, index + 1) {
      assert h == -1;
    } else {
      var g :| 0 <= g < index + 1 && IsHeader(lines[g]) && NoHeader(lines, g + 1, index + 1) && condition == TrimSpace(lines[g].Render());
      assert h == g;
    }
  }

  lemma LineReported(resolver: Resolver, path: string, lines: seq<Line>, index: nat, quiet: bool, d: Diagnostic)
    requires index < |lines|
    ensures d in LineReports(resolver, path, lines, index, quiet) <==> LineTrue(resolver, path, lines, index, quiet, d)
  {
    hide ArgumentTrue, ValuesReports, ConditionIs, Condition, HeaderOver, EqualFold, Line.Values;
    ValuesReported(resolver, path, index + 1, lines[index].Values(), quiet, d);
    GovernedBy(lines, index);
    if ConditionIs(lines, index + 1, d.detail) { ConditionOnce(lines, index, d.detail); }
    forall k | 0 <= k < |lines[index].Values()| && ArgumentTrue(resolver, path, index + 1, lines[index].Values()[k], quiet, d)
      ensures d.path == path && d.line == index + 1
    {
      ArgumentPlace(resolver, path, index + 1, lines[index].Values()[k], quiet, d);
    }
  }

  lemma ArgumentPlace(resolver: Resolver, path: string, line: nat, value: string, quiet: bool, d: Diagnostic)
    requires ArgumentTrue(resolver, path, line, value, quiet, d)
    ensures d.path == path && d.line == line
  {}

  lemma {:induction false} LinesReported(resolver: Resolver, path: string, lines: seq<Line>, n: nat, d: Diagnostic)
    requires n <= |lines|
    ensures d in LinesReports(resolver, path, lines, n)
            <==> exists index :: 0 <= index < n && LineTrue(resolver, path, lines, index, Quiet(resolver, lines, index), d)
  {
    hide LineReports, LineTrue, Quiet;
    if n > 0 {
      LinesReported(resolver, path, lines, n - 1, d);
      LineReported(resolver, path, lines, n - 1, Quiet(resolver, lines, n - 1), d);
    }
  }

  lemma FileReported(resolver: Resolver, path: string, d: Diagnostic)
    ensures d in FileReports(resolver, path) <==> ReportTrue(resolver, path, d)
    ensures d in FileReports(resolver, path) ==> d.path == path && Local(d.code)
  {
    hide LinesReports, LineTrue, Parse;
    if resolver.read(path).Contents? {
      var lines := Parse(resolver.read(path).text);
      LinesReported(resolver, path, lines, |lines|, d);
      forall index | 0 <= index < |lines|
        ensures Quiet(resolver, lines, index) == Generated(resolver, lines, index)
        ensures LineTrue(resolver, path, lines, index, Quiet(resolver, lines, index), d) ==> d.path == path && Local(d.code)
      {
        LinePlace(resolver, path, lines, index, Quiet(resolver, lines, index), d);
      }
    }
  }

  lemma LinePlace(resolver: Resolver, path: string, lines: seq<Line>, index: nat, quiet: bool, d: Diagnostic)
    requires index < |lines|
    ensures LineTrue(resolver, path, lines, index, quiet, d) ==> d.path == path && Local(d.code)
  {
    hide ConditionIs, EqualFold, Outside;
  }

  // ---- the graph ----

  /** The file is as it was read, every argument of its Include lines was followed, and every match is in
      the graph or was reported as too deep. */
  ghost predicate FileTrue(resolver: Resolver, path: string, node: Node, known: set<string>, diagnostics: seq<Diagnostic>) {
    && node.path == path && (node.editable <==> !Outside(resolver, path))
    && (forall i, m :: 0 <= i < |node.includes| && m in node.includes[i].matches ==>
          m in known || Diagnostic(DepthExceeded, path, node.includes[i].line, m) in diagnostics)
    && match resolver.read(path)
       case Contents(text) => !node.missing && node.file == Some(Parse(text)) && Followed(resolver, Parse(text), node.includes)
       case Missing => node.missing && node.file == None && node.includes == []
       case Failed => !node.missing && node.file == None && node.includes == []
  }

  lemma WalkedIsTrue(resolver: Resolver, path: string, node: Node, known: set<string>, diagnostics: seq<Diagnostic>)
    requires Walked(resolver, path, node, known, diagnostics)
    ensures FileTrue(resolver, path, node, known, diagnostics)
  {
    hide Outside, Followed, FileEdges, Parse, EdgeTrue, Arguments;
    OutsideIff(resolver, path);
    if resolver.read(path).Contents? {
      var lines := Parse(resolver.read(path).text);
      WholeFollowed(resolver, lines);
    }
  }

  lemma WholeFollowed(resolver: Resolver, lines: seq<Line>)
    ensures Followed(resolver, lines, FileEdges(resolver, lines, |lines|))
  {
    hide EdgeTrue, FileEdges, Arguments;
    FileFollowed(resolver, lines, |lines|);
  }

  /** Every file of the graph is as it should be, and what is reported of single files is what there is to report. */
  ghost predicate Resolved(resolver: Resolver, nodes: map<string, Node>, diagnostics: seq<Diagnostic>) {
    && (forall p :: p in nodes ==> FileTrue(resolver, p, nodes[p], nodes.Keys, diagnostics))
    && (forall d: Diagnostic :: d.code !in {Cycle, Duplicate, DepthExceeded} ==>
          (d in diagnostics <==> d.path in nodes && ReportTrue(resolver, d.path, d)))
  }

  lemma ProgressResolves(resolver: Resolver, nodes: map<string, Node>, diagnostics: seq<Diagnostic>)
    requires Progress(resolver, map[], [], nodes, diagnostics, {})
    ensures Resolved(resolver, nodes, diagnostics)
  {
    hide Walked, FileTrue, FileReports, ReportTrue;
    forall p | p in nodes ensures FileTrue(resolver, p, nodes[p], nodes.Keys, diagnostics) {
      WalkedIsTrue(resolver, p, nodes[p], nodes.Keys, diagnostics);
    }
    forall d: Diagnostic | d.code !in {Cycle, Duplicate, DepthExceeded}
      ensures d in diagnostics <==> d.path in nodes && ReportTrue(resolver, d.path, d)
    {
      FileReported(resolver, d.path, d);
    }
  }

  // ---- cycles ----

  /** An order of the files in which every Include names files that come before, but for those reported as
      a cycle or as too deep.  A report of a cycle names a file that leads back to where it stands. */
  ghost predicate Layered(nodes: map<string, Node>, diagnostics: seq<Diagnostic>, order: seq<string>) {
    && (forall i, j :: 0 <= i < j < |order| ==> order[i] != order[j]) && (forall p :: p in order <==> p in nodes)
    && (forall i, k, m :: 0 <= i < |order| && 0 <= k < |nodes[order[i]].includes| && m in nodes[order[i]].includes[k].matches ==>
          || m in order[..i]
          || Diagnostic(Cycle, order[i], nodes[order[i]].includes[k].line, m) in diagnostics
          || Diagnostic(DepthExceeded, order[i], nodes[order[i]].includes[k].line, m) in diagnostics)
    && (forall d :: d in diagnostics && d.code == Cycle ==>
          exists trail: seq<string> :: trail != [] && trail[0] == d.detail && trail[|trail| - 1] == d.path && Linked(nodes, trail))
  }

  lemma StateLayers(nodes: map<string, Node>, finished: seq<string>, diagnostics: seq<Diagnostic>)
    requires State(nodes, finished, diagnostics, [])
    ensures Layered(nodes, diagnostics, finished)
  {
    hide Linked;
    forall d | d in diagnostics && d.code == Cycle
      ensures exists trail: seq<string> :: trail != [] && trail[0] == d.detail && trail[|trail| - 1] == d.path && Linked(nodes, trail)
    {
      assert CycleTrue(nodes, d);
    }
    forall i, k, m | 0 <= i < |finished| && 0 <= k < |nodes[finished[i]].includes| && m in nodes[finished[i]].includes[k].matches
      ensures || m in finished[..i]
              || Diagnostic(Cycle, finished[i], nodes[finished[i]].includes[k].line, m) in diagnostics
              || Diagnostic(DepthExceeded, finished[i], nodes[finished[i]].includes[k].line, m) in diagnostics
    {
      assert MatchSettled(finished[i], nodes[finished[i]].includes[k].line, m, finished[..i], diagnostics);
    }
  }

  /** Resolution ends for every loader and leaves every file as it should be.  It accounts for every
      match: it was walked, counted as a further load, or reported as a cycle or as too deep. */
  method Resolve(resolver: Resolver, root: string) returns (graph: Graph)
    ensures fresh(graph) && Listed(graph.order, graph.nodes) && root in graph.nodes
    ensures Resolved(resolver, graph.nodes, graph.diagnostics)
    ensures Layered(graph.nodes, graph.diagnostics, graph.finished)
    ensures Total(Matches, graph.order, graph.nodes)
         == |graph.order| - 1 + CountCode(graph.diagnostics, Duplicate) + CountCode(graph.diagnostics, Cycle)
            + CountCode(graph.diagnostics, DepthExceeded)
    ensures Total(Loads, graph.order, graph.nodes) == |graph.order| + CountCode(graph.diagnostics, Duplicate)
  {
    hide Progress, Resolved, Layered;
    graph := new Graph();
    WalkFile(graph, resolver, root, [], 0);
    StateLayers(graph.nodes, graph.finished, graph.diagnostics);
    ProgressResolves(resolver, graph.nodes, graph.diagnostics);
  }
}
