/**
 The graph of Include lines.  Every file is read once, every further path to it is
 counted, and cycles and excessive depth are reported.  The resolver's methods change
 the graph step by step; two balances that every step keeps account for every match.
 */
module Includes {
  import opened Results
  import opened Text
  import opened Syntax
  import opened Blocks
  import opened Reading
  import opened Names
  import opened Regions

  datatype Code = NoMatch | Unreadable | Cycle | Duplicate | Conditional | OutsideRoot | DepthExceeded
                | Unsupported | NoArgument | UnstructuredLine

  datatype Diagnostic = Diagnostic(code: Code, path: string, line: nat, detail: string)

  /** One Include argument and the files it matched. */
  datatype Edge = Edge(line: nat, pattern: string, expanded: string, condition: string, matches: seq<string>)

  /** One file of the graph; `file` is its lines when it could be read. */
  datatype Node = Node(path: string, editable: bool, missing: bool, file: Option<seq<Line>>, includes: seq<Edge>, loads: nat)

  datatype Contents = Contents(text: string) | Missing | Failed

  /** What the resolver is given: the file system behind a loader, and how arguments expand. */
  datatype Resolver = Resolver(root: string, maxDepth: int, read: string -> Contents, expand: string -> Option<string>,
                               glob: string -> Option<seq<string>>, generated: seq<Line> -> Option<(nat, nat)>)
  {
    predicate InsideRoot(path: string) { path == root || HasPrefix(path, root + "/") }

    function Depth(): nat { if maxDepth <= 0 then DefaultMaxDepth else maxDepth }
  }

  const DefaultMaxDepth: nat := 16

  // ---- sorting matches ----

  function InsertString(text: string, sorted: seq<string>): (r: seq<string>)
    ensures multiset(r) == multiset(sorted) + multiset{text}
  {
    if sorted != [] && LexLess(sorted[0], text) then
      assert sorted == [sorted[0]] + sorted[1..];
      [sorted[0]] + InsertString(text, sorted[1..])
    else [text] + sorted
  }

  function SortStrings(texts: seq<string>): (r: seq<string>)
    ensures multiset(r) == multiset(texts)
  {
    if texts == [] then [] else
      assert texts == [texts[0]] + texts[1..];
      InsertString(texts[0], SortStrings(texts[1..]))
  }

  // ---- what is counted ----

  function CountCode(diagnostics: seq<Diagnostic>, code: Code): nat {
    if diagnostics == [] then 0
    else CountCode(diagnostics[..|diagnostics| - 1], code) + if diagnostics[|diagnostics| - 1].code == code then 1 else 0
  }

  function EdgeMatches(edges: seq<Edge>): nat {
    if edges == [] then 0 else EdgeMatches(edges[..|edges| - 1]) + |edges[|edges| - 1].matches|
  }

  datatype Measure = Matches | Loads

  function Weight(measure: Measure, node: Node): nat {
    if measure.Matches? then EdgeMatches(node.includes) else node.loads
  }

  function Total(measure: Measure, order: seq<string>, nodes: map<string, Node>): nat {
    if order == [] then 0
    else
      var last := order[|order| - 1];
      Total(measure, order[..|order| - 1], nodes) + if last in nodes then Weight(measure, nodes[last]) else 0
  }

  predicate NoRepeats(order: seq<string>) {
    forall i, j :: 0 <= i < j < |order| ==> order[i] != order[j]
  }

  ghost predicate Listed(order: seq<string>, nodes: map<string, Node>) {
    NoRepeats(order) && (forall p :: p in order <==> p in nodes)
  }

  lemma {:induction false} TotalOther(measure: Measure, order: seq<string>, nodes: map<string, Node>, path: string, node: Node)
    requires path !in order
    ensures Total(measure, order, nodes[path := node]) == Total(measure, order, nodes)
  {
    hide Weight;
    if order != [] {
      var front := order[..|order| - 1];
      assert forall p :: p in front ==> p in order;
      TotalOther(measure, front, nodes, path, node);
      assert order[|order| - 1] in order;
    }
  }

  lemma {:induction false} TotalChange(measure: Measure, order: seq<string>, nodes: map<string, Node>, path: string, node: Node)
    requires NoRepeats(order) && path in order && path in nodes
    ensures Total(measure, order, nodes[path := node]) + Weight(measure, nodes[path]) == Total(measure, order, nodes) + Weight(measure, node)
  {
    hide Weight;
    var n := |order| - 1;
    var front := order[..n];
    if order[n] == path {
      assert path !in front;
      TotalOther(measure, front, nodes, path, node);
    } else {
      assert order == front + [order[n]];
      TotalChange(measure, front, nodes, path, node);
    }
  }

  // ---- the graph ----

  /** An edge stands on an Include line of its file. */
  predicate EdgeStands(file: seq<Line>, edge: Edge) {
    1 <= edge.line <= |file| && IsInclude(file[edge.line - 1])
  }

  predicate NodeStands(node: Node) {
    && (node.file == None ==> node.includes == [])
    && (node.file.Some? ==> forall i :: 0 <= i < |node.includes| ==> EdgeStands(node.file.value, node.includes[i]))
  }

  predicate Stands(nodes: map<string, Node>) { forall p :: p in nodes ==> NodeStands(nodes[p]) }

  /** A file that was there before may have been loaded again, and is otherwise as it was. */
  predicate Grown(before: map<string, Node>, after: map<string, Node>) {
    forall p :: p in before ==> p in after && after[p] == before[p].(loads := after[p].loads)
  }

  class Graph {
    var order: seq<string>
    var nodes: map<string, Node>
    var diagnostics: seq<Diagnostic>
    /** The files whose walk has ended, in that order. */
    ghost var finished: seq<string>

    constructor ()
      ensures order == [] && nodes == map[] && diagnostics == [] && finished == []
    {
      order, nodes, diagnostics, finished := [], map[], [], [];
    }

    ghost predicate Valid()
      reads this
    {
      Listed(order, nodes) && Stands(nodes)
    }

    /** Matches recorded, less files walked and matches reported: what is still to be dealt with. */
    ghost function Pending(): int
      reads this
    {
      Total(Matches, order, nodes) - |order|
      - CountCode(diagnostics, Cycle) - CountCode(diagnostics, Duplicate) - CountCode(diagnostics, DepthExceeded)
    }

    /** Loads, less files walked and further loads reported. */
    ghost function Unexplained(): int
      reads this
    {
      Total(Loads, order, nodes) - |order| - CountCode(diagnostics, Duplicate)
    }

    /** The walk has come down this chain. */
    ghost predicate Walking(chain: seq<string>)
      reads this
    {
      State(nodes, finished, diagnostics, chain)
    }

    /** The last thing reported. */
    predicate Reported(diagnostic: Diagnostic)
      reads this
    {
      diagnostics != [] && diagnostics[|diagnostics| - 1] == diagnostic
    }

    method Diagnose(code: Code, path: string, line: nat, detail: string)
      modifies this`diagnostics
      ensures diagnostics == old(diagnostics) + [Diagnostic(code, path, line, detail)]
      ensures Pending() == old(Pending()) - if code in {Cycle, Duplicate, DepthExceeded} then 1 else 0
      ensures Unexplained() == old(Unexplained()) - if code == Duplicate then 1 else 0
    {
      diagnostics := diagnostics + [Diagnostic(code, path, line, detail)];
    }

    method AddNode(node: Node)
      requires Valid() && node.path !in nodes && NodeStands(node) && node.includes == [] && node.loads == 1
      modifies this`order, this`nodes
      ensures Valid() && nodes == old(nodes)[node.path := node] && order == old(order) + [node.path]
      ensures Pending() == old(Pending()) - 1 && Unexplained() == old(Unexplained())
    {
      hide Total, CountCode, Listed, NodeStands, Weight;
      AddedTotal(Matches, order, nodes, node);
      AddedTotal(Loads, order, nodes, node);
      FreshWeights(node);
      nodes := nodes[node.path := node];
      order := order + [node.path];
    }

    /** A change to a node that is there. */
    method SetNode(path: string, node: Node)
      requires Valid() && path in nodes && NodeStands(node)
      modifies this`nodes
      ensures Valid() && nodes == old(nodes)[path := node]
      ensures Pending() == old(Pending()) + Weight(Matches, node) - old(Weight(Matches, nodes[path]))
      ensures Unexplained() == old(Unexplained()) + Weight(Loads, node) - old(Weight(Loads, nodes[path]))
    {
      TotalChange(Matches, order, nodes, path, node);
      TotalChange(Loads, order, nodes, path, node);
      nodes := nodes[path := node];
    }
  }

  lemma AddedTotal(measure: Measure, order: seq<string>, nodes: map<string, Node>, node: Node)
    requires Listed(order, nodes) && node.path !in nodes
    ensures Listed(order + [node.path], nodes[node.path := node])
    ensures Total(measure, order + [node.path], nodes[node.path := node]) == Total(measure, order, nodes) + Weight(measure, node)
  {
    hide Weight;
    assert (order + [node.path])[..|order|] == order;
    TotalOther(measure, order, nodes, node.path, node);
  }

  lemma FreshWeights(node: Node)
    requires node.includes == [] && node.loads == 1
    ensures Weight(Matches, node) == 0 && Weight(Loads, node) == 1
  {}

  // ---- what a file's walk is to leave ----

  /** The edge of one Include argument: how it expands, and what that matches, sorted. */
  function EdgeFor(resolver: Resolver, line: nat, condition: string, value: string): (edge: Edge)
    ensures edge.line == line
  {
    match resolver.expand(value)
    case None => Edge(line, value, "", condition, [])
    case Some(expanded) => Edge(line, value, expanded, condition, match resolver.glob(expanded) case None => [] case Some(found) => SortStrings(found))
  }

  function ValueEdges(resolver: Resolver, line: nat, condition: string, values: seq<string>): (edges: seq<Edge>)
    ensures |edges| == |values| && forall i :: 0 <= i < |values| ==> edges[i] == EdgeFor(resolver, line, condition, values[i])
  {
    seq(|values|, i requires 0 <= i < |values| => EdgeFor(resolver, line, condition, values[i]))
  }

  function LineEdges(resolver: Resolver, lines: seq<Line>, index: nat): seq<Edge>
    requires index < |lines|
  {
    if lines[index].kind == Directive && IsInclude(lines[index])
    then ValueEdges(resolver, index + 1, Condition(lines, HeaderOver(lines, index)), lines[index].Values()) else []
  }

  function FileEdges(resolver: Resolver, lines: seq<Line>, n: nat): seq<Edge>
    requires n <= |lines|
  {
    if n == 0 then [] else FileEdges(resolver, lines, n - 1) + LineEdges(resolver, lines, n - 1)
  }

  /** What is reported of one match, of one argument, of one line, of a file, whatever else there is. */
  function OutsideReports(resolver: Resolver, path: string, line: nat, matches: seq<string>): set<Diagnostic> {
    set k | 0 <= k < |matches| && !resolver.InsideRoot(matches[k]) :: Diagnostic(OutsideRoot, path, line, matches[k])
  }

  function ArgumentReports(resolver: Resolver, path: string, line: nat, value: string, quiet: bool): set<Diagnostic> {
    match resolver.expand(value)
    case None => {Diagnostic(Unsupported, path, line, value)}
    case Some(expanded) =>
      match resolver.glob(expanded)
      case None => {Diagnostic(Unreadable, path, line, "")}
      case Some(found) => if found == [] && !quiet then {Diagnostic(NoMatch, path, line, expanded)} else {}
  }

  function ValueReports(resolver: Resolver, path: string, line: nat, value: string, quiet: bool): set<Diagnostic> {
    ArgumentReports(resolver, path, line, value, quiet) + OutsideReports(resolver, path, line, EdgeFor(resolver, line, "", value).matches)
  }

  function ValuesReports(resolver: Resolver, path: string, line: nat, values: seq<string>, quiet: bool): set<Diagnostic> {
    if values == [] then {}
    else ValuesReports(resolver, path, line, values[..|values| - 1], quiet) + ValueReports(resolver, path, line, values[|values| - 1], quiet)
  }

  function LineReports(resolver: Resolver, path: string, lines: seq<Line>, index: nat, quiet: bool): set<Diagnostic>
    requires index < |lines|
  {
    var line := lines[index];
    if line.kind == Unstructured then {Diagnostic(UnstructuredLine, path, index + 1, "")}
    else if line.kind != Directive || !IsInclude(line) then {}
    else
      var condition := Condition(lines, HeaderOver(lines, index));
      (if condition == "" then {} else {Diagnostic(Conditional, path, index + 1, condition)})
      + if line.Values() == [] then {Diagnostic(NoArgument, path, index + 1, "")} else ValuesReports(resolver, path, index + 1, line.Values(), quiet)
  }

  /** Inside the generated region, where an argument that matches nothing is no news. */
  predicate Quiet(resolver: Resolver, lines: seq<Line>, index: nat) {
    var region := resolver.generated(lines);
    region.Some? && region.value.0 < index < region.value.1
  }

  function LinesReports(resolver: Resolver, path: string, lines: seq<Line>, n: nat): set<Diagnostic>
    requires n <= |lines|
  {
    if n == 0 then {} else LinesReports(resolver, path, lines, n - 1) + LineReports(resolver, path, lines, n - 1, Quiet(resolver, lines, n - 1))
  }

  function FileReports(resolver: Resolver, path: string): set<Diagnostic> {
    match resolver.read(path)
    case Contents(text) => LinesReports(resolver, path, Parse(text), |Parse(text)|)
    case _ => {Diagnostic(Unreadable, path, 0, "")}
  }

  /** Codes that say something of one file by itself. */
  predicate Local(code: Code) { code !in {Cycle, Duplicate, DepthExceeded} }

  /** Every match is a file of the graph, or was reported as too deep where it was named. */
  ghost predicate Dealt(edges: seq<Edge>, path: string, known: set<string>, diagnostics: seq<Diagnostic>) {
    forall i, m :: 0 <= i < |edges| && m in edges[i].matches ==> m in known || Diagnostic(DepthExceeded, path, edges[i].line, m) in diagnostics
  }

  /** The file was read, and every argument of every Include line in it was followed. */
  ghost predicate Walked(resolver: Resolver, path: string, node: Node, known: set<string>, diagnostics: seq<Diagnostic>) {
    && node.path == path && node.editable == resolver.InsideRoot(path)
    && Dealt(node.includes, path, known, diagnostics)
    && match resolver.read(path)
       case Contents(text) => !node.missing && node.file == Some(Parse(text)) && node.includes == FileEdges(resolver, Parse(text), |Parse(text)|)
       case Missing => node.missing && node.file == None && node.includes == []
       case Failed => !node.missing && node.file == None && node.includes == []
  }

  /** From one state to another: every new file was walked, and what was reported of single files is what
      the new files give and what was reported here. */
  ghost predicate Progress(resolver: Resolver, nodes: map<string, Node>, diagnostics: seq<Diagnostic>,
                           after: map<string, Node>, reported: seq<Diagnostic>, here: set<Diagnostic>) {
    && (forall d :: d in diagnostics ==> d in reported)
    && (forall p :: p in nodes ==> p in after)
    && (forall p :: p in after && p !in nodes ==> Walked(resolver, p, after[p], after.Keys, reported))
    && (forall d :: d in reported && Local(d.code) ==>
          d in diagnostics || d in here || (d.path in after && d.path !in nodes && d in FileReports(resolver, d.path)))
    && (forall d :: d in here ==> d in reported)
    && (forall p, d :: p in after && p !in nodes && d in FileReports(resolver, p) ==> d in reported)
  }

  lemma WalkedStill(resolver: Resolver, path: string, node: Node, known: set<string>, diagnostics: seq<Diagnostic>,
                    loads: nat, more: set<string>, reported: seq<Diagnostic>)
    requires Walked(resolver, path, node, known, diagnostics) && known <= more && forall d :: d in diagnostics ==> d in reported
    ensures Walked(resolver, path, node.(loads := loads), more, reported)
  {}

  lemma ProgressOn(resolver: Resolver, n0: map<string, Node>, d0: seq<Diagnostic>, n1: map<string, Node>, d1: seq<Diagnostic>,
                   n2: map<string, Node>, d2: seq<Diagnostic>, h1: set<Diagnostic>, h2: set<Diagnostic>, path: string)
    requires Progress(resolver, n0, d0, n1, d1, h1) && Progress(resolver, n1, d1, n2, d2, h2)
    requires path in n0 && GrownBut(n1, n2, path)
    ensures Progress(resolver, n0, d0, n2, d2, h1 + h2)
  {
    hide Walked, FileReports;
    forall p | p in n2 && p !in n0 ensures Walked(resolver, p, n2[p], n2.Keys, d2) {
      if p in n1 {
        assert n1.Keys <= n2.Keys;
        WalkedStill(resolver, p, n1[p], n1.Keys, d1, n2[p].loads, n2.Keys, d2);
        assert n2[p] == n1[p].(loads := n2[p].loads);
      }
    }
  }

  lemma NoProgress(resolver: Resolver, nodes: map<string, Node>, diagnostics: seq<Diagnostic>)
    ensures Progress(resolver, nodes, diagnostics, nodes, diagnostics, {})
  {}

  lemma ReportProgress(resolver: Resolver, nodes: map<string, Node>, diagnostics: seq<Diagnostic>, d: Diagnostic)
    ensures Progress(resolver, nodes, diagnostics, nodes, diagnostics + [d], if Local(d.code) then {d} else {})
  {
    hide Walked, FileReports;
  }
  lemma KeysKept(resolver: Resolver, nodes: map<string, Node>, diagnostics: seq<Diagnostic>, after: map<string, Node>,
                 reported: seq<Diagnostic>, here: set<Diagnostic>)
    requires after.Keys == nodes.Keys
    requires (reported == diagnostics && here == {})
             || exists d :: reported == diagnostics + [d] && here == if Local(d.code) then {d} else {}
    ensures Progress(resolver, nodes, diagnostics, after, reported, here)
  {
    hide Walked, FileReports;
  }

  lemma DealtStill(edges: seq<Edge>, path: string, known: set<string>, diagnostics: seq<Diagnostic>, more: set<string>, reported: seq<Diagnostic>)
    requires Dealt(edges, path, known, diagnostics) && known <= more && forall d :: d in diagnostics ==> d in reported
    ensures Dealt(edges, path, more, reported)
  {}

  lemma DealtJoined(front: seq<Edge>, back: seq<Edge>, path: string, known: set<string>, diagnostics: seq<Diagnostic>)
    requires Dealt(front, path, known, diagnostics) && Dealt(back, path, known, diagnostics)
    ensures Dealt(front + back, path, known, diagnostics)
  {}

  // ---- cycles ----

  ghost predicate Links(nodes: map<string, Node>, a: string, b: string) {
    a in nodes && exists i :: 0 <= i < |nodes[a].includes| && b in nodes[a].includes[i].matches
  }

  /** Each file includes the next. */
  ghost predicate Linked(nodes: map<string, Node>, trail: seq<string>) {
    forall j :: 0 < j < |trail| ==> Links(nodes, trail[j - 1], trail[j])
  }

  /** What a cycle report names leads back, Include by Include, to the file it is reported in. */
  ghost predicate CycleTrue(nodes: map<string, Node>, d: Diagnostic) {
    exists trail: seq<string> :: trail != [] && trail[0] == d.detail && trail[|trail| - 1] == d.path && Linked(nodes, trail)
  }

  /** Every match is among these, or was reported as a cycle or as too deep. */
  ghost predicate Settled(edges: seq<Edge>, path: string, finished: seq<string>, diagnostics: seq<Diagnostic>) {
    forall i, m :: 0 <= i < |edges| && m in edges[i].matches ==> MatchSettled(path, edges[i].line, m, finished, diagnostics)
  }

  predicate MatchSettled(path: string, line: nat, m: string, finished: seq<string>, diagnostics: seq<Diagnostic>) {
    m in finished || Diagnostic(Cycle, path, line, m) in diagnostics || Diagnostic(DepthExceeded, path, line, m) in diagnostics
  }

  /** Where the walk stands: the chain is a trail of files being read, every other file is finished, and a
      finished one includes only files that finished before it, cycles and what is too deep aside. */
  ghost predicate State(nodes: map<string, Node>, finished: seq<string>, diagnostics: seq<Diagnostic>, chain: seq<string>) {
    && NoRepeats(finished)
    && (forall i :: 0 <= i < |finished| ==> finished[i] in nodes && Settled(nodes[finished[i]].includes, finished[i], finished[..i], diagnostics))
    && (forall c :: c in chain ==> c in nodes && c !in finished)
    && (forall p :: p in nodes ==> p in finished || p in chain)
    && Linked(nodes, chain)
    && (forall d :: d in diagnostics && d.code == Cycle ==> CycleTrue(nodes, d))
  }

  lemma SettledStill(edges: seq<Edge>, path: string, finished: seq<string>, diagnostics: seq<Diagnostic>, more: seq<string>, reported: seq<Diagnostic>)
    requires Settled(edges, path, finished, diagnostics) && finished <= more && forall d :: d in diagnostics ==> d in reported
    ensures Settled(edges, path, more, reported)
  {}

  lemma SettledJoined(front: seq<Edge>, back: seq<Edge>, path: string, finished: seq<string>, diagnostics: seq<Diagnostic>)
    requires Settled(front, path, finished, diagnostics) && Settled(back, path, finished, diagnostics)
    ensures Settled(front + back, path, finished, diagnostics)
  {
    hide MatchSettled;
  }

  lemma LinksGrow(before: map<string, Node>, after: map<string, Node>, path: string, a: string, b: string)
    requires GrownBut(before, after, path) && Links(before, a, b)
    ensures Links(after, a, b)
  {
    var i :| 0 <= i < |before[a].includes| && b in before[a].includes[i].matches;
    assert after[a].includes[i] == before[a].includes[i];
  }

  lemma CycleStays(before: map<string, Node>, after: map<string, Node>, path: string, d: Diagnostic)
    requires GrownBut(before, after, path) && CycleTrue(before, d)
    ensures CycleTrue(after, d)
  {
    hide GrownBut, Links;
    var trail: seq<string> :| trail != [] && trail[0] == d.detail && trail[|trail| - 1] == d.path && Linked(before, trail);
    forall j | 0 < j < |trail| ensures Links(after, trail[j - 1], trail[j]) { LinksGrow(before, after, path, trail[j - 1], trail[j]); }
  }

  /** More edges for a file being read, more loads, more reports. */
  lemma StateGrown(before: map<string, Node>, finished: seq<string>, diagnostics: seq<Diagnostic>, after: map<string, Node>,
                   reported: seq<Diagnostic>, chain: seq<string>, path: string)
    requires State(before, finished, diagnostics, chain) && path in chain
    requires GrownBut(before, after, path) && after.Keys == before.Keys
    requires forall d :: d in diagnostics ==> d in reported
    requires forall d :: d in reported && d.code == Cycle ==> d in diagnostics || CycleTrue(after, d)
    ensures State(after, finished, reported, chain)
  {
    hide Settled, Links, CycleTrue;
    forall i | 0 <= i < |finished| ensures finished[i] in after && Settled(after[finished[i]].includes, finished[i], finished[..i], reported) {
      SettledStill(before[finished[i]].includes, finished[i], finished[..i], diagnostics, finished[..i], reported);
    }
    forall j | 0 < j < |chain| ensures Links(after, chain[j - 1], chain[j]) { LinksGrow(before, after, path, chain[j - 1], chain[j]); }
    forall d | d in diagnostics && d.code == Cycle ensures CycleTrue(after, d) { CycleStays(before, after, path, d); }
  }

  lemma ChainCycle(nodes: map<string, Node>, chain: seq<string>, line: nat, target: string)
    requires chain != [] && Linked(nodes, chain) && target in chain
    ensures CycleTrue(nodes, Diagnostic(Cycle, chain[|chain| - 1], line, target))
  {
    hide Links;
    var k :| 0 <= k < |chain| && chain[k] == target;
    var trail := chain[k..];
    forall j | 0 < j < |trail| ensures Links(nodes, trail[j - 1], trail[j]) { assert trail[j] == chain[k + j] && trail[j - 1] == chain[k + j - 1]; }
    assert trail[0] == target && trail[|trail| - 1] == chain[|chain| - 1];
  }

  /** A file that is read next. */
  lemma StateEntered(nodes: map<string, Node>, finished: seq<string>, diagnostics: seq<Diagnostic>, chain: seq<string>, path: string, node: Node)
    requires State(nodes, finished, diagnostics, chain) && path !in nodes && (chain != [] ==> Links(nodes, chain[|chain| - 1], path))
    ensures State(nodes[path := node], finished, diagnostics, chain + [path])
  {
    hide Settled, Links, CycleTrue;
    var after, longer := nodes[path := node], chain + [path];
    EnteredGrown(nodes, path, node);
    forall j | 0 < j < |longer| ensures Links(after, longer[j - 1], longer[j]) { LinksGrow(nodes, after, path, longer[j - 1], longer[j]); }
    forall d | d in diagnostics && d.code == Cycle ensures CycleTrue(after, d) { CycleStays(nodes, after, path, d); }
  }

  lemma EnteredGrown(nodes: map<string, Node>, path: string, node: Node)
    requires path !in nodes
    ensures GrownBut(nodes, nodes[path := node], path)
  {}

  /** A file whose walk ends. */
  lemma StateLeft(nodes: map<string, Node>, finished: seq<string>, diagnostics: seq<Diagnostic>, chain: seq<string>, path: string)
    requires State(nodes, finished, diagnostics, chain + [path]) && path !in chain
    requires Settled(nodes[path].includes, path, finished, diagnostics)
    ensures State(nodes, finished + [path], diagnostics, chain)
  {
    hide Settled, Links, CycleTrue;
    var more, longer := finished + [path], chain + [path];
    assert path in longer;
    forall i | 0 <= i < |more| ensures more[i] in nodes && Settled(nodes[more[i]].includes, more[i], more[..i], diagnostics) {
      assert more[..i] == if i < |finished| then finished[..i] else finished;
    }
    forall j | 0 < j < |chain| ensures Links(nodes, chain[j - 1], chain[j]) { assert longer[j] == chain[j] && longer[j - 1] == chain[j - 1]; }
    assert forall c :: c in chain ==> c in longer;
  }

  // ---- the walk ----

  /** One match is walked, or counted again, or reported: exactly one of them. */
  method VisitMatch(graph: Graph, resolver: Resolver, path: string, line: nat, target: string, chain: seq<string>, depth: nat)
    requires graph.Valid() && depth <= resolver.Depth() && path in graph.nodes && forall c :: c in chain ==> c in graph.nodes
    requires graph.Walking(chain) && chain != [] && chain[|chain| - 1] == path && Links(graph.nodes, path, target)
    modifies graph
    ensures graph.Valid() && Grown(old(graph.nodes), graph.nodes) && graph.Walking(chain) && old(graph.finished) <= graph.finished
    ensures MatchSettled(path, line, target, graph.finished, graph.diagnostics)
    ensures graph.Pending() == old(graph.Pending()) - 1 && graph.Unexplained() == old(graph.Unexplained())
    ensures target in chain ==> graph.nodes == old(graph.nodes) && graph.Reported(Diagnostic(Cycle, path, line, target))
    ensures target !in chain && target in old(graph.nodes) ==>
              && graph.nodes == old(graph.nodes)[target := old(graph.nodes[target].(loads := graph.nodes[target].loads + 1))]
              && graph.Reported(Diagnostic(Duplicate, path, line, target))
    ensures target !in chain && target !in old(graph.nodes) && depth + 1 > resolver.Depth() ==>
              graph.nodes == old(graph.nodes) && graph.Reported(Diagnostic(DepthExceeded, path, line, target))
    ensures target !in chain && depth + 1 <= resolver.Depth() ==> target in graph.nodes
    ensures target in graph.nodes || Diagnostic(DepthExceeded, path, line, target) in graph.diagnostics
    ensures Progress(resolver, old(graph.nodes), old(graph.diagnostics), graph.nodes, graph.diagnostics, OutsideReports(resolver, path, line, [target]))
    decreases resolver.Depth() - depth, 1, 0, 0
  {
    hide Total, CountCode, NodeStands, Progress, FileReports, State, Links, MatchSettled;
    NoProgress(resolver, graph.nodes, graph.diagnostics);
    if !resolver.InsideRoot(target) {
      ReportProgress(resolver, graph.nodes, graph.diagnostics, Diagnostic(OutsideRoot, path, line, target));
      StateReported(graph.nodes, graph.finished, graph.diagnostics, Diagnostic(OutsideRoot, path, line, target), chain);
      graph.Diagnose(OutsideRoot, path, line, target);
    }
    ghost var now, told := graph.nodes, graph.diagnostics;
    FollowMatch(graph, resolver, path, line, target, chain, depth);
    ghost var outside := OutsideReports(resolver, path, line, [target]);
    assert outside == if resolver.InsideRoot(target) then {} else {Diagnostic(OutsideRoot, path, line, target)} by {
      assert [target][0] == target;
    }
    GrownIsGrownBut(now, graph.nodes, path);
    ProgressOn(resolver, old(graph.nodes), old(graph.diagnostics), now, told, graph.nodes, graph.diagnostics, outside, {}, path);
    assert outside + {} == outside;
  }

  lemma GrownIsGrownBut(before: map<string, Node>, after: map<string, Node>, path: string)
    requires Grown(before, after)
    ensures GrownBut(before, after, path)
  {}

  method FollowMatch(graph: Graph, resolver: Resolver, path: string, line: nat, target: string, chain: seq<string>, depth: nat)
    requires graph.Valid() && depth <= resolver.Depth() && path in graph.nodes && forall c :: c in chain ==> c in graph.nodes
    requires graph.Walking(chain) && chain != [] && chain[|chain| - 1] == path && Links(graph.nodes, path, target)
    modifies graph
    ensures graph.Valid() && Grown(old(graph.nodes), graph.nodes) && graph.Walking(chain) && old(graph.finished) <= graph.finished
    ensures MatchSettled(path, line, target, graph.finished, graph.diagnostics)
    ensures graph.Pending() == old(graph.Pending()) - 1 && graph.Unexplained() == old(graph.Unexplained())
    ensures target in chain ==> graph.nodes == old(graph.nodes) && graph.Reported(Diagnostic(Cycle, path, line, target))
    ensures target !in chain && target in old(graph.nodes) ==>
              && graph.nodes == old(graph.nodes)[target := old(graph.nodes[target].(loads := graph.nodes[target].loads + 1))]
              && graph.Reported(Diagnostic(Duplicate, path, line, target))
    ensures target !in chain && target !in old(graph.nodes) && depth + 1 > resolver.Depth() ==>
              graph.nodes == old(graph.nodes) && graph.Reported(Diagnostic(DepthExceeded, path, line, target))
    ensures target in graph.nodes || Diagnostic(DepthExceeded, path, line, target) in graph.diagnostics
    ensures target !in chain && depth + 1 <= resolver.Depth() ==> target in graph.nodes
    ensures Progress(resolver, old(graph.nodes), old(graph.diagnostics), graph.nodes, graph.diagnostics, {})
    decreases resolver.Depth() - depth, 0, 0, 0
  {
    hide Total, CountCode, NodeStands, Progress, FileReports, State, Links;
    if target in chain {
      ReportProgress(resolver, graph.nodes, graph.diagnostics, Diagnostic(Cycle, path, line, target));
      StateCycle(graph.nodes, graph.finished, graph.diagnostics, line, target, chain);
      graph.Diagnose(Cycle, path, line, target);
    } else if target in graph.nodes {
      WasFinished(graph.nodes, graph.finished, graph.diagnostics, chain, target);
      LoadAgain(graph, path, line, target, chain);
      KeysKept(resolver, old(graph.nodes), old(graph.diagnostics), graph.nodes, graph.diagnostics, {});
    } else if depth + 1 > resolver.Depth() {
      ReportProgress(resolver, graph.nodes, graph.diagnostics, Diagnostic(DepthExceeded, path, line, target));
      StateReported(graph.nodes, graph.finished, graph.diagnostics, Diagnostic(DepthExceeded, path, line, target), chain);
      graph.Diagnose(DepthExceeded, path, line, target);
    } else {
      WalkFile(graph, resolver, target, chain, depth + 1);
    }
  }

  /** A further load of a file that was read. */
  method LoadAgain(graph: Graph, path: string, line: nat, target: string, ghost chain: seq<string>)
    requires graph.Valid() && path in chain && target in graph.nodes && graph.Walking(chain)
    modifies graph`nodes, graph`diagnostics
    ensures graph.Valid() && Grown(old(graph.nodes), graph.nodes) && graph.Walking(chain)
    ensures graph.Pending() == old(graph.Pending()) - 1 && graph.Unexplained() == old(graph.Unexplained())
    ensures graph.nodes == old(graph.nodes)[target := old(graph.nodes[target].(loads := graph.nodes[target].loads + 1))]
    ensures graph.diagnostics == old(graph.diagnostics) + [Diagnostic(Duplicate, path, line, target)]
  {
    hide Total, CountCode, NodeStands, State, Listed;
    LoadedAgain(graph.nodes[target]);
    assert NodeStands(graph.nodes[target]);
    CyclesKnown(graph.nodes, graph.finished, graph.diagnostics, chain);
    graph.SetNode(target, graph.nodes[target].(loads := graph.nodes[target].loads + 1));
    graph.Diagnose(Duplicate, path, line, target);
    GrownIsGrownBut(old(graph.nodes), graph.nodes, path);
    StateGrown(old(graph.nodes), graph.finished, old(graph.diagnostics), graph.nodes, graph.diagnostics, chain, path);
  }

  lemma StateReported(nodes: map<string, Node>, finished: seq<string>, diagnostics: seq<Diagnostic>, d: Diagnostic, chain: seq<string>)
    requires State(nodes, finished, diagnostics, chain) && chain != []
    ensures d.code != Cycle || CycleTrue(nodes, d) ==> State(nodes, finished, diagnostics + [d], chain)
  {
    hide State, CycleTrue;
    if d.code != Cycle || CycleTrue(nodes, d) {
      assert forall p :: p in nodes ==> nodes[p] == nodes[p].(loads := nodes[p].loads);
      CyclesKnown(nodes, finished, diagnostics, chain);
      StateGrown(nodes, finished, diagnostics, nodes, diagnostics + [d], chain, chain[0]);
    }
  }

  lemma CyclesKnown(nodes: map<string, Node>, finished: seq<string>, diagnostics: seq<Diagnostic>, chain: seq<string>)
    requires State(nodes, finished, diagnostics, chain)
    ensures forall d :: d in diagnostics && d.code == Cycle ==> CycleTrue(nodes, d)
    ensures Linked(nodes, chain)
  {}

  lemma StateCycle(nodes: map<string, Node>, finished: seq<string>, diagnostics: seq<Diagnostic>, line: nat, target: string, chain: seq<string>)
    requires State(nodes, finished, diagnostics, chain) && chain != [] && target in chain
    ensures State(nodes, finished, diagnostics + [Diagnostic(Cycle, chain[|chain| - 1], line, target)], chain)
  {
    hide State, CycleTrue, Linked;
    CyclesKnown(nodes, finished, diagnostics, chain);
    ChainCycle(nodes, chain, line, target);
    StateReported(nodes, finished, diagnostics, Diagnostic(Cycle, chain[|chain| - 1], line, target), chain);
  }

  lemma WasFinished(nodes: map<string, Node>, finished: seq<string>, diagnostics: seq<Diagnostic>, chain: seq<string>, target: string)
    requires State(nodes, finished, diagnostics, chain) && target in nodes && target !in chain
    ensures target in finished
  {}

  lemma LoadedAgain(node: Node)
    ensures Weight(Loads, node.(loads := node.loads + 1)) == Weight(Loads, node) + 1
    ensures Weight(Matches, node.(loads := node.loads + 1)) == Weight(Matches, node)
    ensures NodeStands(node) ==> NodeStands(node.(loads := node.loads + 1))
  {}

  /** Nodes stay, and only the one being read gets edges. */
  predicate GrownBut(before: map<string, Node>, after: map<string, Node>, path: string) {
    forall p :: p in before ==> p in after && if p == path then after[p].file == before[p].file && before[p].includes <= after[p].includes else after[p] == before[p].(loads := after[p].loads)
  }

  lemma GrownButOn(before: map<string, Node>, now: map<string, Node>, after: map<string, Node>, path: string)
    requires GrownBut(before, now, path) && GrownBut(now, after, path)
    ensures GrownBut(before, after, path)
  {}

  lemma EdgeAdded(node: Node, edge: Edge)
    requires NodeStands(node) && node.file.Some? && EdgeStands(node.file.value, edge)
    ensures var next := node.(includes := node.includes + [edge]);
            && NodeStands(next) && Weight(Matches, next) == Weight(Matches, node) + |edge.matches| && Weight(Loads, next) == Weight(Loads, node)
  {}

  method AddEdge(graph: Graph, path: string, edge: Edge)
    requires graph.Valid() && path in graph.nodes && graph.nodes[path].file.Some? && EdgeStands(graph.nodes[path].file.value, edge)
    modifies graph`nodes
    ensures graph.Valid() && graph.nodes == old(graph.nodes)[path := old(graph.nodes[path]).(includes := old(graph.nodes[path]).includes + [edge])]
    ensures graph.Pending() == old(graph.Pending()) + |edge.matches| && graph.Unexplained() == old(graph.Unexplained())
    ensures graph.diagnostics == old(graph.diagnostics)
  {
    hide Total, CountCode, NodeStands, Weight;
    var node := graph.nodes[path];
    assert NodeStands(node);
    EdgeAdded(node, edge);
    graph.SetNode(path, node.(includes := node.includes + [edge]));
  }

  /** Expands and globs one argument. */
  method ExpandArgument(graph: Graph, resolver: Resolver, path: string, line: nat, condition: string, value: string, quiet: bool) returns (edge: Edge)
    modifies graph`diagnostics
    ensures edge == EdgeFor(resolver, line, condition, value)
    ensures graph.Pending() == old(graph.Pending()) && graph.Unexplained() == old(graph.Unexplained())
    ensures var here := ArgumentReports(resolver, path, line, value, quiet);
            || (graph.diagnostics == old(graph.diagnostics) && here == {})
            || exists d :: graph.diagnostics == old(graph.diagnostics) + [d] && here == (if Local(d.code) then {d} else {}) && d.code != Cycle
  {
    hide Total, CountCode, SortStrings;
    edge := Edge(line, value, "", condition, []);
    var expanded := resolver.expand(value);
    if expanded == None {
      graph.Diagnose(Unsupported, path, line, value);
      return;
    }
    edge := edge.(expanded := expanded.value);
    var found := resolver.glob(expanded.value);
    if found == None {
      graph.Diagnose(Unreadable, path, line, "");
      return;
    }
    var matches := SortStrings(found.value);
    NoneSorted(found.value);
    if |matches| == 0 && !quiet { graph.Diagnose(NoMatch, path, line, expanded.value); }
    edge := edge.(matches := matches);
  }

  /** And records its edge. */
  method ReadArgument(graph: Graph, resolver: Resolver, path: string, line: nat, condition: string, value: string, quiet: bool, ghost chain: seq<string>)
      returns (edge: Edge)
    requires graph.Valid() && path in graph.nodes && graph.nodes[path].file.Some?
    requires EdgeStands(graph.nodes[path].file.value, Edge(line, value, "", condition, [])) && graph.Walking(chain) && path in chain
    modifies graph`nodes, graph`diagnostics
    ensures graph.Valid() && edge == EdgeFor(resolver, line, condition, value) && graph.Walking(chain)
    ensures graph.nodes == old(graph.nodes)[path := old(graph.nodes[path]).(includes := old(graph.nodes[path]).includes + [edge])]
    ensures graph.Pending() == old(graph.Pending()) + |edge.matches| && graph.Unexplained() == old(graph.Unexplained())
    ensures Progress(resolver, old(graph.nodes), old(graph.diagnostics), graph.nodes, graph.diagnostics, ArgumentReports(resolver, path, line, value, quiet))
  {
    hide Total, CountCode, NodeStands, Weight, Stands, IsInclude, Progress, FileReports, EdgeFor, ArgumentReports, Listed, State;
    edge := ExpandArgument(graph, resolver, path, line, condition, value, quiet);
    AddEdge(graph, path, edge);
    StateGrown(old(graph.nodes), graph.finished, old(graph.diagnostics), graph.nodes, graph.diagnostics, chain, path);
    KeysKept(resolver, old(graph.nodes), old(graph.diagnostics), graph.nodes, graph.diagnostics, ArgumentReports(resolver, path, line, value, quiet));
  }

  lemma NoneSorted(texts: seq<string>)
    ensures SortStrings(texts) == [] <==> texts == []
  {
    if texts != [] { assert texts[0] in multiset(SortStrings(texts)); }
  }

  method VisitValue(graph: Graph, resolver: Resolver, path: string, line: nat, condition: string, value: string, quiet: bool,
                    chain: seq<string>, depth: nat)
    requires graph.Valid() && depth <= resolver.Depth() && path in graph.nodes && graph.nodes[path].file.Some?
    requires EdgeStands(graph.nodes[path].file.value, Edge(line, value, "", condition, [])) && forall c :: c in chain ==> c in graph.nodes
    requires graph.Walking(chain) && chain != [] && chain[|chain| - 1] == path
    modifies graph
    ensures graph.Valid() && GrownBut(old(graph.nodes), graph.nodes, path) && graph.Walking(chain) && old(graph.finished) <= graph.finished
    ensures Settled([EdgeFor(resolver, line, condition, value)], path, graph.finished, graph.diagnostics)
    ensures graph.Pending() == old(graph.Pending()) && graph.Unexplained() == old(graph.Unexplained())
    ensures graph.nodes[path].includes == old(graph.nodes[path]).includes + [EdgeFor(resolver, line, condition, value)]
    ensures graph.nodes[path].editable == old(graph.nodes[path]).editable && graph.nodes[path].missing == old(graph.nodes[path]).missing
            && graph.nodes[path].path == old(graph.nodes[path]).path
    ensures Dealt([EdgeFor(resolver, line, condition, value)], path, graph.nodes.Keys, graph.diagnostics)
    ensures Progress(resolver, old(graph.nodes), old(graph.diagnostics), graph.nodes, graph.diagnostics, ValueReports(resolver, path, line, value, quiet))
    decreases resolver.Depth() - depth, 3, 0, 0
  {
    hide Total, CountCode, NodeStands, Weight, Stands, IsInclude, Progress, FileReports, EdgeFor, ArgumentReports, OutsideReports, Listed, State, Settled, Dealt;
    var edge := ReadArgument(graph, resolver, path, line, condition, value, quiet, chain);
    ghost var now, said, argument := graph.nodes, graph.diagnostics, ArgumentReports(resolver, path, line, value, quiet);
    VisitMatches(graph, resolver, path, edge, chain, depth);
    GrownIsGrownBut(now, graph.nodes, path);
    ProgressOn(resolver, old(graph.nodes), old(graph.diagnostics), now, said, graph.nodes, graph.diagnostics, argument,
               OutsideReports(resolver, path, line, edge.matches), path);
    SameMatches(resolver, line, condition, value);
  }

  method VisitMatches(graph: Graph, resolver: Resolver, path: string, edge: Edge, chain: seq<string>, depth: nat)
    requires graph.Valid() && depth <= resolver.Depth() && path in graph.nodes && edge in graph.nodes[path].includes
    requires graph.Walking(chain) && chain != [] && chain[|chain| - 1] == path && forall c :: c in chain ==> c in graph.nodes
    modifies graph
    ensures graph.Valid() && Grown(old(graph.nodes), graph.nodes) && graph.Walking(chain) && old(graph.finished) <= graph.finished
    ensures graph.Pending() == old(graph.Pending()) - |edge.matches| && graph.Unexplained() == old(graph.Unexplained())
    ensures Dealt([edge], path, graph.nodes.Keys, graph.diagnostics) && Settled([edge], path, graph.finished, graph.diagnostics)
    ensures Progress(resolver, old(graph.nodes), old(graph.diagnostics), graph.nodes, graph.diagnostics,
                     OutsideReports(resolver, path, edge.line, edge.matches))
    decreases resolver.Depth() - depth, 2, 0, 0
  {
    hide Total, CountCode, NodeStands, Weight, Stands, Progress, FileReports, OutsideReports, Listed, State, Links;
    ghost var before, told := graph.nodes, graph.diagnostics;
    NoProgress(resolver, before, told);
    NoneOutside(resolver, path, edge.line);
    for k := 0 to |edge.matches|
      invariant graph.Valid() && Grown(before, graph.nodes) && graph.Walking(chain) && old(graph.finished) <= graph.finished
      invariant graph.Pending() == old(graph.Pending()) - k && graph.Unexplained() == old(graph.Unexplained())
      invariant forall i :: 0 <= i < k ==> edge.matches[i] in graph.nodes || Diagnostic(DepthExceeded, path, edge.line, edge.matches[i]) in graph.diagnostics
      invariant forall i :: 0 <= i < k ==> MatchSettled(path, edge.line, edge.matches[i], graph.finished, graph.diagnostics)
      invariant Progress(resolver, before, told, graph.nodes, graph.diagnostics, OutsideReports(resolver, path, edge.line, edge.matches[..k]))
    {
      ghost var now, said := graph.nodes, graph.diagnostics;
      ghost var outside := OutsideReports(resolver, path, edge.line, edge.matches[..k]);
      EdgeLinks(graph.nodes, path, edge, edge.matches[k]);
      VisitMatch(graph, resolver, path, edge.line, edge.matches[k], chain, depth);
      GrownIsGrownBut(now, graph.nodes, path);
      ProgressOn(resolver, before, told, now, said, graph.nodes, graph.diagnostics, outside,
                 OutsideReports(resolver, path, edge.line, [edge.matches[k]]), path);
      OneMoreOutside(resolver, path, edge.line, edge.matches, k);
      ProgressKeeps(resolver, now, said, graph.nodes, graph.diagnostics, OutsideReports(resolver, path, edge.line, [edge.matches[k]]));
    }
    assert edge.matches[..|edge.matches|] == edge.matches;
    EdgeIsDealt(edge, path, graph.nodes.Keys, graph.diagnostics);
    EdgeIsSettled(edge, path, graph.finished, graph.diagnostics);
  }

  lemma NoneOutside(resolver: Resolver, path: string, line: nat)
    ensures OutsideReports(resolver, path, line, []) == {}
  {}

  lemma OneMoreOutside(resolver: Resolver, path: string, line: nat, matches: seq<string>, k: nat)
    requires k < |matches|
    ensures OutsideReports(resolver, path, line, matches[..k]) + OutsideReports(resolver, path, line, [matches[k]])
         == OutsideReports(resolver, path, line, matches[..k + 1])
  {
    var all, front, one := OutsideReports(resolver, path, line, matches[..k + 1]), OutsideReports(resolver, path, line, matches[..k]),
                           OutsideReports(resolver, path, line, [matches[k]]);
    assert [matches[k]][0] == matches[..k + 1][k];
    forall d ensures d in all <==> d in front || d in one {
      if d in all {
        var j :| 0 <= j < k + 1 && !resolver.InsideRoot(matches[..k + 1][j]) && d == Diagnostic(OutsideRoot, path, line, matches[..k + 1][j]);
        assert j < k ==> matches[..k][j] == matches[..k + 1][j];
      }
      if d in front {
        var j :| 0 <= j < k && !resolver.InsideRoot(matches[..k][j]) && d == Diagnostic(OutsideRoot, path, line, matches[..k][j]);
        assert matches[..k + 1][j] == matches[..k][j];
      }
    }
  }

  lemma ProgressKeeps(resolver: Resolver, nodes: map<string, Node>, diagnostics: seq<Diagnostic>, after: map<string, Node>,
                      reported: seq<Diagnostic>, here: set<Diagnostic>)
    requires Progress(resolver, nodes, diagnostics, after, reported, here)
    ensures nodes.Keys <= after.Keys && forall d :: d in diagnostics ==> d in reported
  {}

  lemma EdgeLinks(nodes: map<string, Node>, path: string, edge: Edge, target: string)
    requires path in nodes && edge in nodes[path].includes && target in edge.matches
    ensures Links(nodes, path, target)
  {}

  lemma EdgeIsSettled(edge: Edge, path: string, finished: seq<string>, diagnostics: seq<Diagnostic>)
    requires forall i :: 0 <= i < |edge.matches| ==> MatchSettled(path, edge.line, edge.matches[i], finished, diagnostics)
    ensures Settled([edge], path, finished, diagnostics)
  {
    hide MatchSettled;
  }

  lemma EdgeIsDealt(edge: Edge, path: string, known: set<string>, diagnostics: seq<Diagnostic>)
    requires forall i :: 0 <= i < |edge.matches| ==> edge.matches[i] in known || Diagnostic(DepthExceeded, path, edge.line, edge.matches[i]) in diagnostics
    ensures Dealt([edge], path, known, diagnostics)
  {}

  lemma SameMatches(resolver: Resolver, line: nat, condition: string, value: string)
    ensures EdgeFor(resolver, line, condition, value).matches == EdgeFor(resolver, line, "", value).matches
    ensures EdgeFor(resolver, line, condition, value).line == line
  {}

  /** What stays of the node whose lines are being read. */
  ghost predicate SameNode(before: Node, after: Node) {
    after.path == before.path && after.editable == before.editable && after.missing == before.missing && after.file == before.file
  }

  method VisitLine(graph: Graph, resolver: Resolver, path: string, index: nat, quiet: bool, chain: seq<string>, depth: nat)
    requires graph.Valid() && depth <= resolver.Depth() && path in graph.nodes && graph.nodes[path].file.Some?
    requires index < |graph.nodes[path].file.value| && forall c :: c in chain ==> c in graph.nodes
    requires graph.Walking(chain) && chain != [] && chain[|chain| - 1] == path
    modifies graph
    ensures graph.Valid() && GrownBut(old(graph.nodes), graph.nodes, path) && SameNode(old(graph.nodes[path]), graph.nodes[path])
    ensures graph.Walking(chain) && old(graph.finished) <= graph.finished
    ensures Settled(LineEdges(resolver, old(graph.nodes[path]).file.value, index), path, graph.finished, graph.diagnostics)
    ensures graph.Pending() == old(graph.Pending()) && graph.Unexplained() == old(graph.Unexplained())
    ensures var edges := LineEdges(resolver, old(graph.nodes[path]).file.value, index);
            graph.nodes[path].includes == old(graph.nodes[path]).includes + edges && Dealt(edges, path, graph.nodes.Keys, graph.diagnostics)
    ensures Progress(resolver, old(graph.nodes), old(graph.diagnostics), graph.nodes, graph.diagnostics,
                     LineReports(resolver, path, old(graph.nodes[path]).file.value, index, quiet))
    decreases resolver.Depth() - depth, 5, 0, 0
  {
    hide Total, CountCode, NodeStands, Weight, Stands, IsInclude, HeaderOver, NextHeader, Condition, Progress, FileReports, ValuesReports, Listed, State;
    var lines := graph.nodes[path].file.value;
    var line := lines[index];
    NoProgress(resolver, graph.nodes, graph.diagnostics);
    if line.kind == Unstructured {
      ReportProgress(resolver, graph.nodes, graph.diagnostics, Diagnostic(UnstructuredLine, path, index + 1, ""));
      StateReported(graph.nodes, graph.finished, graph.diagnostics, Diagnostic(UnstructuredLine, path, index + 1, ""), chain);
      graph.Diagnose(UnstructuredLine, path, index + 1, "");
      return;
    }
    if line.kind != Directive || !IsInclude(line) { return; }
    var block := BlockAt(lines, index);
    var condition := Condition(lines, block.header);
    ghost var conditional := Diagnostic(Conditional, path, index + 1, condition);
    ghost var first: set<Diagnostic> := if condition == "" then {} else {conditional};
    if condition != "" {
      ReportProgress(resolver, graph.nodes, graph.diagnostics, conditional);
      StateReported(graph.nodes, graph.finished, graph.diagnostics, conditional, chain);
      graph.Diagnose(Conditional, path, index + 1, condition);
    }
    ghost var now, said := graph.nodes, graph.diagnostics;
    VisitValues(graph, resolver, path, index + 1, condition, line.Values(), quiet, chain, depth);
    ProgressOn(resolver, old(graph.nodes), old(graph.diagnostics), now, said, graph.nodes, graph.diagnostics, first,
               if line.Values() == [] then {Diagnostic(NoArgument, path, index + 1, "")} else ValuesReports(resolver, path, index + 1, line.Values(), quiet), path);
  }

  method VisitValues(graph: Graph, resolver: Resolver, path: string, line: nat, condition: string, values: seq<string>, quiet: bool,
                     chain: seq<string>, depth: nat)
    requires graph.Valid() && depth <= resolver.Depth() && path in graph.nodes && graph.nodes[path].file.Some?
    requires 1 <= line <= |graph.nodes[path].file.value| && IsInclude(graph.nodes[path].file.value[line - 1])
    requires forall c :: c in chain ==> c in graph.nodes
    requires graph.Walking(chain) && chain != [] && chain[|chain| - 1] == path
    modifies graph
    ensures graph.Valid() && GrownBut(old(graph.nodes), graph.nodes, path) && SameNode(old(graph.nodes[path]), graph.nodes[path])
    ensures graph.Walking(chain) && old(graph.finished) <= graph.finished
    ensures Settled(ValueEdges(resolver, line, condition, values), path, graph.finished, graph.diagnostics)
    ensures graph.Pending() == old(graph.Pending()) && graph.Unexplained() == old(graph.Unexplained())
    ensures var edges := ValueEdges(resolver, line, condition, values);
            graph.nodes[path].includes == old(graph.nodes[path]).includes + edges && Dealt(edges, path, graph.nodes.Keys, graph.diagnostics)
    ensures Progress(resolver, old(graph.nodes), old(graph.diagnostics), graph.nodes, graph.diagnostics,
                     if values == [] then {Diagnostic(NoArgument, path, line, "")} else ValuesReports(resolver, path, line, values, quiet))
    decreases resolver.Depth() - depth, 4, 0, 0
  {
    hide Total, CountCode, NodeStands, Weight, Stands, IsInclude, Progress, FileReports, Listed, Dealt, ValueReports, EdgeFor, State, Settled;
    NothingToSettle(path, graph.finished, graph.diagnostics);
    if |values| == 0 {
      ReportProgress(resolver, graph.nodes, graph.diagnostics, Diagnostic(NoArgument, path, line, ""));
      StateReported(graph.nodes, graph.finished, graph.diagnostics, Diagnostic(NoArgument, path, line, ""), chain);
      graph.Diagnose(NoArgument, path, line, "");
      NothingToDeal(path, graph.nodes.Keys, graph.diagnostics);
      NothingToSettle(path, graph.finished, graph.diagnostics);
      return;
    }
    ghost var before, told := old(graph.nodes), old(graph.diagnostics);
    ghost var edges := ValueEdges(resolver, line, condition, values);
    NoProgress(resolver, before, told);
    NothingToDeal(path, graph.nodes.Keys, graph.diagnostics);
    for k := 0 to |values|
      invariant graph.Valid() && GrownBut(before, graph.nodes, path) && SameNode(before[path], graph.nodes[path])
      invariant graph.Pending() == old(graph.Pending()) && graph.Unexplained() == old(graph.Unexplained())
      invariant graph.nodes[path].includes == before[path].includes + edges[..k]
      invariant Dealt(edges[..k], path, graph.nodes.Keys, graph.diagnostics)
      invariant graph.Walking(chain) && old(graph.finished) <= graph.finished && Settled(edges[..k], path, graph.finished, graph.diagnostics)
      invariant Progress(resolver, before, told, graph.nodes, graph.diagnostics, ValuesReports(resolver, path, line, values[..k], quiet))
    {
      ghost var now, said, ended := graph.nodes, graph.diagnostics, graph.finished;
      VisitValue(graph, resolver, path, line, condition, values[k], quiet, chain, depth);
      GrownButOn(before, now, graph.nodes, path);
      ProgressOn(resolver, before, told, now, said, graph.nodes, graph.diagnostics, ValuesReports(resolver, path, line, values[..k], quiet),
                 ValueReports(resolver, path, line, values[k], quiet), path);
      ProgressKeeps(resolver, now, said, graph.nodes, graph.diagnostics, ValueReports(resolver, path, line, values[k], quiet));
      DealtStill(edges[..k], path, now.Keys, said, graph.nodes.Keys, graph.diagnostics);
      DealtJoined(edges[..k], [edges[k]], path, graph.nodes.Keys, graph.diagnostics);
      SettledStill(edges[..k], path, ended, said, graph.finished, graph.diagnostics);
      SettledJoined(edges[..k], [edges[k]], path, graph.finished, graph.diagnostics);
      assert edges[..k + 1] == edges[..k] + [edges[k]];
      Regroup(before[path].includes, edges[..k], [edges[k]]);
      assert values[..k + 1][..k] == values[..k];
    }
    assert edges[..|values|] == edges && values[..|values|] == values;
  }

  lemma NothingToSettle(path: string, finished: seq<string>, diagnostics: seq<Diagnostic>)
    ensures Settled([], path, finished, diagnostics)
  {}

  lemma NothingToDeal(path: string, known: set<string>, diagnostics: seq<Diagnostic>)
    ensures Dealt([], path, known, diagnostics)
  {}

  method WalkFile(graph: Graph, resolver: Resolver, path: string, chain: seq<string>, depth: nat)
    requires graph.Valid() && depth <= resolver.Depth() && path !in graph.nodes && forall c :: c in chain ==> c in graph.nodes
    requires graph.Walking(chain) && (chain != [] ==> Links(graph.nodes, chain[|chain| - 1], path))
    modifies graph
    ensures graph.Valid() && Grown(old(graph.nodes), graph.nodes) && path in graph.nodes
    ensures graph.Walking(chain) && old(graph.finished) <= graph.finished && path in graph.finished
    ensures graph.Pending() == old(graph.Pending()) - 1 && graph.Unexplained() == old(graph.Unexplained())
    ensures Progress(resolver, old(graph.nodes), old(graph.diagnostics), graph.nodes, graph.diagnostics, {})
    decreases resolver.Depth() - depth, 7, 0, 0
  {
    hide Total, CountCode, Weight, Stands, IsInclude, Progress, LinesReports, Dealt, Listed, LineEdges, LineReports, State, Links, Settled;
    assert path !in chain;
    var contents := resolver.read(path);
    var node := Node(path, resolver.InsideRoot(path), contents.Missing?, None, [], 1);
    if !contents.Contents? {
      StateEntered(graph.nodes, graph.finished, graph.diagnostics, chain, path, node);
      graph.AddNode(node);
      StateReported(graph.nodes, graph.finished, graph.diagnostics, Diagnostic(Unreadable, path, 0, ""), chain + [path]);
      graph.Diagnose(Unreadable, path, 0, "");
      NothingToSettle(path, graph.finished, graph.diagnostics);
      StateLeft(graph.nodes, graph.finished, graph.diagnostics, chain, path);
      graph.finished := graph.finished + [path];
      UnreadableWalked(resolver, old(graph.nodes), old(graph.diagnostics), path, node);
      return;
    }
    var lines := ParseFile(contents.text);
    StateEntered(graph.nodes, graph.finished, graph.diagnostics, chain, path, node.(file := Some(lines)));
    graph.AddNode(node.(file := Some(lines)));
    ghost var before, told, added := old(graph.nodes), graph.diagnostics, graph.nodes;
    WalkLines(graph, resolver, path, lines, chain + [path], depth);
    FileWalked(resolver, before, told, added, graph.nodes, graph.diagnostics, path, contents.text);
    StateLeft(graph.nodes, graph.finished, graph.diagnostics, chain, path);
    graph.finished := graph.finished + [path];
  }

  method WalkLines(graph: Graph, resolver: Resolver, path: string, lines: seq<Line>, chain: seq<string>, depth: nat)
    requires graph.Valid() && depth <= resolver.Depth() && path in graph.nodes && forall c :: c in chain ==> c in graph.nodes
    requires graph.nodes[path].file == Some(lines) && graph.nodes[path].includes == []
    requires graph.Walking(chain) && chain != [] && chain[|chain| - 1] == path
    modifies graph
    ensures graph.Walking(chain) && old(graph.finished) <= graph.finished
    ensures Settled(FileEdges(resolver, lines, |lines|), path, graph.finished, graph.diagnostics)
    ensures graph.Valid() && GrownBut(old(graph.nodes), graph.nodes, path) && SameNode(old(graph.nodes[path]), graph.nodes[path])
    ensures graph.Pending() == old(graph.Pending()) && graph.Unexplained() == old(graph.Unexplained())
    ensures graph.nodes[path].includes == FileEdges(resolver, lines, |lines|)
    ensures Dealt(FileEdges(resolver, lines, |lines|), path, graph.nodes.Keys, graph.diagnostics)
    ensures Progress(resolver, old(graph.nodes), old(graph.diagnostics), graph.nodes, graph.diagnostics, LinesReports(resolver, path, lines, |lines|))
    decreases resolver.Depth() - depth, 6, 0, 0
  {
    hide Total, CountCode, Weight, Stands, IsInclude, Progress, LinesReports, Dealt, Listed, LineEdges, LineReports, State, Settled;
    NothingToSettle(path, graph.finished, graph.diagnostics);
    var region := resolver.generated(lines);
    ghost var added, told := graph.nodes, graph.diagnostics;
    NoProgress(resolver, added, told);
    NoLines(resolver, path, lines);
    NothingToDeal(path, graph.nodes.Keys, graph.diagnostics);
    for index := 0 to |lines|
      invariant graph.Valid() && GrownBut(added, graph.nodes, path) && SameNode(added[path], graph.nodes[path])
      invariant graph.Pending() == old(graph.Pending()) && graph.Unexplained() == old(graph.Unexplained())
      invariant graph.nodes[path].includes == FileEdges(resolver, lines, index)
      invariant Dealt(FileEdges(resolver, lines, index), path, graph.nodes.Keys, graph.diagnostics)
      invariant graph.Walking(chain) && old(graph.finished) <= graph.finished
      invariant Settled(FileEdges(resolver, lines, index), path, graph.finished, graph.diagnostics)
      invariant Progress(resolver, added, told, graph.nodes, graph.diagnostics, LinesReports(resolver, path, lines, index))
    {
      ghost var now, said, ended := graph.nodes, graph.diagnostics, graph.finished;
      var quiet := region.Some? && region.value.0 < index < region.value.1;
      VisitLine(graph, resolver, path, index, quiet, chain, depth);
      GrownButOn(added, now, graph.nodes, path);
      LineDone(resolver, added, told, now, said, graph.nodes, graph.diagnostics, path, lines, index);
      ProgressKeeps(resolver, now, said, graph.nodes, graph.diagnostics, LineReports(resolver, path, lines, index, quiet));
      SettledStill(FileEdges(resolver, lines, index), path, ended, said, graph.finished, graph.diagnostics);
      SettledJoined(FileEdges(resolver, lines, index), LineEdges(resolver, lines, index), path, graph.finished, graph.diagnostics);
    }
  }

  lemma NoLines(resolver: Resolver, path: string, lines: seq<Line>)
    ensures LinesReports(resolver, path, lines, 0) == {}
  {}

  lemma LineDone(resolver: Resolver, n0: map<string, Node>, d0: seq<Diagnostic>, n1: map<string, Node>, d1: seq<Diagnostic>,
                 n2: map<string, Node>, d2: seq<Diagnostic>, path: string, lines: seq<Line>, index: nat)
    requires index < |lines| && path in n0 && GrownBut(n1, n2, path)
    requires Progress(resolver, n0, d0, n1, d1, LinesReports(resolver, path, lines, index))
    requires Progress(resolver, n1, d1, n2, d2, LineReports(resolver, path, lines, index, Quiet(resolver, lines, index)))
    requires Dealt(FileEdges(resolver, lines, index), path, n1.Keys, d1) && Dealt(LineEdges(resolver, lines, index), path, n2.Keys, d2)
    ensures Progress(resolver, n0, d0, n2, d2, LinesReports(resolver, path, lines, index + 1))
    ensures Dealt(FileEdges(resolver, lines, index + 1), path, n2.Keys, d2)
  {
    hide Progress, Dealt, LineReports, LineEdges;
    ProgressOn(resolver, n0, d0, n1, d1, n2, d2, LinesReports(resolver, path, lines, index), LineReports(resolver, path, lines, index, Quiet(resolver, lines, index)), path);
    ProgressKeeps(resolver, n1, d1, n2, d2, LineReports(resolver, path, lines, index, Quiet(resolver, lines, index)));
    DealtStill(FileEdges(resolver, lines, index), path, n1.Keys, d1, n2.Keys, d2);
    DealtJoined(FileEdges(resolver, lines, index), LineEdges(resolver, lines, index), path, n2.Keys, d2);
  }

  lemma UnreadableWalked(resolver: Resolver, nodes: map<string, Node>, diagnostics: seq<Diagnostic>, path: string, node: Node)
    requires path !in nodes && !resolver.read(path).Contents?
    requires node == Node(path, resolver.InsideRoot(path), resolver.read(path).Missing?, None, [], 1)
    ensures Progress(resolver, nodes, diagnostics, nodes[path := node], diagnostics + [Diagnostic(Unreadable, path, 0, "")], {})
  {
    var after, d := nodes[path := node], Diagnostic(Unreadable, path, 0, "");
    assert FileReports(resolver, path) == {d};
    assert Walked(resolver, path, node, after.Keys, diagnostics + [d]);
  }

  // What is reported of a file stands under its path, and says something of it alone.

  lemma {:induction false} ValuesHere(resolver: Resolver, path: string, line: nat, values: seq<string>, quiet: bool)
    ensures forall d :: d in ValuesReports(resolver, path, line, values, quiet) ==> d.path == path
  {
    if values != [] { ValuesHere(resolver, path, line, values[..|values| - 1], quiet); }
  }

  lemma {:induction false} LinesHere(resolver: Resolver, path: string, lines: seq<Line>, n: nat)
    requires n <= |lines|
    ensures forall d :: d in LinesReports(resolver, path, lines, n) ==> d.path == path
  {
    hide IsInclude, ValuesReports, Condition, HeaderOver;
    if n > 0 {
      LinesHere(resolver, path, lines, n - 1);
      ValuesHere(resolver, path, n, lines[n - 1].Values(), Quiet(resolver, lines, n - 1));
    }
  }

  /** Once all its lines are done, a file is one more that was walked. */
  lemma FileWalked(resolver: Resolver, before: map<string, Node>, told: seq<Diagnostic>, added: map<string, Node>,
                   after: map<string, Node>, reported: seq<Diagnostic>, path: string, text: string)
    requires resolver.read(path) == Contents(text) && path !in before
    requires added == before[path := Node(path, resolver.InsideRoot(path), false, Some(Parse(text)), [], 1)]
    requires path in after && SameNode(added[path], after[path]) && after[path].includes == FileEdges(resolver, Parse(text), |Parse(text)|)
    requires Dealt(after[path].includes, path, after.Keys, reported)
    requires Progress(resolver, added, told, after, reported, LinesReports(resolver, path, Parse(text), |Parse(text)|))
    ensures Progress(resolver, before, told, after, reported, {})
  {
    hide LinesReports, Dealt, FileEdges, Parse;
    var lines := Parse(text);
    LinesHere(resolver, path, lines, |lines|);
    assert FileReports(resolver, path) == LinesReports(resolver, path, lines, |lines|);
    assert Walked(resolver, path, after[path], after.Keys, reported);
  }
}
