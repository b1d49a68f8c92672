/**
 Two answers to "where does this value come from".  One keeps, as it loads the files,
 whether the block it last entered applies; the other looks up every line's own block.
 After an Include the first has not gone back to the block it was in; they agree when
 what was loaded leaves it as that block has it wherever a plain directive follows.
 */
module Provenance {
  import opened Results
  import opened Text
  import opened Syntax
  import opened Matcher
  import opened Blocks
  import opened Reading
  import opened Names
  import opened Includes
  import opened Walks

  // ---- the walks, step by step ----

  /** The chain of files being read, shared by the whole walk. */
  class Walker {
    var chain: set<string>

    constructor ()
      ensures chain == {}
    {
      chain := {};
    }

    method WalkNode(nodes: Nodes, path: string) returns (visits: seq<Visit>)
      modifies this
      ensures chain == old(chain) && visits == Visits(nodes, path, chain)
      decreases Open(nodes, chain), 0
    {
      hide LineVisits, TargetVisits, Targets, NextHeader, HeaderOver, Partition, Open;
      if path !in nodes || nodes[path].file == None || path in chain { return []; }
      OpenShrinks(nodes, chain, path);
      ghost var before := chain;
      chain := chain + {path};
      var node := nodes[path];
      var lines := node.file.value;
      var included := EdgesByLine(node.includes);
      var blocks := FileBlocks(lines);
      var current := 0;
      assert |blocks| > 0 && blocks[0].header == -1 by { FirstBlock(lines, blocks); }
      visits := [];
      for index := 0 to |lines|
        invariant chain == before + {path}
        invariant 0 <= current < |blocks| && blocks[current].header < index
        invariant Visits(nodes, path, before) == visits + LineVisits(nodes, path, chain, index)
      {
        current := Advance(lines, blocks, current, index);
        var own := if lines[index].kind == Directive then [Visit(path, index, blocks[current].header)] else [];
        var targets := if index + 1 in included then included[index + 1] else [];
        var below := WalkTargets(nodes, targets);
        NextLine(nodes, path, chain, index);
        Regroup(visits, own + below, LineVisits(nodes, path, chain, index + 1));
        visits := visits + (own + below);
      }
      LastLine(nodes, path, chain, visits);
      chain := chain - {path};
    }

    method WalkTargets(nodes: Nodes, targets: seq<string>) returns (visits: seq<Visit>)
      modifies this
      ensures chain == old(chain) && visits == TargetVisits(nodes, targets, chain)
      decreases Open(nodes, chain), 1
    {
      hide TargetVisits, Visits, Open;
      visits := [];
      assert targets[0..] == targets;
      for k := 0 to |targets|
        invariant chain == old(chain)
        invariant TargetVisits(nodes, targets, chain) == visits + TargetVisits(nodes, targets[k..], chain)
      {
        var deeper := WalkNode(nodes, targets[k]);
        NextTarget(nodes, targets, k, chain);
        Regroup(visits, deeper, TargetVisits(nodes, targets[k + 1..], chain));
        visits := visits + deeper;
      }
      NoTargetVisits(nodes, targets, chain, visits);
    }

    method WalkLoadOrder(nodes: Nodes, path: string) returns (events: seq<Event>)
      modifies this
      ensures chain == old(chain) && events == Loading(nodes, path, chain)
      decreases Open(nodes, chain), 0
    {
      hide LineLoading, TargetLoading, Targets, NextHeader, HeaderOver, IsInclude, LineEvents, Partition, Open;
      if path !in nodes || nodes[path].file == None || path in chain { return []; }
      OpenShrinks(nodes, chain, path);
      ghost var before := chain;
      chain := chain + {path};
      var node := nodes[path];
      var lines := node.file.value;
      var blocks := FileBlocks(lines);
      var position := 0;
      assert |blocks| > 0 && blocks[0].header == -1 && blocks[0].end >= 0 by { FirstBlock(lines, blocks); }
      events := [Enter(path, blocks[0].header)];
      for index := 0 to |lines|
        invariant chain == before + {path}
        invariant 0 <= position < |blocks| && blocks[position].header < index <= blocks[position].end
        invariant Loading(nodes, path, before) == events + LineLoading(nodes, path, chain, index)
      {
        NextHeaderHere(lines, blocks, position, index);
        var step: seq<Event> := [];
        if position + 1 < |blocks| && blocks[position + 1].header == index {
          position := position + 1;
          step := [Enter(path, blocks[position].header)];
          HeaderEvents(nodes, path, chain, index);
        } else if lines[index].kind == Directive && IsInclude(lines[index]) {
          step := LoadEdges(nodes, node.includes, index + 1);
          IncludeEvents(nodes, path, chain, index);
        } else if lines[index].kind == Directive {
          step := [Plain(path, index)];
          PlainEventsOf(nodes, path, chain, index);
        } else {
          SilentEvents(nodes, path, chain, index);
        }
        NextLoading(nodes, path, chain, index);
        Regroup(events, step, LineLoading(nodes, path, chain, index + 1));
        events := events + step;
      }
      LastLoading(nodes, path, chain, events);
      chain := chain - {path};
    }

    /** The edges of one Include line, in the order they were recorded. */
    method LoadEdges(nodes: Nodes, edges: seq<Edge>, line: nat) returns (events: seq<Event>)
      modifies this
      ensures chain == old(chain) && events == TargetLoading(nodes, Targets(edges, line), chain)
      decreases Open(nodes, chain), 2
    {
      hide TargetLoading, Loading, Targets, Open;
      events := [];
      assert edges[..0] == [];
      NothingLoaded(nodes, line, chain);
      for e := 0 to |edges|
        invariant chain == old(chain)
        invariant events == TargetLoading(nodes, Targets(edges[..e], line), chain)
      {
        var edge := edges[e];
        TargetsNext(edges, e, line);
        if edge.line == line {
          var step := LoadTargets(nodes, edge.matches);
          TargetLoadingAppend(nodes, Targets(edges[..e], line), edge.matches, chain);
          events := events + step;
        } else {
          assert Targets(edges[..e], line) + [] == Targets(edges[..e], line);
        }
      }
      assert edges[..|edges|] == edges;
    }

    method LoadTargets(nodes: Nodes, targets: seq<string>) returns (events: seq<Event>)
      modifies this
      ensures chain == old(chain) && events == TargetLoading(nodes, targets, chain)
      decreases Open(nodes, chain), 1
    {
      hide TargetLoading, Loading, Open;
      events := [];
      assert targets[0..] == targets;
      assert events + TargetLoading(nodes, targets, chain) == TargetLoading(nodes, targets, chain);
      for k := 0 to |targets|
        invariant chain == old(chain)
        invariant TargetLoading(nodes, targets, chain) == events + TargetLoading(nodes, targets[k..], chain)
      {
        var deeper := WalkLoadOrder(nodes, targets[k]);
        NextLoad(nodes, targets, k, chain);
        Regroup(events, deeper, TargetLoading(nodes, targets[k + 1..], chain));
        events := events + deeper;
      }
      LoadDone(nodes, chain, targets, events);
    }
  }

  lemma FirstBlock(lines: seq<Line>, blocks: seq<Block>)
    requires Partition(lines, blocks)
    ensures |blocks| > 0 && blocks[0].header == -1
  {}

  lemma NothingLoaded(nodes: Nodes, line: nat, chain: set<string>)
    ensures TargetLoading(nodes, Targets([], line), chain) == []
  {}

  method EdgesByLine(edges: seq<Edge>) returns (included: map<nat, seq<string>>)
    ensures forall line: nat :: Targets(edges, line) == if line in included then included[line] else []
  {
    included := map[];
    for k := 0 to |edges|
      invariant forall line: nat :: Targets(edges[..k], line) == if line in included then included[line] else []
    {
      forall line: nat ensures Targets(edges[..k + 1], line) == Targets(edges[..k], line) + if edges[k].line == line then edges[k].matches else [] {
        TargetsNext(edges, k, line);
      }
      var edge := edges[k];
      included := included[edge.line := (if edge.line in included then included[edge.line] else []) + edge.matches];
    }
    assert edges[..|edges|] == edges;
  }

  lemma TargetsNext(edges: seq<Edge>, k: nat, line: nat)
    requires k < |edges|
    ensures Targets(edges[..k + 1], line) == Targets(edges[..k], line) + if edges[k].line == line then edges[k].matches else []
  {
    assert edges[..k + 1][..k] == edges[..k];
  }

  /** The block that holds the next line. */
  method Advance(lines: seq<Line>, blocks: seq<Block>, from: nat, index: nat) returns (current: nat)
    requires Partition(lines, blocks) && index < |lines| && from < |blocks| && blocks[from].header < index
    ensures from <= current < |blocks| && blocks[current].header <= index
    ensures current + 1 < |blocks| ==> index < blocks[current].end
    ensures blocks[current].header == HeaderOver(lines, index)
  {
    hide NextHeader, HeaderOver, IsHeader, IsBlock, NoHeader;
    current := from;
    while current + 1 < |blocks| && blocks[current + 1].header <= index
      invariant from <= current < |blocks| && blocks[current].header <= index
    {
      current := current + 1;
    }
    assert current + 1 < |blocks| ==> blocks[current].end == blocks[current + 1].header;
    BlocksCover(lines, blocks, index);
  }

  lemma NextTarget(nodes: Nodes, targets: seq<string>, k: nat, chain: set<string>)
    requires k < |targets|
    ensures TargetVisits(nodes, targets[k..], chain) == Visits(nodes, targets[k], chain) + TargetVisits(nodes, targets[k + 1..], chain)
  {
    hide Visits;
    assert targets[k..][1..] == targets[k + 1..];
  }

  lemma NoTargetVisits(nodes: Nodes, targets: seq<string>, chain: set<string>, below: seq<Visit>)
    requires TargetVisits(nodes, targets, chain) == below + TargetVisits(nodes, targets[|targets|..], chain)
    ensures TargetVisits(nodes, targets, chain) == below
  {}

  lemma NextLine(nodes: Nodes, path: string, chain: set<string>, index: nat)
    requires Readable(nodes, path) && index < |LinesOf(nodes, path)|
    ensures LineVisits(nodes, path, chain, index)
         == (if LinesOf(nodes, path)[index].kind == Directive then [Visit(path, index, HeaderOver(LinesOf(nodes, path), index))] else [])
            + TargetVisits(nodes, Targets(nodes[path].includes, index + 1), chain)
            + LineVisits(nodes, path, chain, index + 1)
  {
    hide TargetVisits, HeaderOver, Targets;
  }

  lemma LastLine(nodes: Nodes, path: string, chain: set<string>, visits: seq<Visit>)
    requires Readable(nodes, path)
    ensures visits + LineVisits(nodes, path, chain, |LinesOf(nodes, path)|) == visits
  {}

  lemma NextLoad(nodes: Nodes, targets: seq<string>, k: nat, chain: set<string>)
    requires k < |targets|
    ensures TargetLoading(nodes, targets[k..], chain) == Loading(nodes, targets[k], chain) + TargetLoading(nodes, targets[k + 1..], chain)
  {
    hide Loading;
    assert targets[k..][1..] == targets[k + 1..];
  }

  lemma LoadDone(nodes: Nodes, chain: set<string>, targets: seq<string>, events: seq<Event>)
    ensures events + TargetLoading(nodes, targets[|targets|..], chain) == events
  {}

  lemma {:induction false} TargetLoadingAppend(nodes: Nodes, front: seq<string>, back: seq<string>, chain: set<string>)
    ensures TargetLoading(nodes, front + back, chain) == TargetLoading(nodes, front, chain) + TargetLoading(nodes, back, chain)
    decreases |front|
  {
    hide Loading;
    if front == [] {
      assert front + back == back;
    } else {
      assert (front + back)[1..] == front[1..] + back;
      TargetLoadingAppend(nodes, front[1..], back, chain);
      Regroup(Loading(nodes, front[0], chain), TargetLoading(nodes, front[1..], chain), TargetLoading(nodes, back, chain));
    }
  }

  lemma NextLoading(nodes: Nodes, path: string, chain: set<string>, index: nat)
    requires Readable(nodes, path) && index < |LinesOf(nodes, path)|
    ensures LineLoading(nodes, path, chain, index) == LineEvents(nodes, path, chain, index) + LineLoading(nodes, path, chain, index + 1)
  {
    hide LineEvents;
  }

  lemma LastLoading(nodes: Nodes, path: string, chain: set<string>, events: seq<Event>)
    requires Readable(nodes, path)
    ensures events + LineLoading(nodes, path, chain, |LinesOf(nodes, path)|) == events
  {}

  /** The next block starts at this line exactly when the line is a header. */
  lemma NextHeaderHere(lines: seq<Line>, blocks: seq<Block>, position: nat, index: nat)
    requires Partition(lines, blocks) && position < |blocks| && index < |lines| && blocks[position].header < index <= blocks[position].end
    ensures position + 1 < |blocks| && blocks[position + 1].header == index <==> IsHeader(lines[index])
    ensures !IsHeader(lines[index]) ==> index < blocks[position].end
    ensures IsHeader(lines[index]) ==> index < blocks[position + 1].end || index + 1 <= blocks[position + 1].end
  {
    assert IsBlock(lines, blocks[position]);
    if position + 1 < |blocks| { assert IsBlock(lines, blocks[position + 1]); }
  }

  lemma HeaderEvents(nodes: Nodes, path: string, chain: set<string>, index: nat)
    requires Readable(nodes, path) && index < |LinesOf(nodes, path)| && IsHeader(LinesOf(nodes, path)[index])
    ensures LineEvents(nodes, path, chain, index) == [Enter(path, index)]
  {}

  lemma IncludeEvents(nodes: Nodes, path: string, chain: set<string>, index: nat)
    requires Readable(nodes, path) && index < |LinesOf(nodes, path)| && IsInclude(LinesOf(nodes, path)[index])
    ensures LineEvents(nodes, path, chain, index) == TargetLoading(nodes, Targets(nodes[path].includes, index + 1), chain)
  {
    NotBoth(LinesOf(nodes, path)[index]);
  }

  lemma PlainEventsOf(nodes: Nodes, path: string, chain: set<string>, index: nat)
    requires Readable(nodes, path) && index < |LinesOf(nodes, path)|
    requires var line := LinesOf(nodes, path)[index]; line.kind == Directive && !IsHeader(line) && !IsInclude(line)
    ensures LineEvents(nodes, path, chain, index) == [Plain(path, index)]
  {}

  lemma SilentEvents(nodes: Nodes, path: string, chain: set<string>, index: nat)
    requires Readable(nodes, path) && index < |LinesOf(nodes, path)| && LinesOf(nodes, path)[index].kind != Directive
    ensures LineEvents(nodes, path, chain, index) == []
  {}
}
