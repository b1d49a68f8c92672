/** Two walks over the graph in load order. */
module Walks {
  // Two walks over the graph in load order.  One visits every directive; the other keeps
  // the blocks it enters and the plain directives apart, and goes down only at Include
  // lines.  Both follow the files in a chain, which stops cycles, and they meet the same
  // plain directives in the same order.

  import opened Results
  import opened Text
  import opened Syntax
  import opened Blocks
  import opened Reading
  import opened Includes

  type Nodes = map<string, Node>

  predicate Readable(nodes: Nodes, path: string) { path in nodes && nodes[path].file.Some? }

  function LinesOf(nodes: Nodes, path: string): seq<Line> {
    if Readable(nodes, path) then nodes[path].file.value else []
  }

  /** What the Include line at this number matched, in the order recorded. */
  function Targets(edges: seq<Edge>, line: nat): seq<string> {
    if edges == [] then []
    else
      var last := edges[|edges| - 1];
      Targets(edges[..|edges| - 1], line) + if last.line == line then last.matches else []
  }

  /** A directive line, with the header that governs it (-1 for none). */
  datatype Visit = Visit(path: string, index: nat, header: int)

  // ---- every directive ----

  function Open(nodes: Nodes, chain: set<string>): nat { |nodes.Keys - chain| }

  lemma OpenShrinks(nodes: Nodes, chain: set<string>, path: string)
    requires path in nodes && path !in chain
    ensures Open(nodes, chain + {path}) < Open(nodes, chain)
  {
    assert nodes.Keys - chain == (nodes.Keys - (chain + {path})) + {path};
  }

  function Visits(nodes: Nodes, path: string, chain: set<string>): seq<Visit>
    decreases Open(nodes, chain), 2, 0
  {
    if !Readable(nodes, path) || path in chain then []
    else
      OpenShrinks(nodes, chain, path);
      LineVisits(nodes, path, chain + {path}, 0)
  }

  function LineVisits(nodes: Nodes, path: string, chain: set<string>, index: nat): seq<Visit>
    requires Readable(nodes, path) && index <= |LinesOf(nodes, path)|
    decreases Open(nodes, chain), 4, |LinesOf(nodes, path)| - index
  {
    var lines := LinesOf(nodes, path);
    if index == |lines| then []
    else
      (if lines[index].kind == Directive then [Visit(path, index, HeaderOver(lines, index))] else [])
      + TargetVisits(nodes, Targets(nodes[path].includes, index + 1), chain)
      + LineVisits(nodes, path, chain, index + 1)
  }

  function TargetVisits(nodes: Nodes, targets: seq<string>, chain: set<string>): seq<Visit>
    decreases Open(nodes, chain), 3, |targets|
  {
    if targets == [] then [] else Visits(nodes, targets[0], chain) + TargetVisits(nodes, targets[1..], chain)
  }

  // ---- blocks and plain directives ----

  datatype Event = Enter(path: string, header: int) | Plain(path: string, index: nat)

  function Loading(nodes: Nodes, path: string, chain: set<string>): seq<Event>
    decreases Open(nodes, chain), 2, 0
  {
    if !Readable(nodes, path) || path in chain then []
    else
      OpenShrinks(nodes, chain, path);
      [Enter(path, -1)] + LineLoading(nodes, path, chain + {path}, 0)
  }

  function LineLoading(nodes: Nodes, path: string, chain: set<string>, index: nat): seq<Event>
    requires Readable(nodes, path) && index <= |LinesOf(nodes, path)|
    decreases Open(nodes, chain), 4, |LinesOf(nodes, path)| - index
  {
    var lines := LinesOf(nodes, path);
    if index == |lines| then []
    else
      LineEvents(nodes, path, chain, index) + LineLoading(nodes, path, chain, index + 1)
  }

  function LineEvents(nodes: Nodes, path: string, chain: set<string>, index: nat): seq<Event>
    requires Readable(nodes, path) && index < |LinesOf(nodes, path)|
    decreases Open(nodes, chain), 4, 0
  {
    var line := LinesOf(nodes, path)[index];
    if IsHeader(line) then [Enter(path, index)]
    else if line.kind != Directive then []
    else if IsInclude(line) then TargetLoading(nodes, Targets(nodes[path].includes, index + 1), chain)
    else [Plain(path, index)]
  }

  function TargetLoading(nodes: Nodes, targets: seq<string>, chain: set<string>): seq<Event>
    decreases Open(nodes, chain), 3, |targets|
  {
    if targets == [] then [] else Loading(nodes, targets[0], chain) + TargetLoading(nodes, targets[1..], chain)
  }

  // ---- the same plain directives ----

  predicate IsPlain(nodes: Nodes, v: Visit) {
    && v.index < |LinesOf(nodes, v.path)|
    && var line := LinesOf(nodes, v.path)[v.index]; line.kind == Directive && !IsHeader(line) && !IsInclude(line)
  }

  function PlainVisits(nodes: Nodes, visits: seq<Visit>): seq<(string, nat)> {
    if visits == [] then []
    else (if IsPlain(nodes, visits[0]) then [(visits[0].path, visits[0].index)] else []) + PlainVisits(nodes, visits[1..])
  }

  function PlainEvents(events: seq<Event>): seq<(string, nat)> {
    if events == [] then []
    else (if events[0].Plain? then [(events[0].path, events[0].index)] else []) + PlainEvents(events[1..])
  }

  lemma {:induction false} PlainVisitsAppend(nodes: Nodes, front: seq<Visit>, back: seq<Visit>)
    ensures PlainVisits(nodes, front + back) == PlainVisits(nodes, front) + PlainVisits(nodes, back)
  {
    hide IsPlain;
    if front == [] {
      assert front + back == back;
    } else {
      assert (front + back)[1..] == front[1..] + back;
      PlainVisitsAppend(nodes, front[1..], back);
    }
  }

  function PlainOf(event: Event): seq<(string, nat)> { if event.Plain? then [(event.path, event.index)] else [] }

  lemma PlainEventsStep(event: Event, rest: seq<Event>)
    ensures PlainEvents([event] + rest) == PlainOf(event) + PlainEvents(rest)
  {
    assert ([event] + rest)[1..] == rest;
  }

  lemma {:induction false} PlainEventsAppend(front: seq<Event>, back: seq<Event>)
    ensures PlainEvents(front + back) == PlainEvents(front) + PlainEvents(back)
  {
    hide PlainEvents, PlainOf;
    if front == [] {
      assert front + back == back;
      assert PlainEvents([]) == [] by { NoEvents(); }
    } else {
      assert front == [front[0]] + front[1..] && front + back == [front[0]] + (front[1..] + back);
      PlainEventsStep(front[0], front[1..]);
      PlainEventsStep(front[0], front[1..] + back);
      PlainEventsAppend(front[1..], back);
      Regroup(PlainOf(front[0]), PlainEvents(front[1..]), PlainEvents(back));
    }
  }

  lemma NoEvents()
    ensures PlainEvents([]) == []
  {}

  /** A line that is no Include has no edges. */
  lemma {:induction false} NoTargets(file: seq<Line>, edges: seq<Edge>, index: nat)
    requires forall i :: 0 <= i < |edges| ==> EdgeStands(file, edges[i])
    requires index < |file| && !IsInclude(file[index])
    ensures Targets(edges, index + 1) == []
  {
    hide IsInclude;
    if edges != [] {
      assert EdgeStands(file, edges[|edges| - 1]);
      NoTargets(file, edges[..|edges| - 1], index);
    }
  }

  lemma NotBoth(line: Line)
    ensures !(IsInclude(line) && IsHeader(line))
  {
    assert |Lower("Include")| == 7 && |Lower("Host")| == 4 && |Lower("Match")| == 5;
  }

  /** On a graph whose edges stand on Include lines, both walks meet the same plain directives, in order. */
  lemma {:induction false} SamePlain(nodes: Nodes, path: string, chain: set<string>)
    requires Stands(nodes)
    ensures PlainVisits(nodes, Visits(nodes, path, chain)) == PlainEvents(Loading(nodes, path, chain))
    decreases Open(nodes, chain), 2, 0
  {
    hide LineVisits, LineLoading, Stands;
    if Readable(nodes, path) && path !in chain {
      OpenShrinks(nodes, chain, path);
      SamePlainLines(nodes, path, chain + {path}, 0);
      var lines := LineLoading(nodes, path, chain + {path}, 0);
      PlainEventsAppend([Enter(path, -1)], lines);
    }
  }

  lemma {:induction false} SamePlainTargets(nodes: Nodes, targets: seq<string>, chain: set<string>)
    requires Stands(nodes)
    ensures PlainVisits(nodes, TargetVisits(nodes, targets, chain)) == PlainEvents(TargetLoading(nodes, targets, chain))
    decreases Open(nodes, chain), 3, |targets|
  {
    hide Visits, Loading, Stands;
    if targets != [] {
      SamePlain(nodes, targets[0], chain);
      SamePlainTargets(nodes, targets[1..], chain);
      PlainVisitsAppend(nodes, Visits(nodes, targets[0], chain), TargetVisits(nodes, targets[1..], chain));
      PlainEventsAppend(Loading(nodes, targets[0], chain), TargetLoading(nodes, targets[1..], chain));
    }
  }

  lemma {:induction false} SamePlainLines(nodes: Nodes, path: string, chain: set<string>, index: nat)
    requires Stands(nodes) && Readable(nodes, path) && index <= |LinesOf(nodes, path)|
    ensures PlainVisits(nodes, LineVisits(nodes, path, chain, index)) == PlainEvents(LineLoading(nodes, path, chain, index))
    decreases Open(nodes, chain), 4, |LinesOf(nodes, path)| - index
  {
    hide TargetVisits, TargetLoading, LineEvents, Stands, IsPlain, HeaderOver;
    var lines := LinesOf(nodes, path);
    if index < |lines| {
      var own := if lines[index].kind == Directive then [Visit(path, index, HeaderOver(lines, index))] else [];
      var below := TargetVisits(nodes, Targets(nodes[path].includes, index + 1), chain);
      SamePlainLines(nodes, path, chain, index + 1);
      PlainVisitsAppend(nodes, own + below, LineVisits(nodes, path, chain, index + 1));
      PlainVisitsAppend(nodes, own, below);
      PlainEventsAppend(LineEvents(nodes, path, chain, index), LineLoading(nodes, path, chain, index + 1));
      SamePlainLine(nodes, path, chain, index);
    }
  }

  lemma SamePlainLine(nodes: Nodes, path: string, chain: set<string>, index: nat)
    requires Stands(nodes) && Readable(nodes, path) && index < |LinesOf(nodes, path)|
    ensures var lines := LinesOf(nodes, path);
            var own := if lines[index].kind == Directive then [Visit(path, index, HeaderOver(lines, index))] else [];
            PlainVisits(nodes, own) + PlainVisits(nodes, TargetVisits(nodes, Targets(nodes[path].includes, index + 1), chain))
            == PlainEvents(LineEvents(nodes, path, chain, index))
    decreases Open(nodes, chain), 4, 0
  {
    hide IsInclude, IsHeader, HeaderOver;
    var lines := LinesOf(nodes, path);
    NotBoth(lines[index]);
    assert NodeStands(nodes[path]);
    HeaderIsDirective(lines[index]);
    if !IsInclude(lines[index]) { NoTargets(lines, nodes[path].includes, index); }
    var own := Visit(path, index, HeaderOver(lines, index));
    SamePlainTargets(nodes, Targets(nodes[path].includes, index + 1), chain);
  }

  lemma HeaderIsDirective(line: Line)
    ensures IsHeader(line) || IsInclude(line) ==> line.kind == Directive
  {}
}
