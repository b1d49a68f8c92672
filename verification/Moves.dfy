/** Moving one host block between files. */
module Moves {
  // Taking one host block, with the comment attached to it, from one file to another.

  import opened Results
  import opened Text
  import opened Syntax
  import opened Blocks
  import opened Edits
  import opened Appending
  import opened Regions

  datatype MoveError = DestinationDeclares | HostNotFound

  /** The lines that belong to a block: its attached comment and its body, without the next
      block's comment and without the generated region. */
  function RunOf(lines: seq<Line>, block: Block): (int, int) {
    Clamped(lines, CommentStart(lines, block.header), CommentStart(lines, block.end))
  }

  predicate Declares(lines: seq<Line>, alias: string) { exists h :: 0 <= h < |lines| && DeclaresAt(lines, alias, h) }

  lemma RunFits(lines: seq<Line>, block: Block)
    requires IsBlock(lines, block) && block.header >= 0
    ensures 0 <= RunOf(lines, block).0 <= RunOf(lines, block).1 <= |lines|
  {
    hide MarkerAt, StartMarker, EndMarker;
  }

  function Extracted(lines: seq<Line>, block: Block): seq<Line>
    requires IsBlock(lines, block) && block.header >= 0
  {
    RunFits(lines, block);
    lines[RunOf(lines, block).0..RunOf(lines, block).1]
  }

  function Remaining(lines: seq<Line>, block: Block): seq<Line>
    requires IsBlock(lines, block) && block.header >= 0
  {
    RunFits(lines, block);
    lines[..RunOf(lines, block).0] + lines[RunOf(lines, block).1..]
  }

  method ExtractHostBlock(file: File, alias: string) returns (extracted: seq<Line>, ok: bool, ghost block: Block)
    modifies file
    ensures ok <==> Declares(old(file.lines), alias)
    ensures !ok ==> file.lines == old(file.lines)
    ensures ok ==> IsBlock(old(file.lines), block) && block.header >= 0 && DeclaresAt(old(file.lines), alias, block.header)
                   && NoneAbove(old(file.lines), alias, block.header)
    ensures ok ==> extracted == Extracted(old(file.lines), block) && file.lines == Remaining(old(file.lines), block)
  {
    hide RegionOf, NextHeader, DeclaresAt;
    var found;
    var b;
    b, found := FindHostBlock(file.lines, alias);
    block := b;
    if !found { return [], false, block; }
    var start := CommentRun(file.lines, b.header);
    var end := CommentRun(file.lines, b.end);
    RunFits(file.lines, b);
    start, end := ClampToRegion(file.lines, start, end);
    extracted := file.lines[start..end];
    file.lines := file.lines[..start] + file.lines[end..];
    ok := true;
  }

  /** The old lines, a newline if the last had none, one blank line unless one is there, then the run. */
  function Appended(lines: seq<Line>, run: seq<Line>): seq<Line> {
    if run == [] then lines
    else if lines == [] then run
    else
      Ended(lines, FirstEnding(lines))
      + (if lines[|lines| - 1].kind == Blank then [] else [TextLine(Blank, "", FirstEnding(lines))])
      + run
  }

  method AppendHostBlock(file: File, run: seq<Line>)
    modifies file
    ensures file.lines == Appended(old(file.lines), run)
  {
    if |run| == 0 { return; }
    if |file.lines| > 0 {
      var ending := DominantEnding(file.lines);
      var last := |file.lines| - 1;
      if file.lines[last].ending == "" {
        file.lines := file.lines[last := file.lines[last].(ending := ending)];
      }
      if file.lines[last].kind != Blank { file.lines := file.lines + [TextLine(Blank, "", ending)]; }
    }
    file.lines := file.lines + run;
  }

  /** Refused moves change nothing; otherwise the source loses one run of lines and the destination gains it. */
  method MoveHostBlock(source: File, destination: File, alias: string)
      returns (moved: Result<seq<Line>, MoveError>, ghost block: Block)
    requires source != destination
    modifies source, destination
    ensures Declares(old(destination.lines), alias) ==> moved == Err(DestinationDeclares)
    ensures !Declares(old(destination.lines), alias) && !Declares(old(source.lines), alias) ==> moved == Err(HostNotFound)
    ensures !Declares(old(destination.lines), alias) && Declares(old(source.lines), alias) ==> moved.Ok?
    ensures moved.Err? ==> source.lines == old(source.lines) && destination.lines == old(destination.lines)
    ensures moved.Ok? ==>
              && IsBlock(old(source.lines), block) && block.header >= 0
              && DeclaresAt(old(source.lines), alias, block.header) && NoneAbove(old(source.lines), alias, block.header)
              && moved.value == Extracted(old(source.lines), block)
              && source.lines == Remaining(old(source.lines), block)
              && destination.lines == Appended(old(destination.lines), moved.value)
  {
    hide RegionOf, NextHeader, DeclaresAt, Appended;
    var b, declared := FindHostBlock(destination.lines, alias);
    block := b;
    if declared { return Err(DestinationDeclares), block; }
    var extracted, ok;
    extracted, ok, block := ExtractHostBlock(source, alias);
    if !ok { return Err(HostNotFound), block; }
    AppendHostBlock(destination, extracted);
    return Ok(extracted), block;
  }

  // ---- what that keeps ----

  /** One pair of markers with a directive and no header between them, or none at all. */
  predicate WholeRegion(lines: seq<Line>) {
    match RegionOf(lines)
    case Found(start, end) =>
      NoHeader(lines, start, end + 1) && exists d :: start < d < end && lines[d].kind == Directive
    case _ => true
  }

  lemma HeaderNoComment(line: Line)
    requires IsHeader(line)
    ensures line.kind == Directive
  {}

  /** The block's own header is in the run, and no line of the region is. */
  lemma RunKeepsRegion(lines: seq<Line>, block: Block)
    requires IsBlock(lines, block) && block.header >= 0 && WholeRegion(lines)
    ensures RunOf(lines, block).0 <= block.header < RunOf(lines, block).1
    ensures RegionOf(lines).Found? ==>
              RunOf(lines, block).1 <= RegionOf(lines).start || RegionOf(lines).end < RunOf(lines, block).0
  {
    hide MarkerAt, StartMarker, EndMarker, IsHeader, RegionOf;
    HeaderNoComment(lines[block.header]);
    match RegionOf(lines)
    case Found(start, end) =>
      var d :| start < d < end && lines[d].kind == Directive;
    case _ =>
  }

  /** Where the run's header comes to stand in the destination. */
  lemma DestinationDeclaresIt(source: seq<Line>, destination: seq<Line>, alias: string, block: Block)
    requires IsBlock(source, block) && block.header >= 0 && DeclaresAt(source, alias, block.header) && WholeRegion(source)
    ensures Declares(Appended(destination, Extracted(source, block)), alias)
  {
    hide MarkerAt, IsHeader, RegionOf, WholeRegion, FirstConcrete, ParsePatterns, EqualFold, Clamped;
    RunKeepsRegion(source, block);
    RunFits(source, block);
    var run := Extracted(source, block);
    var after := Appended(destination, run);
    var at := |after| - |run| + (block.header - RunOf(source, block).0);
    assert run[block.header - RunOf(source, block).0] == source[block.header];
    assert after[at] == source[block.header];
    assert DeclaresAt(after, alias, at);
  }

  /** No line is lost: the source is what is left around the run. */
  lemma SourceIsAround(lines: seq<Line>, block: Block)
    requires IsBlock(lines, block) && block.header >= 0
    ensures var run := RunOf(lines, block);
            && 0 <= run.0 <= run.1 <= |lines| && Remaining(lines, block)[..run.0] + Extracted(lines, block) + Remaining(lines, block)[run.0..] == lines
  {
    hide Clamped;
    RunFits(lines, block);
  }

  /** The region stays in the source, whole. */
  lemma RegionStays(lines: seq<Line>, block: Block)
    requires IsBlock(lines, block) && block.header >= 0 && WholeRegion(lines) && RegionOf(lines).Found?
    ensures var run, span := RunOf(lines, block), RegionOf(lines);
            var rest, shift := Remaining(lines, block), if run.1 <= span.start then run.1 - run.0 else 0;
            && 0 <= span.start - shift <= span.end - shift < |rest|
            && rest[span.start - shift..span.end + 1 - shift] == lines[span.start..span.end + 1]
  {
    hide Clamped, WholeRegion, MarkerAt, RegionOf, CommentStart;
    RunFits(lines, block);
    RunKeepsRegion(lines, block);
    var run, span := RunOf(lines, block), RegionOf(lines);
  }

  /** The destination's own lines stay as they were, but for a newline after the last. */
  lemma DestinationKept(lines: seq<Line>, run: seq<Line>, i: nat)
    requires i < |lines|
    ensures i < |Appended(lines, run)| && Appended(lines, run)[i].Content() == lines[i].Content()
    ensures lines[i].ending != "" ==> Appended(lines, run)[i] == lines[i]
  {
    hide Line.Content;
    if run != [] { ContentKept(lines[i], FirstEnding(lines)); }
  }

  lemma ContentKept(line: Line, ending: string)
    ensures line.(ending := ending).Content() == line.Content()
  {}

  /** The lines from `from` up to `to` are those that go with the header: all comments right above it, down
      to where the comments of the next header begin, and in neither direction into the region. */
  ghost predicate GoesWith(lines: seq<Line>, header: nat, from: int, to: int) {
    && 0 <= from <= header < to <= |lines|
    && (forall i :: from <= i < header ==> lines[i].kind == Comment)
    && (from > 0 && lines[from - 1].kind == Comment ==> RegionOf(lines).Found? && from - 1 == RegionOf(lines).end)
    && (forall i :: header < i < to ==> !IsHeader(lines[i]))
    && (if RegionOf(lines).Found? && to == RegionOf(lines).start then true
        else
          && lines[to - 1].kind != Comment
          && exists next :: CommentsTo(lines, to, next))
  }

  /** Nothing but comments from here to the next header or the end. */
  ghost predicate CommentsTo(lines: seq<Line>, from: int, next: int) {
    0 <= from <= next <= |lines| && (next == |lines| || IsHeader(lines[next])) && forall i :: from <= i < next ==> lines[i].kind == Comment
  }

  lemma RunGoesWith(lines: seq<Line>, block: Block)
    requires IsBlock(lines, block) && block.header >= 0 && WholeRegion(lines)
    ensures GoesWith(lines, block.header, RunOf(lines, block).0, RunOf(lines, block).1)
  {
    hide MarkerAt, StartMarker, EndMarker, IsHeader, RegionOf;
    RunKeepsRegion(lines, block);
    RunFits(lines, block);
    HeaderNoComment(lines[block.header]);
    var next, header := block.end, block.header;
    var (from, to) := RunOf(lines, block);
    var s, e := CommentStart(lines, header), CommentStart(lines, next);
    assert s > 0 ==> lines[s - 1].kind != Comment;
    assert header < e <= next && lines[e - 1].kind != Comment;
    assert NoHeader(lines, header + 1, next);
    assert CommentsTo(lines, e, next);
  }

  /** In the destination the run stands at the end, below a blank line unless there was nothing to stand below. */
  lemma RunStandsBelow(lines: seq<Line>, run: seq<Line>)
    requires run != []
    ensures var after := Appended(lines, run);
            var at := |after| - |run|;
            && |lines| <= at <= |lines| + 1 && after[at..] == run
            && (at > 0 ==> after[at - 1].kind == Blank && after[at - 1].ending != "")
            && (at == |lines| + 1 ==> lines != [] && lines[|lines| - 1].kind != Blank && after[|lines|].Content() == "")
  {}
}
