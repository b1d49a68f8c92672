/** The raw form of one block. */
module RawBlocks {
  // The raw form of one block: the text that is shown, and the replacement that is written
  // back.  What is shown stops before the next block's comment and before the generated
  // region; what is replaced goes on to the next header.

  import opened Results
  import opened Text
  import opened Syntax
  import opened Blocks
  import opened Reparse
  import opened Edits
  import opened Appending
  import opened EditReads
  import opened Regions
  import opened Installing
  import opened Compiling
  import opened Moves

  datatype RawError = RawHeader | RawStructure

  /** Where the text that is shown ends. */
  function FormEnd(lines: seq<Line>, block: Block): int {
    Clamped(lines, block.header, CommentStart(lines, block.end)).1
  }

  lemma FormFits(lines: seq<Line>, block: Block)
    requires IsBlock(lines, block) && block.header >= 0
    ensures block.header < FormEnd(lines, block) <= block.end
  {
    hide MarkerAt, StartMarker, EndMarker;
  }

  /** The block as the form shows it. */
  function FormRaw(lines: seq<Line>, block: Block): string
    requires IsBlock(lines, block) && block.header >= 0
  {
    FormFits(lines, block);
    RenderLines(lines[block.header..FormEnd(lines, block)])
  }

  method ProjectRaw(lines: seq<Line>, block: Block) returns (raw: string)
    requires IsBlock(lines, block) && block.header >= 0
    ensures raw == FormRaw(lines, block)
  {
    hide RenderLines, RegionOf, NextHeader, Line.Render;
    FormFits(lines, block);
    var end := CommentRun(lines, block.end);
    var start;
    start, end := ClampToRegion(lines, block.header, end);
    raw := lines[block.header].Render();
    NoLines();
    RenderOne([], lines[block.header]);
    assert [] + [lines[block.header]] == lines[block.header..block.header + 1];
    for index := block.header + 1 to end
      invariant raw == RenderLines(lines[block.header..index])
    {
      RenderOne(lines[block.header..index], lines[index]);
      assert lines[block.header..index + 1] == lines[block.header..index] + [lines[index]];
      raw := raw + lines[index].Render();
    }
  }

  // ---- replacing ----

  function Headers(lines: seq<Line>): nat {
    if lines == [] then 0 else Headers(lines[..|lines| - 1]) + if IsHeader(lines[|lines| - 1]) then 1 else 0
  }

  /** The first directive, or the end. */
  function FirstDirective(lines: seq<Line>): (i: nat)
    ensures i <= |lines|
  {
    if lines == [] || lines[0].kind == Directive then 0 else 1 + FirstDirective(lines[1..])
  }

  function RawProblem(replacement: seq<Line>): Option<RawError> {
    var i := FirstDirective(replacement);
    if i == |replacement| || !IsHeader(replacement[i]) then Some(RawHeader)
    else if Headers(replacement) != 1 then Some(RawStructure)
    else None
  }

  function Replaced(lines: seq<Line>, block: Block, replacement: seq<Line>): seq<Line>
    requires 0 <= block.header <= block.end <= |lines| && replacement != []
  {
    lines[..block.header]
    + (if block.end < |lines| then Ended(replacement, FirstEnding(lines)) else replacement)
    + lines[block.end..]
  }

  method InspectRaw(replacement: seq<Line>) returns (headers: nat, firstDirective: int)
    ensures headers == Headers(replacement)
    ensures firstDirective == if FirstDirective(replacement) == |replacement| then -1 else FirstDirective(replacement)
  {
    hide IsHeader;
    headers, firstDirective := 0, -1;
    assert replacement[0..] == replacement;
    for index := 0 to |replacement|
      invariant headers == Headers(replacement[..index])
      invariant firstDirective < 0 ==> index + FirstDirective(replacement[index..]) == FirstDirective(replacement)
      invariant firstDirective >= 0 ==> firstDirective == FirstDirective(replacement) < |replacement|
      invariant firstDirective >= -1
    {
      assert replacement[..index + 1][..index] == replacement[..index];
      assert replacement[index..][1..] == replacement[index + 1..];
      HeaderLineIsDirective(replacement[index]);
      if replacement[index].kind == Directive {
        if firstDirective < 0 { firstDirective := index; }
        if IsHeader(replacement[index]) { headers := headers + 1; }
      }
    }
    assert replacement[..|replacement|] == replacement;
  }

  method ReplaceBlock(file: File, block: Block, raw: string) returns (error: Option<RawError>)
    requires IsBlock(file.lines, block)
    modifies file
    ensures block.header < 0 ==> error == Some(RawHeader)
    ensures block.header >= 0 ==> error == RawProblem(Parse(raw))
    ensures error != None ==> file.lines == old(file.lines)
    ensures error == None ==> Parse(raw) != [] && block.header >= 0 && file.lines == Replaced(old(file.lines), block, Parse(raw))
  {
    hide Parse, IsHeader, NextHeader, FirstEnding, Headers, FirstDirective;
    if block.header < 0 || block.header >= |file.lines| { return Some(RawHeader); }
    var replacement := ParseFile(raw);
    var headers, firstDirective := InspectRaw(replacement);
    if firstDirective < 0 { return Some(RawHeader); }
    if !IsHeader(replacement[firstDirective]) { return Some(RawHeader); }
    if headers != 1 { return Some(RawStructure); }
    ghost var parsed := replacement;
    if block.end < |file.lines| {
      var last := |replacement| - 1;
      if replacement[last].ending == "" {
        var ending := DominantEnding(file.lines);
        replacement := replacement[last := replacement[last].(ending := ending)];
      }
    }
    assert replacement == if block.end < |file.lines| then Ended(parsed, FirstEnding(file.lines)) else parsed;
    file.lines := file.lines[..block.header] + replacement + file.lines[block.end..];
    error := None;
  }

  lemma HeaderLineIsDirective(line: Line)
    ensures IsHeader(line) ==> line.kind == Directive
  {}

  // ---- writing back what was shown ----

  lemma {:induction false} OneHeader(lines: seq<Line>)
    requires lines != [] && IsHeader(lines[0]) && NoHeader(lines, 1, |lines|)
    ensures Headers(lines) == 1
  {
    hide IsHeader;
    if |lines| == 1 {
      assert lines[..0] == [] && Headers([]) == 0;
    } else {
      OneHeader(lines[..|lines| - 1]);
    }
  }

  lemma AllRead(lines: seq<Line>)
    requires |Parse(RenderLines(lines))| == |lines|
    requires forall i :: 0 <= i < |lines| ==> ReadsSame(lines[i]) && Parse(RenderLines(lines))[i] == Reread(lines[i])
    ensures Parse(RenderLines(lines)) == lines
  {
    hide Parse, RenderLines, Reread;
  }

  /** The text that is shown is accepted back, and reads as the lines it came from. */
  lemma ShownIsAccepted(lines: seq<Line>, block: Block)
    requires OthersRead(lines) && IsBlock(lines, block) && block.header >= 0
    ensures block.header < FormEnd(lines, block) <= |lines|
    ensures Parse(FormRaw(lines, block)) == lines[block.header..FormEnd(lines, block)] && RawProblem(Parse(FormRaw(lines, block))) == None
  {
    hide ReadsSame, Writable, RenderLines, Parse, FormEnd, IsHeader;
    FormFits(lines, block);
    var shown := lines[block.header..FormEnd(lines, block)];
    forall i | 0 <= i < |shown| ensures Writable(shown[i]) && ReadsSame(shown[i]) && (i + 1 < |shown| ==> shown[i].ending != "") {
      assert shown[i] == lines[block.header + i];
    }
    ParseRendered(shown);
    AllRead(shown);
    assert NoHeader(lines, block.start, block.end);
    OneHeader(shown);
    HeaderLineIsDirective(shown[0]);
  }

  /** Saving the text unchanged leaves the file as it is exactly when what is shown reaches
      the block's end; otherwise the next block's comment, or the generated region, goes. */
  lemma WritingBackKeepsIff(lines: seq<Line>, block: Block)
    requires OthersRead(lines) && IsBlock(lines, block) && block.header >= 0
    ensures Parse(FormRaw(lines, block)) != []
    ensures Replaced(lines, block, Parse(FormRaw(lines, block))) == lines <==> FormEnd(lines, block) == block.end
  {
    hide OthersRead, RenderLines, Parse, FormEnd, FormRaw, NextHeader;
    ShownIsAccepted(lines, block);
    FormFits(lines, block);
    var end := FormEnd(lines, block);
    var shown := lines[block.header..end];
    assert |Replaced(lines, block, shown)| == |lines| - (block.end - end);
    if end == block.end {
      if block.end < |lines| { NotLast(lines, block.end - 1); }
      assert lines[..block.header] + shown + lines[block.end..] == lines;
    }
  }

  lemma NotLast(lines: seq<Line>, i: nat)
    requires OthersRead(lines) && i + 1 < |lines|
    ensures lines[i].ending != ""
  {
    hide ReadsSame, Writable;
  }

  /** And then the lines in between are what is lost. */
  lemma WritingBackLoses(lines: seq<Line>, block: Block)
    requires OthersRead(lines) && IsBlock(lines, block) && block.header >= 0 && FormEnd(lines, block) < block.end
    ensures Parse(FormRaw(lines, block)) != []
    ensures Replaced(lines, block, Parse(FormRaw(lines, block))) == lines[..FormEnd(lines, block)] + lines[block.end..]
  {
    hide OthersRead, RenderLines, Parse, FormEnd, FormRaw, NextHeader;
    ShownIsAccepted(lines, block);
    FormFits(lines, block);
    var end := FormEnd(lines, block);
    NotLast(lines, end - 1);
    assert lines[..block.header] + lines[block.header..end] == lines[..end];
  }

  /** What is shown ends where the block's lines end that a move would take along. */
  lemma ShownGoesWith(lines: seq<Line>, block: Block)
    requires IsBlock(lines, block) && block.header >= 0 && WholeRegion(lines)
    ensures FormEnd(lines, block) == RunOf(lines, block).1
    ensures GoesWith(lines, block.header, RunOf(lines, block).0, FormEnd(lines, block))
  {
    hide MarkerAt, StartMarker, EndMarker, IsHeader, RegionOf;
    RunGoesWith(lines, block);
    HeaderNoComment(lines[block.header]);
  }

  /** One header, below nothing but lines that are no directives. */
  predicate SingleHeader(lines: seq<Line>, h: int) {
    && 0 <= h < |lines| && IsHeader(lines[h])
    && (forall i :: 0 <= i < h ==> lines[i].kind != Directive)
    && (forall i :: h < i < |lines| ==> !IsHeader(lines[i]))
  }

  lemma {:induction false} NoneCounted(lines: seq<Line>)
    ensures Headers(lines) == 0 <==> forall i :: 0 <= i < |lines| ==> !IsHeader(lines[i])
  {
    hide IsHeader;
    if lines != [] { NoneCounted(lines[..|lines| - 1]); }
  }

  lemma {:induction false} OneCounted(lines: seq<Line>, h: nat)
    requires h < |lines| && IsHeader(lines[h]) && forall i :: 0 <= i < h ==> !IsHeader(lines[i])
    ensures Headers(lines) >= 1
    ensures Headers(lines) == 1 <==> forall i :: h < i < |lines| ==> !IsHeader(lines[i])
  {
    hide IsHeader;
    var n := |lines| - 1;
    if h < n { OneCounted(lines[..n], h); } else { NoneCounted(lines[..n]); }
  }

  lemma {:induction false} FirstDirectiveIs(lines: seq<Line>)
    ensures var i := FirstDirective(lines);
            (i < |lines| ==> lines[i].kind == Directive) && forall j :: 0 <= j < i ==> lines[j].kind != Directive
  {
    if lines != [] && lines[0].kind != Directive {
      FirstDirectiveIs(lines[1..]);
      assert forall j :: 0 < j < |lines| ==> lines[j] == lines[1..][j - 1];
    }
  }

  /** A text is accepted exactly when it is one block: one header, and no setting above it. */
  lemma AcceptedIff(lines: seq<Line>)
    ensures RawProblem(lines) == None <==> exists h :: SingleHeader(lines, h)
    ensures RawProblem(lines) == Some(RawStructure) ==> exists i, j :: 0 <= i < j < |lines| && IsHeader(lines[i]) && IsHeader(lines[j])
    ensures RawProblem(lines) == Some(RawHeader) ==> forall i :: 0 <= i < |lines| && IsHeader(lines[i]) ==> exists j :: 0 <= j < i && lines[j].kind == Directive
  {
    hide IsHeader, Headers, FirstDirective;
    var f := FirstDirective(lines);
    FirstDirectiveIs(lines);
    forall i | 0 <= i < |lines| ensures IsHeader(lines[i]) ==> lines[i].kind == Directive { HeaderLineIsDirective(lines[i]); }
    if f < |lines| && IsHeader(lines[f]) {
      OneCounted(lines, f);
      if Headers(lines) == 1 { assert SingleHeader(lines, f); }
    }
    if h :| SingleHeader(lines, h) { assert h == f; }
    if RawProblem(lines) == Some(RawStructure) {
      var j :| f < j < |lines| && IsHeader(lines[j]);
    }
    if RawProblem(lines) == Some(RawHeader) {
      forall i | 0 <= i < |lines| && IsHeader(lines[i]) ensures exists j :: 0 <= j < i && lines[j].kind == Directive {
        assert f < i;
      }
    }
  }
}
