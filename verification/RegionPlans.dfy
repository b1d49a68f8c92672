/** When the region is written, and what is written. */
module RegionPlans {
  // When the generated region can be written into the entry file, where, and which bytes it
  // is, in terms of the file's lines: comments that are markers, headers, and Include lines
  // that reach the generated files already.

  import opened Results
  import opened Text
  import opened Syntax
  import opened Blocks
  import opened Reading
  import opened Reparse
  import opened Rewriting
  import opened Appending
  import opened Names
  import opened Regions
  import opened Moves

  // ---- markers ----

  predicate AllWhite(text: string) { forall i :: 0 <= i < |text| ==> IsWhite(text[i]) }

  /** The text with white space around it and nothing else, from position i on. */
  predicate StandsIn(text: string, part: string, i: int) {
    0 <= i <= |text| - |part| && text[i..i + |part|] == part && AllWhite(text[..i]) && AllWhite(text[i + |part|..])
  }

  lemma {:induction false} FrontTrimmed(text: string) returns (i: nat)
    ensures i <= |text| && TrimFront(text) == text[i..] && AllWhite(text[..i])
  {
    if text != "" && IsWhite(text[0]) {
      var k := FrontTrimmed(text[1..]);
      i := k + 1;
      assert text[1..][k..] == text[i..];
      forall j | 0 <= j < i ensures IsWhite(text[..i][j]) { assert j > 0 ==> text[1..][..k][j - 1] == text[j]; }
    } else {
      i := 0;
    }
  }

  lemma {:induction false} BackTrimmed(text: string) returns (n: nat)
    ensures n <= |text| && TrimBack(text) == text[..n] && AllWhite(text[n..])
  {
    if text != "" && IsWhite(text[|text| - 1]) {
      var front := text[..|text| - 1];
      n := BackTrimmed(front);
      assert front[..n] == text[..n];
      forall j | 0 <= j < |text| - n ensures IsWhite(text[n..][j]) { assert n + j < |front| ==> front[n..][j] == text[n..][j]; }
    } else {
      n := |text|;
    }
  }

  lemma {:induction false} FrontTrims(white: string, rest: string)
    requires AllWhite(white) && rest != "" && !IsWhite(rest[0])
    ensures TrimFront(white + rest) == rest
  {
    if white == "" {
      assert white + rest == rest;
    } else {
      assert (white + rest)[1..] == white[1..] + rest;
      FrontTrims(white[1..], rest);
    }
  }

  lemma {:induction false} BackTrims(rest: string, white: string)
    requires AllWhite(white) && rest != "" && !IsWhite(rest[|rest| - 1])
    ensures TrimBack(rest + white) == rest
  {
    if white == "" {
      assert rest + white == rest;
    } else {
      assert (rest + white)[..|rest + white| - 1] == rest + white[..|white| - 1];
      BackTrims(rest, white[..|white| - 1]);
    }
  }

  lemma TrimIff(text: string, part: string)
    requires Tight(part)
    ensures TrimSpace(text) == part <==> exists i :: StandsIn(text, part, i)
  {
    if TrimSpace(text) == part {
      var i := FrontTrimmed(text);
      var n := BackTrimmed(text[i..]);
      assert text[i..][..n] == text[i..i + n] && text[i..][n..] == text[i + n..];
      assert StandsIn(text, part, i);
    }
    if i :| StandsIn(text, part, i) {
      var white := text[i + |part|..];
      assert text == text[..i] + (part + white);
      FrontTrims(text[..i], part + white);
      BackTrims(part, white);
    }
  }

  /** A comment that is this marker, white space around it aside. */
  ghost predicate Marks(line: Line, marker: string) { line.kind == Comment && exists i :: StandsIn(line.text, marker, i) }

  ghost predicate FirstMark(lines: seq<Line>, marker: string, i: int) {
    0 <= i < |lines| && Marks(lines[i], marker) && forall j :: 0 <= j < i ==> !Marks(lines[j], marker)
  }

  /** The region's first marker and the first line that ends one, below it. */
  ghost predicate Stands(lines: seq<Line>, first: int, last: int) {
    FirstMark(lines, StartMarker(), first) && FirstMark(lines, EndMarker(), last) && first < last
  }

  ghost predicate AnyMark(lines: seq<Line>) {
    exists i :: 0 <= i < |lines| && (Marks(lines[i], StartMarker()) || Marks(lines[i], EndMarker()))
  }

  lemma MarkIff(line: Line, marker: string)
    requires Tight(marker)
    ensures IsMarker(line, marker) <==> Marks(line, marker)
  {
    TrimIff(line.text, marker);
  }

  lemma FirstMarkIff(lines: seq<Line>, marker: string)
    requires Tight(marker)
    ensures forall i :: FirstMark(lines, marker, i) <==> MarkerAt(lines, marker) == i && i >= 0
    ensures MarkerAt(lines, marker) < 0 <==> forall i :: 0 <= i < |lines| ==> !Marks(lines[i], marker)
  {
    hide Marks, IsMarker;
    MarkerFirst(lines, marker);
    forall i | 0 <= i < |lines| ensures IsMarker(lines[i], marker) <==> Marks(lines[i], marker) { MarkIff(lines[i], marker); }
    forall i ensures FirstMark(lines, marker, i) <==> MarkerAt(lines, marker) == i && i >= 0 {
      if FirstMark(lines, marker, i) { MarkerIs(lines, marker, i); }
    }
  }

  lemma RegionIff(lines: seq<Line>)
    ensures forall first, last :: Stands(lines, first, last) <==> RegionOf(lines).Found? && RegionOf(lines).start == first && RegionOf(lines).end == last
    ensures RegionOf(lines).Absent? <==> !AnyMark(lines)
  {
    hide FirstMark, Marks, MarkerAt;
    MarkersDiffer();
    FirstMarkIff(lines, StartMarker());
    FirstMarkIff(lines, EndMarker());
  }

  // ---- Include lines that reach the generated files ----

  /** The line is an Include read whatever the host, the lines from `first` to `last` left out of account,
      and a value names the compiled settings or a file of a group. */
  ghost predicate ReachedBy(lines: seq<Line>, first: int, last: int, i: int, groupsFile: string) {
    && 0 <= i < |lines| && !(first <= i <= last) && lines[i].kind == Directive && EqualFold(lines[i].keyword, "Include")
    && (forall h :: 0 <= h < i && !(first <= h <= last) ==> !IsHeader(lines[h]))
    && exists k :: 0 <= k < |lines[i].Values()| && ReachesGenerated(lines[i].Values()[k], groupsFile)
  }

  ghost predicate Unreached(lines: seq<Line>, first: int, last: int, groupsFile: string) {
    forall i :: !ReachedBy(lines, first, last, i, groupsFile)
  }

  predicate ReachesGenerated(value: string, groupsFile: string) {
    value == groupsFile || (|value| >= 12 && value[..12] == "connections/")
  }

  lemma ReachesIff(value: string, groups: seq<string>, groupsFile: string)
    ensures Reaches(value, groups, groupsFile) <==> ReachesGenerated(value, groupsFile)
  {
    var patterns := Patterns(groups, groupsFile);
    if value in patterns {
      var i :| 0 <= i < |patterns| && patterns[i] == value;
      if i < |groups| { assert value == ConnectionsPrefix + (groups[i] + IncludeSuffix); }
    }
    assert groupsFile == patterns[|groups|];
  }

  lemma GlobalIff(lines: seq<Line>, i: nat)
    requires i < |lines|
    ensures HeaderOver(lines, i) == -1 <==> forall h :: 0 <= h <= i ==> !IsHeader(lines[h])
  {
    hide IsHeader;
    var header := HeaderOver(lines, i);
    if header == -1 { assert NoHeader(lines, 0, i + 1); }
  }

  lemma ReachingIff(lines: seq<Line>, i: nat, groups: seq<string>, groupsFile: string)
    requires i < |lines|
    ensures ReachingInclude(lines, i, groups, groupsFile) <==> ReachedBy(lines, 0, -1, i, groupsFile)
  {
    hide Reaches, ReachesGenerated, Line.Values, HeaderOver;
    GlobalIff(lines, i);
    IncludeNoHeader(lines[i]);
    var values := lines[i].Values();
    forall k | 0 <= k < |values| ensures Reaches(values[k], groups, groupsFile) <==> ReachesGenerated(values[k], groupsFile) {
      ReachesIff(values[k], groups, groupsFile);
    }
  }

  lemma IncludeNoHeader(line: Line)
    ensures IsInclude(line) ==> !IsHeader(line)
  {
    assert Lower("Include") == "include" && Lower("Host") == "host" && Lower("Match") == "match";
  }

  /** With the region taken out, its lines are left out of account. */
  lemma WithoutIff(lines: seq<Line>, first: nat, last: nat, groupsFile: string)
    requires first <= last < |lines|
    ensures Unreached(Regions.Without(lines, first, last + 1), 0, -1, groupsFile) <==> Unreached(lines, first, last, groupsFile)
  {
    hide EqualFold, ReachesGenerated, Line.Values;
    var rest, n := Regions.Without(lines, first, last + 1), last + 1 - first;
    if i :| ReachedBy(rest, 0, -1, i, groupsFile) {
      var j := if i < first then i else i + n;
      assert lines[j] == rest[i];
      forall h | 0 <= h < j && !(first <= h <= last) ensures !IsHeader(lines[h]) {
        assert lines[h] == rest[if h < first then h else h - n];
      }
      assert ReachedBy(lines, first, last, j, groupsFile);
    }
    if i :| ReachedBy(lines, first, last, i, groupsFile) {
      var j := if i < first then i else i - n;
      assert rest[j] == lines[i];
      forall h | 0 <= h < j ensures !IsHeader(rest[h]) {
        assert rest[h] == lines[if h < first then h else h + n];
      }
      assert ReachedBy(rest, 0, -1, j, groupsFile);
    }
  }

  lemma IncludedIff(lines: seq<Line>, groups: seq<string>, groupsFile: string)
    ensures AlreadyIncluded(lines, groups, groupsFile) <==> exists i :: ReachedBy(lines, 0, -1, i, groupsFile)
  {
    hide ReachingInclude, ReachedBy;
    forall i | 0 <= i < |lines| ensures ReachingInclude(lines, i, groups, groupsFile) <==> ReachedBy(lines, 0, -1, i, groupsFile) {
      ReachingIff(lines, i, groups, groupsFile);
    }
    forall i ensures ReachedBy(lines, 0, -1, i, groupsFile) ==> 0 <= i < |lines| { ReachedWithin(lines, i, groupsFile); }
  }

  lemma ReachedWithin(lines: seq<Line>, i: int, groupsFile: string)
    ensures ReachedBy(lines, 0, -1, i, groupsFile) ==> 0 <= i < |lines|
  {}

  // ---- the plan ----

  predicate AllSpellable(groups: seq<string>, groupsFile: string) {
    Spellable(groupsFile) && forall i :: 0 <= i < |groups| ==> Spellable(groups[i])
  }

  lemma PatternSpellable(group: string)
    ensures Spellable(GroupIncludePattern(group)) <==> Spellable(group)
  {
    assert forall c :: c in GroupIncludePattern(group) <==> c in ConnectionsPrefix || c in group || c in IncludeSuffix;
    assert Spellable(ConnectionsPrefix) && Spellable(IncludeSuffix);
  }

  lemma PatternsIff(groups: seq<string>, groupsFile: string)
    ensures AllQuotable(Patterns(groups, groupsFile)) <==> AllSpellable(groups, groupsFile)
  {
    hide Unquotable, Spellable, GroupIncludePattern;
    var patterns := Patterns(groups, groupsFile);
    SpellableIff(groupsFile);
    forall i | 0 <= i < |groups| ensures !Unquotable(patterns[i]) <==> Spellable(groups[i]) {
      SpellableIff(patterns[i]);
      PatternSpellable(groups[i]);
    }
    assert patterns[|groups|] == groupsFile;
    if AllQuotable(patterns) {
      forall i | 0 <= i < |groups| ensures Spellable(groups[i]) { assert !Unquotable(patterns[i]); }
      assert !Unquotable(patterns[|groups|]);
    }
  }

  /** Below no header. */
  ghost predicate Topmost(lines: seq<Line>, i: int) { forall h :: 0 <= h < i && h < |lines| ==> !IsHeader(lines[h]) }

  /** Right above the comments that lead to the first header; at the end when there is none. */
  ghost predicate AboveHeaders(lines: seq<Line>, at: int) {
    && 0 <= at <= |lines| && Topmost(lines, at)
    && (at < |lines| ==> (exists next :: CommentsTo(lines, at, next) && next < |lines|) && (at > 0 ==> lines[at - 1].kind != Comment))
  }

  lemma PositionIs(lines: seq<Line>)
    ensures AboveHeaders(lines, RegionPosition(lines))
  {
    hide IsHeader;
    var h := NextHeader(lines, 0);
    if h < |lines| { assert CommentsTo(lines, CommentStart(lines, h), h); }
  }

  /** What each answer of the planner says.  The answers exclude one another and one is always given, so
      each is given exactly when what it says is the case. */
  ghost predicate Justified(lines: seq<Line>, groups: seq<string>, groupsFile: string, plan: Result<RegionPlan, RegionError>) {
    match plan
    case Err(RegionDamaged) => AnyMark(lines) && forall first, last :: !Stands(lines, first, last)
    case Err(CannotQuote) =>
      (AnyMark(lines) ==> exists first, last :: Stands(lines, first, last)) && !AllSpellable(groups, groupsFile)
    case Err(IncludeAlreadyPresent) =>
      && AllSpellable(groups, groupsFile)
      && if AnyMark(lines)
         then exists first, last :: Stands(lines, first, last) && !Topmost(lines, first) && !Unreached(lines, first, last, groupsFile)
         else !Unreached(lines, 0, -1, groupsFile)
    case Err(OutOfBounds) => false
    case Ok(Replace(from, to, _)) => AllSpellable(groups, groupsFile) && Stands(lines, from, to - 1) && Topmost(lines, from)
    case Ok(Relocate(from, to, at, _)) =>
      && AllSpellable(groups, groupsFile) && Stands(lines, from, to - 1) && !Topmost(lines, from) && to <= |lines|
      && Unreached(lines, from, to - 1, groupsFile) && AboveHeaders(lines[..from] + lines[to..], at)
    case Ok(Insert(at, _)) =>
      && AllSpellable(groups, groupsFile) && !AnyMark(lines)
      && Unreached(lines, 0, -1, groupsFile) && AboveHeaders(lines, at)
  }

  lemma MarkerNoHeader(lines: seq<Line>, first: int, last: int)
    requires Stands(lines, first, last)
    ensures 0 <= first < |lines| && !IsHeader(lines[first])
  {}

  lemma TopmostIff(lines: seq<Line>, i: nat)
    requires i < |lines| && !IsHeader(lines[i])
    ensures HeaderOver(lines, i) == -1 <==> Topmost(lines, i)
  {
    hide IsHeader, HeaderOver;
    GlobalIff(lines, i);
  }

  lemma PlanJustified(lines: seq<Line>, groups: seq<string>, groupsFile: string)
    ensures Justified(lines, groups, groupsFile, Planned(lines, groups, groupsFile))
  {
    hide MarkerAt, AlreadyIncluded, Patterns, AllQuotable, AllSpellable, FirstMark, AnyMark, HeaderOver, Topmost, AboveHeaders, RegionPosition, ReachedBy, RegionLines, IsHeader, FirstEnding;
    RegionIff(lines);
    PatternsIff(groups, groupsFile);
    match RegionOf(lines)
    case Found(first, last) =>
      assert Stands(lines, first, last);
      MarkerNoHeader(lines, first, last);
      TopmostIff(lines, first);
      var rest := Regions.Without(lines, first, last + 1);
      IncludedIff(rest, groups, groupsFile);
      WithoutIff(lines, first, last, groupsFile);
      PositionIs(rest);
    case _ =>
      IncludedIff(lines, groups, groupsFile);
      PositionIs(lines);
  }

  // ---- the bytes ----

  function IncludeBytes(groups: seq<string>, ending: string): string {
    if groups == [] then ""
    else IncludeBytes(groups[..|groups| - 1], ending) + "Include " + Spelling("connections/" + groups[|groups| - 1] + "/*.conf") + ending
  }

  lemma IncludeRenders(pattern: string, ending: string)
    requires !Unquotable(pattern)
    ensures IncludeLine(pattern, ending).Render() == "Include " + Spelling(pattern) + ending
  {
    QuotesIff(pattern);
    var line := IncludeLine(pattern, ending);
    assert line.arguments[1..] == [];
    assert RenderArguments(line.arguments) == line.arguments[0].raw;
    assert "" + "Include" + " " == "Include ";
  }

  lemma {:induction false} RenderedJoined(front: seq<Line>, back: seq<Line>)
    ensures RenderLines(front + back) == RenderLines(front) + RenderLines(back)
  {
    hide Line.Render;
    if front == [] {
      assert front + back == back;
    } else {
      assert (front + back)[1..] == front[1..] + back;
      RenderedJoined(front[1..], back);
    }
  }

  lemma RenderedOne(line: Line)
    ensures RenderLines([line]) == line.Render()
  {
    hide Line.Render;
    assert [line][1..] == [];
  }

  lemma {:induction false} IncludesRender(groups: seq<string>, ending: string, lines: seq<Line>)
    requires |lines| == |groups| && forall i :: 0 <= i < |groups| ==> !Unquotable(GroupIncludePattern(groups[i])) && lines[i] == IncludeLine(GroupIncludePattern(groups[i]), ending)
    ensures RenderLines(lines) == IncludeBytes(groups, ending)
  {
    hide Unquotable, IncludeLine, Line.Render, Spelling;
    if groups != [] {
      var n := |groups| - 1;
      IncludesRender(groups[..n], ending, lines[..n]);
      assert lines == lines[..n] + [lines[n]];
      RenderedJoined(lines[..n], [lines[n]]);
      RenderedOne(lines[n]);
      IncludeRenders(GroupIncludePattern(groups[n]), ending);
      assert GroupIncludePattern(groups[n]) == "connections/" + groups[n] + "/*.conf";
    }
  }

  lemma TextRenders(text: string, ending: string)
    ensures TextLine(Comment, text, ending).Render() == text + ending
  {}

  /** The region: its marker and its note, an Include for the files of every group, in the order given, one
      for the compiled settings, and its end. */
  lemma RegionBytes(groups: seq<string>, groupsFile: string, ending: string)
    requires AllQuotable(Patterns(groups, groupsFile))
    ensures RenderLines(RegionLines(groups, groupsFile, ending))
         == StartMarker() + ending + RegionNote() + ending
            + IncludeBytes(groups, ending) + "Include " + Spelling(groupsFile) + ending
            + EndMarker() + ending
  {
    hide Unquotable, IncludeLine, Line.Render, Spelling, StartMarker, EndMarker, RegionNote, TextLine, IncludeBytes, RenderLines, GroupIncludePattern;
    var patterns := Patterns(groups, groupsFile);
    var middle := IncludeLines(patterns, ending);
    assert !Unquotable(patterns[|groups|]);
    var first, note, last := TextLine(Comment, StartMarker(), ending), TextLine(Comment, RegionNote(), ending), TextLine(Comment, EndMarker(), ending);
    assert [first, note] == [first] + [note];
    assert middle == middle[..|groups|] + [middle[|groups|]];
    RenderedJoined([first], [note]);
    RenderedJoined([first, note], middle);
    RenderedJoined(middle[..|groups|], [middle[|groups|]]);
    RenderedJoined([first, note] + middle, [last]);
    RenderedOne(first);
    RenderedOne(note);
    RenderedOne(last);
    RenderedOne(middle[|groups|]);
    IncludesRender(groups, ending, middle[..|groups|]);
    IncludeRenders(groupsFile, ending);
    TextRenders(StartMarker(), ending);
    TextRenders(RegionNote(), ending);
    TextRenders(EndMarker(), ending);
  }
}
