/** The generated region of the entry file. */
module Regions {
  // The generated region of the entry file: two marker comments around one Include line
  // per group and one for the compiled settings.  It is found by its markers, planned
  // against the file, and written without touching any other line.

  import opened Results
  import opened Text
  import opened Syntax
  import opened Blocks
  import opened Reading
  import opened Reparse
  import opened Rewriting
  import opened Edits
  import opened Appending
  import opened Names

  datatype RegionError = RegionDamaged | IncludeAlreadyPresent | CannotQuote | OutOfBounds

  // ---- markers ----

  function StartMarker(): string {
    "# >>> sshc groups (generated). " + ("Child groups first: " + ("OpenSSH keeps the first " + "value it reads."))
  }

  function EndMarker(): string { "# <<< sshc groups" }

  function RegionNote(): string {
    "# Edit through the UI; " + ("lines between these markers are " + "replaced on the next save.")
  }

  predicate IsWhite(c: char) { c == ' ' || c == '\t' || c == '\n' || c == '\r' || c == 11 as char || c == 12 as char }

  function TrimFront(text: string): string { if text != "" && IsWhite(text[0]) then TrimFront(text[1..]) else text }

  function TrimBack(text: string): string {
    if text != "" && IsWhite(text[|text| - 1]) then TrimBack(text[..|text| - 1]) else text
  }

  function TrimSpace(text: string): string { TrimBack(TrimFront(text)) }

  /** A text with nothing to trim. */
  predicate Tight(text: string) { text != "" && !IsWhite(text[0]) && !IsWhite(text[|text| - 1]) }

  lemma MarkersDiffer()
    ensures Tight(StartMarker()) && Tight(EndMarker()) && Tight(RegionNote())
    ensures StartMarker()[0] == '#' && EndMarker()[0] == '#' && RegionNote()[0] == '#'
    ensures StartMarker() != EndMarker() && RegionNote() != StartMarker() && RegionNote() != EndMarker()
  {
    var a, b, c, d := "# >>> sshc groups (generated). ", "Child groups first: ", "OpenSSH keeps the first ", "value it reads.";

    var e, f, g := "# Edit through the UI; ", "lines between these markers are ", "replaced on the next save.";
    assert StartMarker()[2] == '>' && EndMarker()[2] == '<' && RegionNote()[2] == 'E';
  }

  lemma MarkersPlain()
    ensures Plain(StartMarker()) && Plain(EndMarker()) && Plain(RegionNote())
  {
    NotePlain();
  }

  lemma NotePlain()
    ensures Plain(RegionNote())
  {
    PlainConcat("lines between these markers are ", "replaced on the next save.");
    PlainConcat("# Edit through the UI; ", "lines between these markers are " + "replaced on the next save.");
  }

  predicate IsMarker(line: Line, marker: string) { line.kind == Comment && TrimSpace(line.text) == marker }

  // ---- finding it ----

  predicate NoMarker(lines: seq<Line>, marker: string, from: nat, to: int)
    requires to <= |lines|
  {
    forall i :: from <= i < to ==> !IsMarker(lines[i], marker)
  }

  /** The first line that is this marker, -1 when there is none. */
  function MarkerAt(lines: seq<Line>, marker: string): (i: int)
    ensures -1 <= i < |lines|
    ensures i >= 0 ==> IsMarker(lines[i], marker)
  {
    if lines == [] then -1
    else
      var before := MarkerAt(lines[..|lines| - 1], marker);
      if before >= 0 then before else if IsMarker(lines[|lines| - 1], marker) then |lines| - 1 else -1
  }

  lemma {:induction false} MarkerFirst(lines: seq<Line>, marker: string)
    ensures NoMarker(lines, marker, 0, if MarkerAt(lines, marker) < 0 then |lines| else MarkerAt(lines, marker))
  {
    hide IsMarker;
    if lines != [] {
      var front := lines[..|lines| - 1];
      MarkerFirst(front, marker);
      var n := if MarkerAt(front, marker) < 0 then |front| else MarkerAt(front, marker);
      forall i | 0 <= i < n ensures !IsMarker(lines[i], marker) { assert front[i] == lines[i]; }
    }
  }

  lemma MarkerIs(lines: seq<Line>, marker: string, i: nat)
    requires i < |lines| && IsMarker(lines[i], marker) && NoMarker(lines, marker, 0, i)
    ensures MarkerAt(lines, marker) == i
  {
    hide IsMarker;
    MarkerFirst(lines, marker);
  }

  datatype Span = Found(start: nat, end: nat) | Absent | Damaged

  function RegionOf(lines: seq<Line>): (span: Span)
    ensures span.Found? ==> span.start < span.end < |lines|
  {
    var start, end := MarkerAt(lines, StartMarker()), MarkerAt(lines, EndMarker());
    if start >= 0 && end > start then Found(start, end)
    else if start < 0 && end < 0 then Absent
    else Damaged
  }

  method FindRegion(lines: seq<Line>) returns (span: Span)
    ensures span == RegionOf(lines)
  {
    hide IsMarker, StartMarker, EndMarker, MarkerAt;
    var start, end := -1, -1;
    for index := 0 to |lines|
      invariant start == MarkerAt(lines[..index], StartMarker()) && end == MarkerAt(lines[..index], EndMarker())
    {
      MarkerNext(lines, index, StartMarker());
      MarkerNext(lines, index, EndMarker());
      MarkersApart(lines[index]);
      if IsMarker(lines[index], StartMarker()) {
        if start < 0 { start := index; }
      } else if IsMarker(lines[index], EndMarker()) {
        if end < 0 { end := index; }
      }
    }
    assert lines[..|lines|] == lines;
    if start >= 0 && end > start { return Found(start, end); }
    if start < 0 && end < 0 { return Absent; }
    return Damaged;
  }

  lemma MarkerNext(lines: seq<Line>, k: nat, marker: string)
    requires k < |lines|
    ensures MarkerAt(lines[..k + 1], marker) ==
      (if MarkerAt(lines[..k], marker) >= 0 then MarkerAt(lines[..k], marker) else if IsMarker(lines[k], marker) then k else -1)
  {
    assert lines[..k + 1][..k] == lines[..k];
  }

  lemma MarkersApart(line: Line)
    ensures !(IsMarker(line, StartMarker()) && IsMarker(line, EndMarker()))
  {
    MarkersDiffer();
  }

  /** A range of lines stopped short of the region, or started below it. */
  function Clamped(lines: seq<Line>, start: int, end: int): (int, int) {
    match RegionOf(lines)
    case Found(from, to) =>
      var e := if start < from < end then from else end;
      (if start <= to < e then to + 1 else start, e)
    case _ => (start, end)
  }

  method ClampToRegion(lines: seq<Line>, start: int, end: int) returns (from: int, to: int)
    ensures (from, to) == Clamped(lines, start, end)
  {
    from, to := start, end;
    var span := FindRegion(lines);
    match span {
      case Found(first, last) =>
        if first > from && first < to { to := first; }
        if last >= from && last < to { from := last + 1; }
      case _ =>
    }
  }

  /** The range that is left lies in the old one and holds no line of the region, unless the old one
      lay inside it; and what is given up is the region and, from a range that began above it,
      what comes below. */
  lemma ClampedKeepsOut(lines: seq<Line>, start: nat, end: nat, i: nat)
    requires RegionOf(lines).Found? && start <= i < end <= |lines|
    ensures var (from, to) := Clamped(lines, start, end);
            var first, last := RegionOf(lines).start, RegionOf(lines).end;
            && start <= from <= to <= end
            && (from <= i < to && first <= i <= last ==> first <= start && end <= last)
            && (!(from <= i < to) ==> if start < first then first <= i else i <= last)
  {
    hide MarkerAt;
  }

  // ---- conditions ----

  /** The text of the header that governs a block; empty for the global block only. */
  function Condition(lines: seq<Line>, header: int): string {
    if 0 <= header < |lines| then TrimSpace(lines[header].Render()) else ""
  }

  lemma {:induction false} TrimKeeps(text: string, i: nat)
    requires i < |text| && !IsWhite(text[i])
    ensures TrimFront(text) != "" && TrimBack(text) != ""
    ensures exists j :: 0 <= j < |TrimFront(text)| && !IsWhite(TrimFront(text)[j])
    decreases |text|
  {
    if IsWhite(text[0]) { TrimKeeps(text[1..], i - 1); } else { assert TrimFront(text)[i] == text[i]; }
    if IsWhite(text[|text| - 1]) {
      var front := text[..|text| - 1];
      assert front[i] == text[i];
      if IsWhite(text[0]) { TrimBackKeeps(front, i); } else { TrimBackKeeps(front, i); }
    }
  }

  lemma {:induction false} TrimBackKeeps(text: string, i: nat)
    requires i < |text| && !IsWhite(text[i])
    ensures TrimBack(text) != ""
    decreases |text|
  {
    if IsWhite(text[|text| - 1]) { TrimBackKeeps(text[..|text| - 1], i); }
  }

  lemma HeaderHasCondition(lines: seq<Line>, header: int)
    requires OpensBlock(lines, header)
    ensures Condition(lines, header) == "" <==> header == -1
  {
    if header >= 0 {
      var line := lines[header];
      assert line.keyword != "" by { assert Lower("Host") == "host" && Lower("Match") == "match"; }
      KeywordShows(line);
    }
  }

  lemma KeywordShows(line: Line)
    requires IsHeader(line)
    ensures TrimSpace(line.Render()) != ""
  {
    hide RenderArguments, TrimFront, TrimBack;
    var k := line.keyword;

    var text := line.Render();
    assert text[|line.indent|] == k[0];
    TrimKeeps(text, |line.indent|);
    var t := TrimFront(text);
    var j :| 0 <= j < |t| && !IsWhite(t[j]);
    TrimBackKeeps(t, j);
  }

  // ---- planning ----

  const ConnectionsPrefix: string := "connections/"
  const IncludeSuffix: string := "/*.conf"

  function GroupIncludePattern(name: string): string { ConnectionsPrefix + name + IncludeSuffix }

  function Patterns(groups: seq<string>, groupsFile: string): (patterns: seq<string>)
    ensures |patterns| == |groups| + 1
    ensures forall i :: 0 <= i < |groups| ==> patterns[i] == GroupIncludePattern(groups[i])
    ensures patterns[|groups|] == groupsFile
  {
    seq(|groups|, i requires 0 <= i < |groups| => GroupIncludePattern(groups[i])) + [groupsFile]
  }

  function IncludeLine(pattern: string, ending: string): Line
    requires !Unquotable(pattern)
  {
    Built("", "Include", [pattern], ending)
  }

  function IncludeLines(patterns: seq<string>, ending: string): (lines: seq<Line>)
    requires AllQuotable(patterns)
    ensures |lines| == |patterns|
    ensures forall i :: 0 <= i < |patterns| ==> lines[i] == IncludeLine(patterns[i], ending)
  {
    seq(|patterns|, i requires 0 <= i < |patterns| => IncludeLine(patterns[i], ending))
  }

  function RegionLines(groups: seq<string>, groupsFile: string, ending: string): seq<Line>
    requires AllQuotable(Patterns(groups, groupsFile))
  {
    [TextLine(Comment, StartMarker(), ending), TextLine(Comment, RegionNote(), ending)]
    + IncludeLines(Patterns(groups, groupsFile), ending)
    + [TextLine(Comment, EndMarker(), ending)]
  }

  datatype RegionPlan = Replace(from: nat, to: nat, lines: seq<Line>)
                      | Insert(at: nat, lines: seq<Line>)
                      | Relocate(from: nat, to: nat, at: nat, lines: seq<Line>)

  predicate Reaches(value: string, groups: seq<string>, groupsFile: string) {
    value in Patterns(groups, groupsFile) || HasPrefix(value, ConnectionsPrefix)
  }

  predicate ReachingInclude(lines: seq<Line>, i: nat, groups: seq<string>, groupsFile: string)
    requires i < |lines|
  {
    && lines[i].kind == Directive && IsInclude(lines[i]) && HeaderOver(lines, i) == -1
    && exists k :: 0 <= k < |lines[i].Values()| && Reaches(lines[i].Values()[k], groups, groupsFile)
  }

  /** Some unconditional Include reaches the generated files already. */
  predicate AlreadyIncluded(lines: seq<Line>, groups: seq<string>, groupsFile: string) {
    exists i :: 0 <= i < |lines| && ReachingInclude(lines, i, groups, groupsFile)
  }

  method CheckExistingIncludes(lines: seq<Line>, groups: seq<string>, groupsFile: string) returns (present: bool)
    ensures present == AlreadyIncluded(lines, groups, groupsFile)
  {
    hide IsInclude, Reaches, HeaderOver, NextHeader, Condition;
    for index := 0 to |lines|
      invariant forall i :: 0 <= i < index ==> !ReachingInclude(lines, i, groups, groupsFile)
    {
      var line := lines[index];
      if line.kind == Directive && IsInclude(line) {
        var block := BlockAt(lines, index);
        HeaderHasCondition(lines, block.header);
        if Condition(lines, block.header) == "" {
          var values := line.Values();
          for k := 0 to |values|
            invariant forall j :: 0 <= j < k ==> !Reaches(values[j], groups, groupsFile)
          {
            if Reaches(values[k], groups, groupsFile) {
              assert ReachingInclude(lines, index, groups, groupsFile);
              return true;
            }
          }
        }
      }
    }
    return false;
  }

  /** Above the comment of the first header, or at the end. */
  function RegionPosition(lines: seq<Line>): (at: nat)
    ensures at <= |lines|
  {
    var h := NextHeader(lines, 0);
    if h == |lines| then |lines| else CommentStart(lines, h)
  }

  method PlaceRegion(lines: seq<Line>) returns (at: nat)
    ensures at == RegionPosition(lines)
  {
    for index := 0 to |lines|
      invariant NoHeader(lines, 0, index)
    {
      if IsHeader(lines[index]) {
        NextHeaderIs(lines, 0, index);
        at := CommentRun(lines, index);
        return;
      }
    }
    NextHeaderIs(lines, 0, |lines|);
    return |lines|;
  }

  function Without(lines: seq<Line>, from: nat, to: nat): seq<Line>
    requires from <= to <= |lines|
  {
    lines[..from] + lines[to..]
  }

  /** Where the region belongs, or why it cannot be written. */
  function Planned(lines: seq<Line>, groups: seq<string>, groupsFile: string): Result<RegionPlan, RegionError> {
    var span := RegionOf(lines);
    if span.Damaged? then Err(RegionDamaged)
    else if !AllQuotable(Patterns(groups, groupsFile)) then Err(CannotQuote)
    else
      var region := RegionLines(groups, groupsFile, FirstEnding(lines));
      match span
      case Found(start, end) =>
        if HeaderOver(lines, start) == -1 then Ok(Replace(start, end + 1, region))
        else
          var without := Without(lines, start, end + 1);
          if AlreadyIncluded(without, groups, groupsFile) then Err(IncludeAlreadyPresent)
          else Ok(Relocate(start, end + 1, RegionPosition(without), region))
      case _ =>
        if AlreadyIncluded(lines, groups, groupsFile) then Err(IncludeAlreadyPresent)
        else Ok(Insert(RegionPosition(lines), region))
  }

  method BuildRegion(groups: seq<string>, groupsFile: string, ending: string) returns (lines: seq<Line>, ok: bool)
    ensures ok == AllQuotable(Patterns(groups, groupsFile))
    ensures ok ==> lines == RegionLines(groups, groupsFile, ending)
  {
    hide StartMarker, EndMarker, RegionNote, GroupIncludePattern, Unquotable;
    lines := [TextLine(Comment, StartMarker(), ending), TextLine(Comment, RegionNote(), ending)];
    var patterns := Patterns(groups, groupsFile);
    ghost var head := lines;
    for k := 0 to |patterns|
      invariant AllQuotable(patterns[..k])
      invariant lines == head + IncludeLines(patterns[..k], ending)
    {
      var written, good := WriteValues([], [patterns[k]]);
      assert [patterns[k]][0] == patterns[k];
      if !good { return [], false; }
      assert patterns[..k + 1] == patterns[..k] + [patterns[k]];
      assert IncludeLines(patterns[..k + 1], ending) == IncludeLines(patterns[..k], ending) + [IncludeLine(patterns[k], ending)];
      lines := lines + [DirectiveLine("", "Include", " ", written, "", ending)];
    }
    assert patterns[..|patterns|] == patterns;
    lines := lines + [TextLine(Comment, EndMarker(), ending)];
    ok := true;
  }

  method PlanRegion(lines: seq<Line>, groups: seq<string>, groupsFile: string) returns (plan: Result<RegionPlan, RegionError>)
    ensures plan == Planned(lines, groups, groupsFile)
  {
    hide RegionLines, AlreadyIncluded, Condition, Patterns, AllQuotable, HeaderOver, NextHeader;
    var span := FindRegion(lines);
    if span.Damaged? { return Err(RegionDamaged); }
    var ending := DominantEnding(lines);
    var region, ok := BuildRegion(groups, groupsFile, ending);
    if !ok { return Err(CannotQuote); }
    if span.Found? {
      var block := BlockAt(lines, span.start);
      HeaderHasCondition(lines, block.header);
      if Condition(lines, block.header) == "" { return Ok(Replace(span.start, span.end + 1, region)); }
      var without := lines[..span.start] + lines[span.end + 1..];
      var present := CheckExistingIncludes(without, groups, groupsFile);
      if present { return Err(IncludeAlreadyPresent); }
      var at := PlaceRegion(without);
      return Ok(Relocate(span.start, span.end + 1, at, region));
    }
    var present := CheckExistingIncludes(lines, groups, groupsFile);
    if present { return Err(IncludeAlreadyPresent); }
    var at := PlaceRegion(lines);
    return Ok(Insert(at, region));
  }

  // ---- writing ----

  predicate Fits(plan: RegionPlan, lines: seq<Line>) {
    match plan
    case Replace(from, to, _) => from <= to <= |lines|
    case Insert(at, _) => at <= |lines|
    case Relocate(from, to, at, _) => from <= to <= |lines| && at <= |lines| - (to - from)
  }

  function InsertedAll(lines: seq<Line>, at: nat, region: seq<Line>): seq<Line>
    requires at <= |lines|
  {
    if region == [] then lines else Ended(lines[..at], region[0].ending) + region + lines[at..]
  }

  function Installed(lines: seq<Line>, plan: RegionPlan): seq<Line>
    requires Fits(plan, lines)
  {
    match plan
    case Replace(from, to, region) => lines[..from] + region + lines[to..]
    case Insert(at, region) => InsertedAll(lines, at, region)
    case Relocate(from, to, at, region) => InsertedAll(Without(lines, from, to), at, region)
  }

  method InsertLines(file: File, at: nat, region: seq<Line>)
    requires at <= |file.lines| && forall i :: 0 <= i < |region| ==> region[i].ending != ""
    modifies file
    ensures file.lines == InsertedAll(old(file.lines), at, region)
  {
    ghost var was := file.lines;
    assert was == was[..at] + was[at..];
    for offset := 0 to |region|
      invariant at + offset <= |file.lines|
      invariant file.lines == InsertedAll(was, at, region[..offset])
    {
      InsertLine(file, at + offset, region[offset]);
    }
    assert region[..|region|] == region;
  }

  method ApplyRegion(file: File, plan: RegionPlan) returns (error: Option<RegionError>)
    requires forall i :: 0 <= i < |plan.lines| ==> plan.lines[i].ending != ""
    modifies file
    ensures error == None ==> Fits(plan, old(file.lines)) && file.lines == Installed(old(file.lines), plan)
    ensures Fits(plan, old(file.lines)) ==> error == None
  {
    hide InsertedAll;
    match plan {
      case Replace(from, to, region) =>
        if to > |file.lines| || from > to { return Some(OutOfBounds); }
        file.lines := file.lines[..from] + region + file.lines[to..];
      case Insert(at, region) =>
        if at > |file.lines| { return Some(OutOfBounds); }
        InsertLines(file, at, region);
      case Relocate(from, to, at, region) =>
        if to > |file.lines| || from > to { return Some(OutOfBounds); }
        file.lines := file.lines[..from] + file.lines[to..];
        if at > |file.lines| { return Some(OutOfBounds); }
        InsertLines(file, at, region);
    }
    error := None;
  }

  // ---- reading it ----

  /** The group an Include value names: a valid name between the directory and the pattern. */
  function NamedGroup(value: string): Option<string> {
    if HasPrefix(value, ConnectionsPrefix) && HasSuffix(value, IncludeSuffix) then
      var rest := value[|ConnectionsPrefix|..];
      var name := if HasSuffix(rest, IncludeSuffix) then rest[..|rest| - |IncludeSuffix|] else rest;
      if ValidName(name) then Some(name) else None
    else None
  }

  function AddGroups(names: seq<string>, values: seq<string>): seq<string>
    decreases values
  {
    if values == [] then names
    else
      var named := NamedGroup(values[0]);
      AddGroups(if named == None || named.value in names then names else names + [named.value], values[1..])
  }

  function GroupsIn(lines: seq<Line>, start: nat, end: nat): seq<string>
    requires start <= end <= |lines|
    decreases end - start
  {
    if start == end then []
    else
      var before := GroupsIn(lines, start, end - 1);
      if IsInclude(lines[end - 1]) then AddGroups(before, lines[end - 1].Values()) else before
  }

  function Declared(lines: seq<Line>): seq<string> {
    match RegionOf(lines)
    case Found(start, end) => GroupsIn(lines, start, end)
    case _ => []
  }

  method DeclaredGroups(lines: seq<Line>) returns (names: seq<string>)
    ensures names == Declared(lines)
  {
    hide NamedGroup, IsInclude, RegionOf, ValidName;
    var span := FindRegion(lines);
    if !span.Found? { return []; }
    names := [];
    var seen: set<string> := {};
    for index := span.start to span.end
      invariant names == GroupsIn(lines, span.start, index)
      invariant forall name :: name in seen <==> name in names
    {
      if IsInclude(lines[index]) {
        var values := lines[index].Values();
        ghost var before := names;
        assert values[0..] == values;
        for k := 0 to |values|
          invariant AddGroups(before, values) == AddGroups(names, values[k..])
          invariant forall name :: name in seen <==> name in names
        {
          assert values[k..][1..] == values[k + 1..];
          var named := NamedGroup(values[k]);
          if named.Some? && named.value !in seen {
            seen := seen + {named.value};
            names := names + [named.value];
          }
        }
      }
    }
  }
}
