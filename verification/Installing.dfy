/**
 What installing the generated region achieves: the region is where every line of it
 is read unconditionally, it declares exactly the groups, nothing else has changed,
 and installing it again changes no byte; and, through the bytes, exactly when the one
 line that may gain a newline spoils that.
 */
module Installing {
  import opened Results
  import opened Text
  import opened Syntax
  import opened Blocks
  import opened Reading
  import opened Reparse
  import opened Rewriting
  import opened Surviving
  import opened Edits
  import opened Appending
  import opened EditReads
  import opened Names
  import opened Regions

  // ---- the other lines ----

  /** The lines that are not the region. */
  function Others(lines: seq<Line>): (others: seq<Line>)
    ensures |others| <= |lines|
  {
    match RegionOf(lines)
    case Found(start, end) => Without(lines, start, end + 1)
    case _ => lines
  }

  /** How many of them come before the region once it is installed. */
  function Above(lines: seq<Line>): (n: nat)
    ensures n <= |Others(lines)|
  {
    match RegionOf(lines)
    case Found(start, end) => if HeaderOver(lines, start) == -1 then start else RegionPosition(Others(lines))
    case _ => RegionPosition(lines)
  }

  /** The file with the region in it. */
  function WithRegion(lines: seq<Line>, groups: seq<string>, groupsFile: string): seq<Line>
    requires AllQuotable(Patterns(groups, groupsFile))
  {
    var e, others, n := FirstEnding(lines), Others(lines), Above(lines);
    Ended(others[..n], e) + RegionLines(groups, groupsFile, e) + others[n..]
  }

  lemma RegionEndings(groups: seq<string>, groupsFile: string, ending: string)
    requires AllQuotable(Patterns(groups, groupsFile))
    ensures var region := RegionLines(groups, groupsFile, ending);
            |region| == |groups| + 4 && region[0] == TextLine(Comment, StartMarker(), ending)
            && region[|region| - 1] == TextLine(Comment, EndMarker(), ending)
            && forall i :: 0 <= i < |region| ==> region[i].ending == ending
  {
    hide StartMarker, EndMarker, RegionNote, Patterns, Unquotable, Written;
    var region := RegionLines(groups, groupsFile, ending);
    forall i | 0 <= i < |region| ensures region[i].ending == ending {
      if 2 <= i < |region| - 1 {
        assert region[i] == IncludeLine(Patterns(groups, groupsFile)[i - 2], ending);
      }
    }
  }

  lemma Replaced(lines: seq<Line>, groups: seq<string>, groupsFile: string, start: nat, end: nat)
    requires WritableFile(lines) && RegionOf(lines) == Found(start, end) && HeaderOver(lines, start) == -1
    requires AllQuotable(Patterns(groups, groupsFile))
    ensures lines[..start] + RegionLines(groups, groupsFile, FirstEnding(lines)) + lines[end + 1..] == WithRegion(lines, groups, groupsFile)
  {
    hide RegionLines, Patterns, HeaderOver, Writable, FirstEnding, MarkerAt, AllQuotable;
    var others := Others(lines);
    assert others[..start] == lines[..start] && others[start..] == lines[end + 1..];
    if start > 0 { assert lines[start - 1].ending != ""; }
    assert Ended(lines[..start], FirstEnding(lines)) == lines[..start];
  }

  lemma InsertedIs(lines: seq<Line>, at: nat, groups: seq<string>, groupsFile: string, ending: string)
    requires at <= |lines| && AllQuotable(Patterns(groups, groupsFile))
    ensures InsertedAll(lines, at, RegionLines(groups, groupsFile, ending))
         == Ended(lines[..at], ending) + RegionLines(groups, groupsFile, ending) + lines[at..]
  {
    hide RegionLines, Patterns, Ended, AllQuotable;
    RegionEndings(groups, groupsFile, ending);
  }

  /** All three ways of writing the region come to the same. */
  lemma InstalledIs(lines: seq<Line>, groups: seq<string>, groupsFile: string, plan: RegionPlan)
    requires WritableFile(lines) && Planned(lines, groups, groupsFile) == Ok(plan)
    ensures AllQuotable(Patterns(groups, groupsFile)) && Fits(plan, lines)
    ensures Installed(lines, plan) == WithRegion(lines, groups, groupsFile)
  {
    hide RegionLines, AlreadyIncluded, Patterns, HeaderOver, WritableFile, FirstEnding, RegionOf, RegionPosition, Ended, AllQuotable, InsertedAll;
    match plan
    case Replace(from, to, _) => Replaced(lines, groups, groupsFile, from, to - 1);
    case _ =>
      var others, at := Others(lines), Above(lines);
      InsertedIs(others, at, groups, groupsFile, FirstEnding(lines));
  }

  // ---- where the region is ----

  lemma AboveRegion(lines: seq<Line>)
    requires !RegionOf(lines).Damaged?
    ensures NoMarker(Others(lines), StartMarker(), 0, Above(lines)) && NoMarker(Others(lines), EndMarker(), 0, Above(lines))
    ensures NoHeader(Others(lines), 0, Above(lines))
    ensures RegionOf(lines).Found? ==> Above(lines) <= RegionOf(lines).start
    ensures Above(lines) > 0 ==> lines != [] && Others(lines)[0] == lines[0]
  {
    hide IsMarker, MarkerAt, StartMarker, EndMarker, IsHeader;
    MarkerFirst(lines, StartMarker());
    MarkerFirst(lines, EndMarker());
    var others, n := Others(lines), Above(lines);
    match RegionOf(lines)
    case Found(start, end) =>
      assert others[..start] == lines[..start];
      forall i | 0 <= i < start ensures others[i] == lines[i] {}
      var h := HeaderOver(lines, start);
      if h >= 0 {
        InsideRegionNoHeader(lines, start, h);
        assert others[h] == lines[h];
      }
    case _ =>
  }

  /** A region inside a block has that block's header above it. */
  lemma InsideRegionNoHeader(lines: seq<Line>, start: nat, h: int)
    requires start < |lines| && IsMarker(lines[start], StartMarker()) && h == HeaderOver(lines, start) && h >= 0
    ensures h < start
  {}

  lemma EndedKeepsMarker(line: Line, ending: string, marker: string)
    ensures IsMarker(line.(ending := ending), marker) <==> IsMarker(line, marker)
    ensures IsHeader(line.(ending := ending)) <==> IsHeader(line)
  {}

  lemma TightMarker(marker: string, ending: string, other: string)
    requires Tight(marker)
    ensures IsMarker(TextLine(Comment, marker, ending), other) <==> marker == other
    ensures !IsHeader(TextLine(Comment, marker, ending))
  {}

  /** Nothing but the first line of the region is its start, and nothing but its last its end. */
  lemma RegionMarkers(groups: seq<string>, groupsFile: string, ending: string)
    requires AllQuotable(Patterns(groups, groupsFile))
    ensures var region := RegionLines(groups, groupsFile, ending);
            && IsMarker(region[0], StartMarker()) && IsMarker(region[|region| - 1], EndMarker()) && !IsHeader(region[0])
            && NoMarker(region, EndMarker(), 0, |region| - 1)
  {
    hide StartMarker, EndMarker, RegionNote, Patterns, Unquotable, Written, TrimSpace, EqualFold;
    var region := RegionLines(groups, groupsFile, ending);
    MarkersDiffer();
    TightMarker(StartMarker(), ending, StartMarker());
    TightMarker(StartMarker(), ending, EndMarker());
    TightMarker(RegionNote(), ending, EndMarker());
    TightMarker(EndMarker(), ending, EndMarker());
    forall i | 0 <= i < |region| - 1 ensures !IsMarker(region[i], EndMarker()) {
      if i >= 2 { assert region[i] == IncludeLine(Patterns(groups, groupsFile)[i - 2], ending); }
    }
  }

  /** The region stands where it was put, above every header, so it is read unconditionally. */
  lemma RegionStands(lines: seq<Line>, groups: seq<string>, groupsFile: string)
    requires !RegionOf(lines).Damaged? && AllQuotable(Patterns(groups, groupsFile))
    ensures var after, n := WithRegion(lines, groups, groupsFile), Above(lines);
            RegionOf(after) == Found(n, n + |groups| + 3) && HeaderOver(after, n) == -1
  {
    hide IsMarker, StartMarker, EndMarker, IsHeader, RegionLines, RegionOf, MarkerAt, Others, Above, FirstEnding, Ended, Patterns, Unquotable;
    var e, n := FirstEnding(lines), Above(lines);
    var after, front := WithRegion(lines, groups, groupsFile), Others(lines)[..n];
    var region := RegionLines(groups, groupsFile, e);
    AboveRegion(lines);
    RegionEndings(groups, groupsFile, e);
    RegionMarkers(groups, groupsFile, e);
    forall i | 0 <= i < n ensures !IsMarker(after[i], StartMarker()) && !IsMarker(after[i], EndMarker()) && !IsHeader(after[i]) {
      assert after[i] == Ended(front, e)[i];
      EndedKeepsMarker(front[i], e, StartMarker());
      EndedKeepsMarker(front[i], e, EndMarker());
    }
    forall i | 0 <= i < |region| ensures after[n + i] == region[i] {}
    forall i | n <= i < n + |region| - 1 ensures !IsMarker(after[i], EndMarker()) {
      assert after[i] == region[i - n];
    }
    MarkerIs(after, StartMarker(), n);
    MarkerIs(after, EndMarker(), n + |region| - 1);
    FoundBetween(after, n, n + |region| - 1);
  }

  lemma FoundBetween(lines: seq<Line>, start: nat, end: nat)
    requires start < end < |lines| && MarkerAt(lines, StartMarker()) == start && MarkerAt(lines, EndMarker()) == end
    ensures RegionOf(lines) == Found(start, end)
  {}

  // ---- what it declares ----

  predicate GoodGroups(groups: seq<string>) {
    && (forall i :: 0 <= i < |groups| ==> ValidName(groups[i]))
    && (forall i, j :: 0 <= i < j < |groups| ==> groups[i] != groups[j])
  }

  lemma PatternNames(name: string)
    requires ValidName(name)
    ensures NamedGroup(GroupIncludePattern(name)) == Some(name)
  {
    hide ValidName;
    var value := GroupIncludePattern(name);
    assert value[|ConnectionsPrefix|..] == name + IncludeSuffix;
    assert value[|value| - |IncludeSuffix|..] == IncludeSuffix;
    assert (name + IncludeSuffix)[|name|..] == IncludeSuffix;
    assert (name + IncludeSuffix)[..|name|] == name;
  }

  lemma IncludeSays(pattern: string, ending: string)
    requires !Unquotable(pattern)
    ensures IsInclude(IncludeLine(pattern, ending)) && IncludeLine(pattern, ending).Values() == [pattern]
  {
    hide Unquotable, Written, ArgumentValues;
    BuiltSays("", "Include", [pattern], ending);
  }

  lemma AddOneGroup(names: seq<string>, value: string)
    ensures AddGroups(names, [value]) == if NamedGroup(value) == None || NamedGroup(value).value in names then names else names + [NamedGroup(value).value]
  {
    hide NamedGroup;
    assert [value][1..] == [];
  }

  lemma GroupStep(lines: seq<Line>, start: nat, end: nat, pattern: string, ending: string)
    requires start < end <= |lines| && !Unquotable(pattern) && lines[end - 1] == IncludeLine(pattern, ending)
    ensures var before := GroupsIn(lines, start, end - 1);
            GroupsIn(lines, start, end)
            == if NamedGroup(pattern) == None || NamedGroup(pattern).value in before then before else before + [NamedGroup(pattern).value]
  {
    hide NamedGroup, IsInclude, AddGroups, Unquotable, IncludeLine;
    IncludeSays(pattern, ending);
    AddOneGroup(GroupsIn(lines, start, end - 1), pattern);
  }

  /** The region's lines up to the last group stand in the file from `start` on. */
  predicate HoldsGroups(lines: seq<Line>, start: nat, groups: seq<string>, groupsFile: string, ending: string)
    requires AllQuotable(Patterns(groups, groupsFile))
  {
    var region := RegionLines(groups, groupsFile, ending);
    start + |groups| + 2 <= |lines| && |region| >= |groups| + 2 && forall i :: 0 <= i < |groups| + 2 ==> lines[start + i] == region[i]
  }

  lemma HeldLine(lines: seq<Line>, start: nat, groups: seq<string>, groupsFile: string, ending: string, k: nat)
    requires AllQuotable(Patterns(groups, groupsFile)) && HoldsGroups(lines, start, groups, groupsFile, ending) && k < |groups|
    ensures start + |groups| + 2 <= |lines|
    ensures !Unquotable(GroupIncludePattern(groups[k])) && lines[start + 2 + k] == IncludeLine(GroupIncludePattern(groups[k]), ending)
  {
    hide RegionLines, Unquotable, Patterns, IncludeLine, GroupIncludePattern;
    RegionLineAt(groups, groupsFile, ending, k);
    assert lines[start + (2 + k)] == RegionLines(groups, groupsFile, ending)[2 + k];
  }

  /** The region's lines, one group after another. */
  lemma {:induction false} GroupsSoFar(lines: seq<Line>, start: nat, groups: seq<string>, groupsFile: string, ending: string, k: nat)
    requires AllQuotable(Patterns(groups, groupsFile)) && GoodGroups(groups) && k <= |groups|
    requires HoldsGroups(lines, start, groups, groupsFile, ending)
    ensures start + |groups| + 2 <= |lines| && GroupsIn(lines, start, start + 2 + k) == groups[..k]
  {
    hide HoldsGroups, NamedGroup, ValidName, GroupsIn, Unquotable, Patterns, GroupIncludePattern, IncludeLine;
    if k == 0 {
      NoGroupsYet(lines, start, groups, groupsFile, ending);
    } else {
      GroupsSoFar(lines, start, groups, groupsFile, ending, k - 1);
      HeldLine(lines, start, groups, groupsFile, ending, k - 1);
      GroupStep(lines, start, start + 2 + k, GroupIncludePattern(groups[k - 1]), ending);
      PatternNames(groups[k - 1]);
      assert groups[..k] == groups[..k - 1] + [groups[k - 1]];
    }
  }

  lemma NoGroupsYet(lines: seq<Line>, start: nat, groups: seq<string>, groupsFile: string, ending: string)
    requires AllQuotable(Patterns(groups, groupsFile)) && HoldsGroups(lines, start, groups, groupsFile, ending)
    ensures start + |groups| + 2 <= |lines| && GroupsIn(lines, start, start + 2) == []
  {
    hide StartMarker, EndMarker, RegionNote, Patterns, Unquotable, IncludeLine;
    var region := RegionLines(groups, groupsFile, ending);
    assert lines[start + 0] == region[0] && lines[start + 1] == region[1];
    assert GroupsIn(lines, start, start) == [];
    assert GroupsIn(lines, start, start + 1) == [];
  }

  lemma RegionLineAt(groups: seq<string>, groupsFile: string, ending: string, k: nat)
    requires AllQuotable(Patterns(groups, groupsFile)) && k <= |groups|
    ensures var pattern := if k < |groups| then GroupIncludePattern(groups[k]) else groupsFile;
            !Unquotable(pattern) && RegionLines(groups, groupsFile, ending)[k + 2] == IncludeLine(pattern, ending)
  {
    hide StartMarker, EndMarker, RegionNote, Unquotable, GroupIncludePattern, IncludeLine;
    assert Patterns(groups, groupsFile)[k] == if k < |groups| then GroupIncludePattern(groups[k]) else groupsFile;
  }

  /** None of the values names a group that is not among these. */
  predicate NamesNothingNew(values: seq<string>, groups: seq<string>) {
    forall i :: 0 <= i < |values| ==> NamedGroup(values[i]) == None || NamedGroup(values[i]).value in groups
  }

  lemma DeclaresIff(lines: seq<Line>, start: nat, groups: seq<string>, groupsFile: string, ending: string, values: seq<string>)
    requires AllQuotable(Patterns(groups, groupsFile)) && GoodGroups(groups) && HoldsGroups(lines, start, groups, groupsFile, ending)
    requires RegionOf(lines) == Found(start, start + |groups| + 3) && |values| <= 1
    requires IsInclude(lines[start + |groups| + 2]) && lines[start + |groups| + 2].Values() == values
    ensures Declared(lines) == groups <==> NamesNothingNew(values, groups)
  {
    hide RegionOf, HoldsGroups, NamedGroup, ValidName, Unquotable, Patterns, IsInclude, GroupsIn;
    GroupsSoFar(lines, start, groups, groupsFile, ending, |groups|);
    assert groups[..|groups|] == groups;
    DeclaredIs(lines, start, start + |groups| + 3);
    LastInclude(lines, start, start + |groups| + 3);
    if values == [] {
      assert AddGroups(groups, []) == groups;
    } else {
      assert values == [values[0]];
      AddOneGroup(groups, values[0]);
      var named := NamedGroup(values[0]);
      if named != None && named.value !in groups { assert |groups + [named.value]| == |groups| + 1; }
    }
  }

  lemma LastInclude(lines: seq<Line>, start: nat, end: nat)
    requires start < end <= |lines| && IsInclude(lines[end - 1])
    ensures GroupsIn(lines, start, end) == AddGroups(GroupsIn(lines, start, end - 1), lines[end - 1].Values())
  {
    hide IsInclude, AddGroups;
  }

  /** The installed region declares exactly the groups, in order, unless the settings file
      itself is named like one more group's. */
  lemma RegionDeclares(lines: seq<Line>, groups: seq<string>, groupsFile: string)
    requires !RegionOf(lines).Damaged? && AllQuotable(Patterns(groups, groupsFile)) && GoodGroups(groups)
    ensures Declared(WithRegion(lines, groups, groupsFile)) == groups <==> NamesNothingNew([groupsFile], groups)
  {
    hide RegionLines, NamedGroup, ValidName, Unquotable, Patterns, RegionOf, HeaderOver, Others, Above, FirstEnding, GroupsIn, IncludeLine, Ended;
    var e, n, after := FirstEnding(lines), Above(lines), WithRegion(lines, groups, groupsFile);
    RegionStands(lines, groups, groupsFile);
    RegionEndings(groups, groupsFile, e);
    RegionLineAt(groups, groupsFile, e, |groups|);
    IncludeSays(groupsFile, e);
    assert after[n + (|groups| + 2)] == RegionLines(groups, groupsFile, e)[|groups| + 2];
    assert HoldsGroups(after, n, groups, groupsFile, e);
    DeclaresIff(after, n, groups, groupsFile, e, [groupsFile]);
  }

  lemma DeclaredIs(lines: seq<Line>, start: nat, end: nat)
    requires RegionOf(lines) == Found(start, end)
    ensures Declared(lines) == GroupsIn(lines, start, end)
  {}

  // ---- again ----

  lemma SameEnding(lines: seq<Line>, groups: seq<string>, groupsFile: string)
    requires WritableFile(lines) && !RegionOf(lines).Damaged? && AllQuotable(Patterns(groups, groupsFile))
    ensures FirstEnding(WithRegion(lines, groups, groupsFile)) == FirstEnding(lines)
  {
    hide RegionLines, RegionOf, Others, Above, Patterns, Writable, Unquotable;
    var e, n, after := FirstEnding(lines), Above(lines), WithRegion(lines, groups, groupsFile);
    AboveRegion(lines);
    RegionEndings(groups, groupsFile, e);
    if n == 0 {
      assert after[0] == RegionLines(groups, groupsFile, e)[0];
    } else {
      assert after[0] == Ended(Others(lines)[..n], e)[0];
    }
  }

  /** Planning again finds the region in place, and writing it again changes nothing. */
  lemma InstalledAgain(lines: seq<Line>, groups: seq<string>, groupsFile: string)
    requires WritableFile(lines) && !RegionOf(lines).Damaged? && AllQuotable(Patterns(groups, groupsFile))
    ensures var after := WithRegion(lines, groups, groupsFile);
            var again := Planned(after, groups, groupsFile);
            again.Ok? && again.value.Replace? && Fits(again.value, after) && Installed(after, again.value) == after
  {
    hide RegionLines, RegionOf, Others, Above, Patterns, AlreadyIncluded, FirstEnding, Ended, HeaderOver, Unquotable, WritableFile;
    var e, n, after := FirstEnding(lines), Above(lines), WithRegion(lines, groups, groupsFile);
    RegionStands(lines, groups, groupsFile);
    SameEnding(lines, groups, groupsFile);
    RegionEndings(groups, groupsFile, e);
    var front, back := Ended(Others(lines)[..n], e), Others(lines)[n..];
    assert after[..n] == front && after[n + |groups| + 4..] == back;
  }

  // ---- through the bytes ----

  predicate ReadsSame(line: Line) { Reread(line) == line }

  lemma ParseLineEnding(content: string, ending: string, other: string)
    ensures ParseLine(content, other) == ParseLine(content, ending).(ending := other)
  {
    hide SplitArguments, SeparatorRun, SpaceRun, KeywordRun;
  }

  lemma ParsedLineReadsSame(content: string, ending: string)
    requires ending == "\n" ==> !HasSuffix(content, "\r")
    ensures ReadsSame(ParseLine(content, ending))
  {
    hide ParseLine;
    RenderParseLine(content, ending);
  }

  lemma {:induction false} ParseReadsSame(source: string)
    ensures forall i :: 0 <= i < |Parse(source)| ==> ReadsSame(Parse(source)[i])
    decreases |source|
  {
    hide ParseLine, SplitLine, ReadsSame;
    if source != "" {
      var first := SplitLine(source);
      ParsedLineReadsSame(first.content, first.ending);
      ParseReadsSame(first.rest);
    }
  }

  lemma EndedReadsSame(line: Line, ending: string)
    requires ReadsSame(line) && line.ending == "" && (ending == "\n" ==> !HasSuffix(line.Content(), "\r"))
    ensures ReadsSame(line.(ending := ending))
  {
    hide ParseLine;
    ParseLineEnding(line.Content(), "", ending);
    ContentWithEnding(line, ending);
  }

  lemma MarkerReadsSame(marker: string, ending: string)
    requires Tight(marker) && marker[0] == '#'
    ensures ReadsSame(TextLine(Comment, marker, ending))
  {
    NoReturn(marker);
    assert marker[0..] == marker;
  }

  lemma IncludeReadsSame(pattern: string, ending: string)
    requires !Unquotable(pattern) && !TakenBySeparator(" ", [pattern])
    ensures ReadsSame(IncludeLine(pattern, ending))
  {
    hide ParseLine, RenderArguments, SeparatorRun, IsToken;
    var line := IncludeLine(pattern, ending);
    WrittenChain([], [pattern]);
    BlankSeparates();
    assert IsKeyword("Include");
    ReadBackSame("", "Include", " ", line.arguments, "", ending);
    Regroup("" + "Include" + " ", RenderArguments(line.arguments), "");
    IncludeNoReturn(pattern, ending);
  }

  lemma IncludeNoReturn(pattern: string, ending: string)
    requires !Unquotable(pattern)
    ensures !HasSuffix(IncludeLine(pattern, ending).Content(), "\r")
  {
    var raw := Written([], [pattern])[0].raw;

    var content := IncludeLine(pattern, ending).Content();
    assert Written([], [pattern])[1..] == [];
    assert RenderArguments(Written([], [pattern])) == "" + raw + "";
    assert content == "Include " + raw;
    LastByte("Include ", raw);
    NoReturn(raw);
  }

  lemma GroupPatternKept(name: string)
    ensures !TakenBySeparator(" ", [GroupIncludePattern(name)])
  {}

  /** The settings line as it is read: a name that opens with a bare '=' loses it. */
  function SettingsRead(groupsFile: string, ending: string): Line
    requires !Unquotable(groupsFile)
  {
    Reread(IncludeLine(groupsFile, ending))
  }

  lemma SettingsReads(groupsFile: string, ending: string)
    requires !Unquotable(groupsFile)
    ensures var line := SettingsRead(groupsFile, ending);
            && IsInclude(line) && line.Values() == AsRead([groupsFile]) && |AsRead([groupsFile])| <= 1
            && line.Render() == IncludeLine(groupsFile, ending).Render()
  {
    hide Unquotable, AsRead, Reread, ParseLine, Line.Content;
    assert IsKeyword("Include");
    BuiltReads("", "Include", [groupsFile], ending);
    IncludeNoReturn(groupsFile, ending);
    AsReadShort(groupsFile);
    RereadBytes(IncludeLine(groupsFile, ending));
  }

  lemma AsReadShort(value: string)
    ensures |AsRead([value])| <= 1
  {}

  /** Reading a line again keeps its bytes. */
  lemma RereadBytes(line: Line)
    ensures Reread(line).Render() == line.Render()
  {
    hide ParseLine, Line.Content;
    var content := line.Content();
    if line.ending == "\n" && HasSuffix(content, "\r") {
      var chopped := content[..|content| - 1];
      RenderParseLine(chopped, "\r\n");
      assert content == chopped + "\r";
      Regroup(chopped, "\r", "\n");
      assert "\r" + "\n" == "\r\n";
    } else {
      RenderParseLine(content, line.ending);
    }
  }

  lemma RegionReadsSame(groups: seq<string>, groupsFile: string, ending: string)
    requires AllQuotable(Patterns(groups, groupsFile))
    ensures forall i :: 0 <= i < |groups| + 4 && i != |groups| + 2 ==> ReadsSame(RegionLines(groups, groupsFile, ending)[i])
    ensures !Unquotable(groupsFile) && RegionLines(groups, groupsFile, ending)[|groups| + 2] == IncludeLine(groupsFile, ending)
  {
    hide StartMarker, EndMarker, RegionNote, ReadsSame, IncludeLine, Patterns, Unquotable, GroupIncludePattern, TakenBySeparator, Tight;
    MarkersDiffer();
    MarkerReadsSame(StartMarker(), ending);
    MarkerReadsSame(EndMarker(), ending);
    MarkerReadsSame(RegionNote(), ending);
    var region := RegionLines(groups, groupsFile, ending);
    RegionLineAt(groups, groupsFile, ending, |groups|);
    forall i | 0 <= i < |groups| + 4 && i != |groups| + 2 ensures ReadsSame(region[i]) {
      if 2 <= i < |groups| + 2 {
        RegionLineAt(groups, groupsFile, ending, i - 2);
        GroupPatternKept(groups[i - 2]);
        IncludeReadsSame(GroupIncludePattern(groups[i - 2]), ending);
      }
    }
  }

  lemma RegionWritable(groups: seq<string>, groupsFile: string, ending: string)
    requires AllQuotable(Patterns(groups, groupsFile)) && ending in {"\n", "\r\n"}
    ensures forall i :: 0 <= i < |groups| + 4 ==> Writable(RegionLines(groups, groupsFile, ending)[i])
  {
    hide StartMarker, EndMarker, RegionNote, Writable, Patterns, Unquotable, GroupIncludePattern, Written;
    MarkersPlain();
    MarkersDiffer();
    MarkerWritable(StartMarker(), ending);
    MarkerWritable(EndMarker(), ending);
    MarkerWritable(RegionNote(), ending);
    var region := RegionLines(groups, groupsFile, ending);
    forall i | 0 <= i < |groups| + 4 ensures Writable(region[i]) {
      if 2 <= i < |groups| + 3 {
        RegionLineAt(groups, groupsFile, ending, i - 2);
        BuiltWritable("", "Include", [if i - 2 < |groups| then GroupIncludePattern(groups[i - 2]) else groupsFile], ending);
      }
    }
  }

  lemma MarkerWritable(marker: string, ending: string)
    requires Plain(marker) && marker != "" && ending in {"\n", "\r\n"}
    ensures Writable(TextLine(Comment, marker, ending))
  {}

  predicate OthersRead(lines: seq<Line>) { WritableFile(lines) && forall i :: 0 <= i < |lines| ==> ReadsSame(lines[i]) }

  lemma OthersOf(lines: seq<Line>)
    requires OthersRead(lines)
    ensures OthersRead(Others(lines))
  {
    hide ReadsSame, Writable, MarkerAt;
    match RegionOf(lines)
    case Found(start, end) =>
      var others := Others(lines);
      forall i | 0 <= i < |others| ensures others[i] == lines[if i < start then i else i + (end + 1 - start)] {}
    case _ =>
  }

  /** The region goes below the last other line, which has no newline and ends in a carriage
      return: the newline it is given makes the two one ending. */
  predicate ReturnJoins(lines: seq<Line>) {
    var others, n := Others(lines), Above(lines);
    n == |others| && n > 0 && others[n - 1].ending == "" && HasSuffix(others[n - 1].Content(), "\r") && FirstEnding(lines) == "\n"
  }

  /** That line, as it is then read. */
  function Joined(line: Line): Line
    requires HasSuffix(line.Content(), "\r")
  {
    ParseLine(line.Content()[..|line.Content()| - 1], "\r\n")
  }

  /** ... and when it is then a header, the region stands in the block it opens. */
  predicate OpensAbove(lines: seq<Line>) {
    ReturnJoins(lines) && IsHeader(Joined(Others(lines)[Above(lines) - 1]))
  }

  lemma OtherLine(others: seq<Line>, i: nat)
    requires OthersRead(others) && i < |others|
    ensures Writable(others[i]) && ReadsSame(others[i]) && (i + 1 < |others| ==> others[i].ending != "")
  {}

  lemma EndedLine(others: seq<Line>, n: nat, ending: string, i: nat)
    requires OthersRead(others) && i < n <= |others| && ending in {"\n", "\r\n"}
    ensures var line := Ended(others[..n], ending)[i];
            && Writable(line) && line.ending != ""
            && if i == |others| - 1 && others[i].ending == "" && ending == "\n" && HasSuffix(others[i].Content(), "\r")
               then Reread(line) == Joined(others[i]) else ReadsSame(line)
  {
    hide Line.Content, HasSuffix, ParseLine;
    OtherLine(others, i);
    var line := Ended(others[..n], ending)[i];
    if others[i].ending == "" {
      assert i == |others| - 1;
      assert line == others[i].(ending := ending);
      EndedWritable(others[i], ending);
      ContentWithEnding(others[i], ending);
      if !(ending == "\n" && HasSuffix(others[i].Content(), "\r")) { EndedReadsSame(others[i], ending); }
    } else {
      assert line == others[i];
    }
  }

  lemma EndingOfFile(lines: seq<Line>)
    requires OthersRead(lines)
    ensures FirstEnding(lines) in {"\n", "\r\n"}
  {
    FirstEndingInFile(lines);
  }

  /** The file with the region, written and read: every line as it was, but for the last other
      line when the region goes below it, and the settings line. */
  predicate ReadAs(now: seq<Line>, lines: seq<Line>, groups: seq<string>, groupsFile: string)
    requires AllQuotable(Patterns(groups, groupsFile)) && !Unquotable(groupsFile)
  {
    var e, others, n := FirstEnding(lines), Others(lines), Above(lines);
    var region := RegionLines(groups, groupsFile, e);
    && |now| == |others| + |groups| + 4 && |region| == |groups| + 4
    && (forall i :: 0 <= i < n ==> now[i] == if i == n - 1 && ReturnJoins(lines) then Joined(others[i]) else Ended(others[..n], e)[i])
    && (forall i :: n <= i < n + |groups| + 4 ==> now[i] == if i == n + |groups| + 2 then SettingsRead(groupsFile, e) else region[i - n])
    && (forall i :: n + |groups| + 4 <= i < |now| ==> now[i] == others[i - (|groups| + 4)])
  }

  lemma SettingsQuotable(groups: seq<string>, groupsFile: string)
    requires AllQuotable(Patterns(groups, groupsFile))
    ensures !Unquotable(groupsFile)
  {
    hide Unquotable;
    assert Patterns(groups, groupsFile)[|groups|] == groupsFile;
  }

  lemma RegionReparses(lines: seq<Line>, groups: seq<string>, groupsFile: string)
    requires OthersRead(lines) && AllQuotable(Patterns(groups, groupsFile))
    ensures !Unquotable(groupsFile)
    ensures var after := WithRegion(lines, groups, groupsFile); WritableFile(after) && ReadAs(Parse(RenderLines(after)), lines, groups, groupsFile)
  {
    hide ReadsSame, Writable, RegionLines, Others, Above, FirstEnding, Patterns, Unquotable, OthersRead, RenderLines, Parse, Joined, HasSuffix, Line.Content, SettingsRead;
    SettingsQuotable(groups, groupsFile);
    var e, others, n, after := FirstEnding(lines), Others(lines), Above(lines), WithRegion(lines, groups, groupsFile);
    OthersOf(lines);
    EndingOfFile(lines);
    RegionEndings(groups, groupsFile, e);
    RegionReadsSame(groups, groupsFile, e);
    RegionWritable(groups, groupsFile, e);
    forall i | 0 <= i < |after| ensures Writable(after[i]) && (i + 1 < |after| ==> after[i].ending != "") {
      if i < n {
        assert after[i] == Ended(others[..n], e)[i];
        EndedLine(others, n, e, i);
      } else if i < n + |groups| + 4 {
        assert after[i] == RegionLines(groups, groupsFile, e)[i - n];
      } else {
        assert after[i] == others[i - (|groups| + 4)];
        OtherLine(others, i - (|groups| + 4));
      }
    }
    ParseRendered(after);
    ReadLineByLine(Parse(RenderLines(after)), lines, groups, groupsFile);
  }

  lemma ReadLineByLine(now: seq<Line>, lines: seq<Line>, groups: seq<string>, groupsFile: string)
    requires OthersRead(lines) && OthersRead(Others(lines)) && AllQuotable(Patterns(groups, groupsFile)) && !Unquotable(groupsFile)
    requires var after := WithRegion(lines, groups, groupsFile); |now| == |after| && forall i :: 0 <= i < |after| ==> now[i] == Reread(after[i])
    ensures ReadAs(now, lines, groups, groupsFile)
  {
    hide RegionLines, Others, Above, FirstEnding, Patterns, Unquotable, OthersRead, Joined, HasSuffix, Line.Content, IncludeLine, ParseLine;
    var e, others, n, after := FirstEnding(lines), Others(lines), Above(lines), WithRegion(lines, groups, groupsFile);
    EndingOfFile(lines);
    RegionEndings(groups, groupsFile, e);
    RegionReadsSame(groups, groupsFile, e);
    forall i | 0 <= i < n ensures now[i] == if i == n - 1 && ReturnJoins(lines) then Joined(others[i]) else Ended(others[..n], e)[i] {
      assert after[i] == Ended(others[..n], e)[i];
      EndedLine(others, n, e, i);
    }
    forall i | n <= i < n + |groups| + 4
      ensures now[i] == if i == n + |groups| + 2 then SettingsRead(groupsFile, e) else RegionLines(groups, groupsFile, e)[i - n]
    {
      assert after[i] == RegionLines(groups, groupsFile, e)[i - n];
    }
    forall i | n + |groups| + 4 <= i < |after| ensures now[i] == others[i - (|groups| + 4)] {
      assert after[i] == others[i - (|groups| + 4)];
      OtherLine(others, i - (|groups| + 4));
    }
  }

  // ---- the line that gained a newline ----

  lemma {:induction false} TrimReturn(text: string, i: nat)
    requires i < |text| && !IsWhite(text[i])
    ensures TrimSpace(text + "\r") == TrimSpace(text)
    decreases |text|
  {
    if IsWhite(text[0]) {
      assert (text + "\r")[1..] == text[1..] + "\r";
      TrimReturn(text[1..], i - 1);
    } else {
      assert (text + "\r")[..|text|] == text;
    }
  }

  /** Taking a carriage return off the end does not make a marker of a line. */
  lemma JoinedMarker(line: Line, marker: string)
    requires ReadsSame(line) && line.ending == "" && HasSuffix(line.Content(), "\r")
    requires IsMarker(Joined(line), marker)
    ensures IsMarker(line, marker)
  {
    hide ParseAfterKeyword, KeywordRun, TrimSpace, Line.Content;
    var content := line.Content();
    var chopped := content[..|content| - 1];
    assert content == chopped + "\r" by { assert content[|content| - 1..] == "\r"; }
    var indent := SpaceRun(chopped);
    CommentStarts(chopped, "\r\n");
    TrimReturn(chopped, indent);
    AllSpacesRun(chopped);
    SpaceRunOf(chopped[..indent], chopped[indent..] + "\r");
    assert chopped == chopped[..indent] + chopped[indent..];
    Regroup(chopped[..indent], chopped[indent..], "\r");
    assert content[indent..][0] == '#';
  }

  lemma CommentStarts(content: string, ending: string)
    requires ParseLine(content, ending).kind == Comment
    ensures SpaceRun(content) < |content| && content[SpaceRun(content)] == '#' && ParseLine(content, ending).text == content
  {
    hide ParseAfterKeyword, KeywordRun, SpaceRun;
    var indent := SpaceRun(content);
    var body := content[indent..];
    if body != "" {
      assert body[0] == content[indent];
      if body[0] != '#' { NoCommentBody(content, body, ending); }
    }
  }

  lemma NoCommentBody(content: string, body: string, ending: string)
    requires body == content[SpaceRun(content)..] && body != "" && body[0] != '#'
    ensures ParseLine(content, ending).kind != Comment
  {
    hide SplitArguments, SeparatorRun, KeywordRun, SpaceRun;
  }

  /** What becomes of its bytes: a newline more, and nothing else. */
  lemma JoinedBytes(line: Line)
    requires line.ending == "" && HasSuffix(line.Content(), "\r")
    ensures Joined(line).Render() == line.Render() + "\n"
  {
    hide ParseLine, Line.Content;
    var content := line.Content();
    var chopped := content[..|content| - 1];
    RenderParseLine(chopped, "\r\n");
    assert content == chopped + "\r" by { assert content[|content| - 1..] == "\r"; }
    Regroup(chopped, "\r", "\n");
    assert "\r" + "\n" == "\r\n" && content + "" == content;
  }

  // ---- where the region is, once read ----

  lemma NoMarkersAbove(now: seq<Line>, lines: seq<Line>, groups: seq<string>, groupsFile: string, i: nat)
    requires OthersRead(Others(lines)) && !RegionOf(lines).Damaged? && AllQuotable(Patterns(groups, groupsFile)) && !Unquotable(groupsFile)
    requires ReadAs(now, lines, groups, groupsFile) && i < Above(lines)
    ensures !IsMarker(now[i], StartMarker()) && !IsMarker(now[i], EndMarker())
    ensures IsHeader(now[i]) <==> i == Above(lines) - 1 && OpensAbove(lines)
  {
    hide IsMarker, StartMarker, EndMarker, IsHeader, RegionLines, RegionOf, MarkerAt, Others, Above, FirstEnding, Patterns, Unquotable, Joined, HasSuffix, ReadsSame, Line.Content, SettingsRead;
    var others, e, n := Others(lines), FirstEnding(lines), Above(lines);
    AboveRegion(lines);
    if i == n - 1 && ReturnJoins(lines) {
      OtherLine(others, i);
      if IsMarker(Joined(others[i]), StartMarker()) { JoinedMarker(others[i], StartMarker()); }
      if IsMarker(Joined(others[i]), EndMarker()) { JoinedMarker(others[i], EndMarker()); }
    } else {
      assert others[..n][i] == others[i];
      EndedKeepsMarker(others[i], e, StartMarker());
      EndedKeepsMarker(others[i], e, EndMarker());
    }
  }

  lemma NowFound(now: seq<Line>, lines: seq<Line>, groups: seq<string>, groupsFile: string)
    requires OthersRead(Others(lines)) && !RegionOf(lines).Damaged? && AllQuotable(Patterns(groups, groupsFile)) && !Unquotable(groupsFile)
    requires ReadAs(now, lines, groups, groupsFile)
    ensures var n := Above(lines); RegionOf(now) == Found(n, n + |groups| + 3) && (HeaderOver(now, n) == -1 <==> !OpensAbove(lines))
    ensures NoMarker(now, StartMarker(), 0, Above(lines))
  {
    hide IsMarker, StartMarker, EndMarker, IsHeader, RegionLines, RegionOf, MarkerAt, Others, Above, FirstEnding, Ended, Patterns, Unquotable, OpensAbove, ReturnJoins, Joined,
         SettingsRead, OthersRead, ReadAs, HeaderOver;
    var n := Above(lines);
    NowMarked(now, lines, groups, groupsFile);
    forall i | 0 <= i < n
      ensures !IsMarker(now[i], StartMarker()) && !IsMarker(now[i], EndMarker()) && (IsHeader(now[i]) <==> i == n - 1 && OpensAbove(lines))
    {
      NoMarkersAbove(now, lines, groups, groupsFile, i);
    }
    MarkerIs(now, StartMarker(), n);
    MarkerIs(now, EndMarker(), n + |groups| + 3);
    FoundBetween(now, n, n + |groups| + 3);
    OpensBelowSomething(lines);
    if OpensAbove(lines) { assert IsHeader(now[n - 1]); }
    GlobalIffNoHeader(now, n);
  }

  /** The region's own lines: its markers, and no header to open. */
  lemma NowMarked(now: seq<Line>, lines: seq<Line>, groups: seq<string>, groupsFile: string)
    requires AllQuotable(Patterns(groups, groupsFile)) && !Unquotable(groupsFile) && ReadAs(now, lines, groups, groupsFile)
    ensures var n := Above(lines);
            && n + |groups| + 4 <= |now| && IsMarker(now[n], StartMarker()) && IsMarker(now[n + |groups| + 3], EndMarker()) && !IsHeader(now[n])
            && forall i :: n <= i < n + |groups| + 3 ==> !IsMarker(now[i], EndMarker())
  {
    hide IsMarker, StartMarker, EndMarker, IsHeader, RegionLines, Others, Above, FirstEnding, Ended, Patterns, Unquotable, ReturnJoins, Joined, SettingsRead,
         Line.Render, Line.Values, Line.Content, IncludeLine, AsRead, IsInclude, TextLine, Unquotable;
    var e, n := FirstEnding(lines), Above(lines);
    var region := RegionLines(groups, groupsFile, e);
    RegionEndings(groups, groupsFile, e);
    RegionMarkers(groups, groupsFile, e);
    SettingsReads(groupsFile, e);
    IncludeNoMarker(SettingsRead(groupsFile, e), EndMarker());
    forall i | n <= i < n + |groups| + 3 ensures !IsMarker(now[i], EndMarker()) {
      assert i != n + |groups| + 2 ==> now[i] == region[i - n];
    }
  }

  lemma GlobalIffNoHeader(lines: seq<Line>, n: nat)
    requires n < |lines| && !IsHeader(lines[n])
    ensures HeaderOver(lines, n) == -1 <==> NoHeader(lines, 0, n)
  {
    hide IsHeader;
  }

  lemma OpensBelowSomething(lines: seq<Line>)
    ensures OpensAbove(lines) ==> Above(lines) > 0
  {}

  lemma IncludeNoMarker(line: Line, marker: string)
    requires IsInclude(line)
    ensures !IsMarker(line, marker)
  {}

  // ---- the theorem ----

  /** Installing the region, end to end, on the bytes of any file the planner does not refuse:
      the region is found; it is read unconditionally unless the line it went below became a
      header; and it declares the groups unless the settings file is named like another's. */
  lemma InstallRoundTrips(source: string, groups: seq<string>, groupsFile: string, plan: RegionPlan)
    requires Planned(Parse(source), groups, groupsFile) == Ok(plan) && GoodGroups(groups)
    ensures Fits(plan, Parse(source))
    ensures var now := Parse(RenderLines(Installed(Parse(source), plan)));
            && RegionOf(now).Found?
            && (HeaderOver(now, RegionOf(now).start) == -1 <==> !OpensAbove(Parse(source)))
            && (Declared(now) == groups <==> NamesNothingNew(AsRead([groupsFile]), groups))
  {
    hide *;
    var lines := Parse(source);
    SourceReads(source);
    InstalledIs(lines, groups, groupsFile, plan);
    RegionReparses(lines, groups, groupsFile);
    NotDamaged(lines, groups, groupsFile);
    ReadResult(Parse(RenderLines(WithRegion(lines, groups, groupsFile))), lines, groups, groupsFile);
  }

  lemma ReadResult(now: seq<Line>, lines: seq<Line>, groups: seq<string>, groupsFile: string)
    requires OthersRead(lines) && GoodGroups(groups) && !RegionOf(lines).Damaged?
    requires AllQuotable(Patterns(groups, groupsFile)) && !Unquotable(groupsFile) && ReadAs(now, lines, groups, groupsFile)
    ensures RegionOf(now).Found? && (HeaderOver(now, RegionOf(now).start) == -1 <==> !OpensAbove(lines))
    ensures Declared(now) == groups <==> NamesNothingNew(AsRead([groupsFile]), groups)
  {
    hide *;
    OthersOf(lines);
    NowFound(now, lines, groups, groupsFile);
    ReadHolds(now, lines, groups, groupsFile);
    SettingsReads(groupsFile, FirstEnding(lines));
    DeclaresIff(now, Above(lines), groups, groupsFile, FirstEnding(lines), AsRead([groupsFile]));
  }

  lemma NotDamaged(lines: seq<Line>, groups: seq<string>, groupsFile: string)
    requires Planned(lines, groups, groupsFile).Ok?
    ensures !RegionOf(lines).Damaged? && AllQuotable(Patterns(groups, groupsFile))
  {}

  lemma ReadHolds(now: seq<Line>, lines: seq<Line>, groups: seq<string>, groupsFile: string)
    requires AllQuotable(Patterns(groups, groupsFile)) && !Unquotable(groupsFile) && ReadAs(now, lines, groups, groupsFile)
    ensures HoldsGroups(now, Above(lines), groups, groupsFile, FirstEnding(lines))
    ensures Above(lines) + |groups| + 4 <= |now| && now[Above(lines) + |groups| + 2] == SettingsRead(groupsFile, FirstEnding(lines))
  {
    hide RegionLines, Patterns, Unquotable, Others, Above, FirstEnding, Joined, SettingsRead, Ended, ReturnJoins;
  }

  lemma SourceReads(source: string)
    ensures OthersRead(Parse(source)) && WritableFile(Parse(source))
  {
    hide ReadsSame, Parse;
    ParseGivesParsed(source);
    ParseReadsSame(source);
  }

  // ---- installing again, through the bytes ----

  lemma {:induction false} SameRendering(a: seq<Line>, b: seq<Line>)
    requires |a| == |b| && forall i :: 0 <= i < |a| ==> a[i].Render() == b[i].Render()
    ensures RenderLines(a) == RenderLines(b)
  {
    hide Line.Render;
    if a != [] {
      assert a[0].Render() == b[0].Render();
      assert forall i :: 0 <= i < |a[1..]| ==> a[1..][i].Render() == a[i + 1].Render() && b[1..][i].Render() == b[i + 1].Render();
      SameRendering(a[1..], b[1..]);
    }
  }

  /** A region with the file's own endings is there already, byte for byte. */
  lemma ReplacedSame(now: seq<Line>, lines: seq<Line>, groups: seq<string>, groupsFile: string)
    requires AllQuotable(Patterns(groups, groupsFile)) && !Unquotable(groupsFile) && ReadAs(now, lines, groups, groupsFile)
    ensures var n, region := Above(lines), RegionLines(groups, groupsFile, FirstEnding(lines));
            n + |groups| + 4 <= |now| && RenderLines(now[..n] + region + now[n + |groups| + 4..]) == RenderLines(now)
  {
    hide RegionLines, Patterns, Unquotable, Others, Above, FirstEnding, Joined, SettingsRead, Ended, ReturnJoins, Line.Render, RenderLines;
    var n, e := Above(lines), FirstEnding(lines);
    var region := RegionLines(groups, groupsFile, e);
    var again := now[..n] + region + now[n + |groups| + 4..];
    SettingsReads(groupsFile, e);
    RegionReadsSame(groups, groupsFile, e);
    forall i | 0 <= i < |now| ensures again[i].Render() == now[i].Render() {
      if n <= i < n + |groups| + 4 { assert again[i] == region[i - n]; }
    }
    SameRendering(again, now);
  }

  /** A file with another line in some place than what is read there has other bytes. */
  lemma OtherLineOtherBytes(again: seq<Line>, now: seq<Line>, i: nat)
    requires WritableFile(again) && i < |again| && i < |now| && Parse(RenderLines(now)) == now && Reread(again[i]) != now[i]
    ensures RenderLines(again) != RenderLines(now)
  {
    hide Writable, Reread, RenderLines, Parse;
    ParseRendered(again);
  }

  /** A region that is there already does not go below an unended line. */
  lemma FoundNeverJoins(lines: seq<Line>)
    requires OthersRead(lines) && RegionOf(lines).Found?
    ensures !ReturnJoins(lines)
  {
    hide ReadsSame, IsHeader, MarkerAt, HasSuffix, Line.Content, Writable;
    var start, others := RegionOf(lines).start, Others(lines);
    var h := HeaderOver(lines, start);
    assert RegionOf(lines) == Found(start, RegionOf(lines).end);
    if h == -1 {
      if start > 0 {
        assert others[start - 1] == lines[start - 1];
        assert lines[start - 1].ending != "";
      }
    } else {
      InsideRegionNoHeader(lines, start, h);
      assert others[h] == lines[h];
      PositionAtHeader(others, h);
    }
  }

  /** When the two joined, the whole file is other lines, and none opens a block. */
  lemma JoiningFile(lines: seq<Line>)
    requires ReturnJoins(lines) && !RegionOf(lines).Damaged? && OthersRead(lines)
    ensures RegionOf(lines).Absent? && Others(lines) == lines && Above(lines) == |lines| && NoHeader(lines, 0, |lines|)
    ensures lines != [] && HasSuffix(lines[|lines| - 1].Content(), "\r") && FirstEnding(lines) == "\n"
    ensures |lines| > 1 ==> lines[0].ending == "\n"
  {
    hide ReadsSame, IsHeader, MarkerAt, HasSuffix, Line.Content;
    AboveRegion(lines);
    if RegionOf(lines).Found? { FoundNeverJoins(lines); }
    if |lines| > 1 { assert lines[0].ending != ""; }
  }

  /** With a header in the file the region goes above one. */
  lemma PositionAtHeader(lines: seq<Line>, h: nat)
    requires h < |lines| && IsHeader(lines[h])
    ensures RegionPosition(lines) < |lines|
  {
    hide IsHeader;
  }

  lemma EndingNow(now: seq<Line>, lines: seq<Line>, groups: seq<string>, groupsFile: string)
    requires OthersRead(lines) && !RegionOf(lines).Damaged? && AllQuotable(Patterns(groups, groupsFile)) && !Unquotable(groupsFile)
    requires ReadAs(now, lines, groups, groupsFile)
    ensures FirstEnding(now) == if ReturnJoins(lines) && |lines| == 1 then "\r\n" else FirstEnding(lines)
  {
    hide *;
    EndingAbove(now, lines, groups, groupsFile);
    EndingFirst(now);
  }

  lemma EndingFirst(lines: seq<Line>)
    requires lines != [] && lines[0].ending != ""
    ensures FirstEnding(lines) == lines[0].ending
  {}

  lemma EndingAbove(now: seq<Line>, lines: seq<Line>, groups: seq<string>, groupsFile: string)
    requires OthersRead(lines) && !RegionOf(lines).Damaged? && AllQuotable(Patterns(groups, groupsFile)) && !Unquotable(groupsFile)
    requires ReadAs(now, lines, groups, groupsFile)
    ensures now != [] && now[0].ending != ""
    ensures now[0].ending == if ReturnJoins(lines) && |lines| == 1 then "\r\n" else FirstEnding(lines)
  {
    hide RegionLines, RegionOf, Others, Above, Patterns, Unquotable, ReadsSame, ReturnJoins, SettingsRead, Writable, FirstEnding, Joined, HasSuffix, OthersRead, Line.Content, IsHeader, IsMarker;
    var e, n := FirstEnding(lines), Above(lines);
    RegionEndings(groups, groupsFile, e);
    if n == 0 {
      if ReturnJoins(lines) { JoiningFile(lines); }
    } else {
      AboveRegion(lines);
      if ReturnJoins(lines) {
        JoiningFile(lines);
        JoinedEnding(lines[n - 1]);
      }
      assert Others(lines)[..n][0] == lines[0];
      OthersOf(lines);
      OtherLine(Others(lines), 0);
      if lines[0].ending != "" { EndingFirst(lines); }
    }
  }

  lemma JoinedEnding(line: Line)
    requires HasSuffix(line.Content(), "\r")
    ensures Joined(line).ending == "\r\n"
  {
    hide ParseLine;
  }

  /** With one line that joined and is no header, the region is written with other endings. */
  lemma OneLineChanges(now: seq<Line>, lines: seq<Line>, groups: seq<string>, groupsFile: string)
    requires OthersRead(lines) && !RegionOf(lines).Damaged? && AllQuotable(Patterns(groups, groupsFile)) && !Unquotable(groupsFile)
    requires ReadAs(now, lines, groups, groupsFile) && Parse(RenderLines(now)) == now && WritableFile(now)
    requires ReturnJoins(lines) && |lines| == 1
    ensures |now| == |groups| + 5 && RenderLines(now[..1] + RegionLines(groups, groupsFile, "\r\n") + now[|groups| + 5..]) != RenderLines(now)
  {
    hide RegionLines, RegionOf, Others, Above, Patterns, Unquotable, ReturnJoins, SettingsRead, Writable, Parse, RenderLines, Joined, Reread, Line.Content, StartMarker;
    JoiningFile(lines);
    var region := RegionLines(groups, groupsFile, "\r\n");
    RegionEndings(groups, groupsFile, "\r\n");
    RegionEndings(groups, groupsFile, "\n");
    RegionWritable(groups, groupsFile, "\r\n");
    RegionReadsSame(groups, groupsFile, "\r\n");
    var again := now[..1] + region + now[|groups| + 5..];
    assert now[0].ending != "";
    forall i | 0 <= i < |again| ensures Writable(again[i]) && (i + 1 < |again| ==> again[i].ending != "") {
      if i >= 1 { assert again[i] == region[i - 1]; } else { assert again[0] == now[0]; }
    }
    assert again[1] == region[0] && now[1] == RegionLines(groups, groupsFile, "\n")[0];
    assert ReadsSame(region[0]);
    OtherLineOtherBytes(again, now, 1);
  }

  /** What the first save refused to do twice it does not refuse now. */
  lemma StillNotIncluded(now: seq<Line>, lines: seq<Line>, groups: seq<string>, groupsFile: string)
    requires |now| == |lines| > 0 && NoHeader(lines, 0, |lines|) && !AlreadyIncluded(lines, groups, groupsFile)
    requires (forall i :: 0 <= i < |lines| - 1 ==> now[i] == lines[i]) && IsHeader(now[|lines| - 1])
    ensures !AlreadyIncluded(now, groups, groupsFile)
  {
    hide Reaches, Line.Values;
    assert Lower("Include")[0] == 'i' && Lower("Host")[0] == 'h' && Lower("Match")[0] == 'm';
    forall i | 0 <= i < |now| ensures !ReachingInclude(now, i, groups, groupsFile) {
      assert !ReachingInclude(lines, i, groups, groupsFile);
    }
  }

  /** The file with its region moved up to `at`. */
  function MovedUp(now: seq<Line>, n: nat, at: nat, region: seq<Line>): seq<Line>
    requires at <= n <= |now|
  {
    now[..at] + region + now[at..n]
  }

  lemma MovedUpWritable(now: seq<Line>, n: nat, at: nat, region: seq<Line>)
    requires WritableFile(now) && at <= n < |now| && forall i :: 0 <= i < |region| ==> Writable(region[i]) && region[i].ending != ""
    ensures WritableFile(MovedUp(now, n, at, region))
  {
    hide Writable;
    var moved := MovedUp(now, n, at, region);
    forall i | 0 <= i < |moved| ensures Writable(moved[i]) && moved[i].ending != "" {
      if i < at { assert moved[i] == now[i]; }
      else if i < at + |region| { assert moved[i] == region[i - at]; }
      else { assert moved[i] == now[i - |region|]; }
    }
  }

  lemma MovedUpIs(now: seq<Line>, n: nat, end: nat, groups: seq<string>, groupsFile: string, at: nat, ending: string)
    requires WritableFile(now) && at <= n < end == |now| && AllQuotable(Patterns(groups, groupsFile))
    ensures Fits(Relocate(n, end, at, RegionLines(groups, groupsFile, ending)), now)
    ensures Installed(now, Relocate(n, end, at, RegionLines(groups, groupsFile, ending))) == MovedUp(now, n, at, RegionLines(groups, groupsFile, ending))
  {
    hide RegionLines, Patterns, InsertedAll, WritableFile, AllQuotable, Ended;
    var without := Without(now, n, end);
    assert without == now[..n] && now[..n][at..] == now[at..n] && now[..n][..at] == now[..at];
    InsertedIs(without, at, groups, groupsFile, ending);
    AllEndedAlready(now, n, at, ending);
  }

  /** When it became a header, saving again moves the region above it. */
  lemma HeaderMovesRegion(now: seq<Line>, lines: seq<Line>, groups: seq<string>, groupsFile: string)
    requires OthersRead(lines) && AllQuotable(Patterns(groups, groupsFile)) && !Unquotable(groupsFile) && OpensAbove(lines)
    requires !RegionOf(lines).Damaged? && !AlreadyIncluded(lines, groups, groupsFile)
    requires ReadAs(now, lines, groups, groupsFile) && Parse(RenderLines(now)) == now && WritableFile(now)
    ensures var again := Planned(now, groups, groupsFile);
            again.Ok? && Fits(again.value, now) && RenderLines(Installed(now, again.value)) != RenderLines(now)
  {
    hide RegionLines, RegionOf, Others, Above, Patterns, Unquotable, SettingsRead, Writable, Parse, RenderLines, Joined, Reread, Line.Content, Installed, Fits,
         StartMarker, EndMarker, AlreadyIncluded, IsHeader, IsMarker, FirstEnding, OthersRead, HeaderOver, RegionPosition, HasSuffix, AllQuotable, Planned, ReadAs, WritableFile;
    JoiningFile(lines);
    OthersOf(lines);
    NowFound(now, lines, groups, groupsFile);
    var n, e := |lines|, FirstEnding(now);
    FirstEndingInFile(now);
    RegionEndings(groups, groupsFile, e);
    RegionWritable(groups, groupsFile, e);
    RegionReadsSame(groups, groupsFile, e);
    RegionMarkers(groups, groupsFile, e);
    var region := RegionLines(groups, groupsFile, e);
    HeaderPlanned(now, lines, groups, groupsFile);
    var at := RegionPosition(now[..n]);
    MovedUpIs(now, n, |now|, groups, groupsFile, at, e);
    MovedUpWritable(now, n, at, region);
    assert MovedUp(now, n, at, region)[at] == region[0] && ReadsSame(region[0]);
    OtherLineOtherBytes(MovedUp(now, n, at, region), now, at);
  }

  lemma HeaderPlanned(now: seq<Line>, lines: seq<Line>, groups: seq<string>, groupsFile: string)
    requires OthersRead(lines) && AllQuotable(Patterns(groups, groupsFile)) && !Unquotable(groupsFile) && OpensAbove(lines)
    requires !RegionOf(lines).Damaged? && !AlreadyIncluded(lines, groups, groupsFile) && ReadAs(now, lines, groups, groupsFile)
    ensures var n := |lines|;
            && 0 < n <= |now| == n + |groups| + 4 && RegionPosition(now[..n]) < n
            && Planned(now, groups, groupsFile)
               == Ok(Relocate(n, |now|, RegionPosition(now[..n]), RegionLines(groups, groupsFile, FirstEnding(now))))
  {
    hide *;
    OpensJoins(lines);
    JoiningFile(lines);
    OthersOf(lines);
    NowFound(now, lines, groups, groupsFile);
    var n := |lines|;
    HeaderAbove(now, lines, groups, groupsFile);
    OnlyAbove(now, n);
    PositionAtHeader(now[..n], n - 1);
    PlannedElsewhere(now, groups, groupsFile, n, n + |groups| + 3);
  }

  lemma OnlyAbove(now: seq<Line>, n: nat)
    requires n <= |now|
    ensures Without(now, n, |now|) == now[..n]
  {}

  lemma HeaderAbove(now: seq<Line>, lines: seq<Line>, groups: seq<string>, groupsFile: string)
    requires OthersRead(lines) && OthersRead(Others(lines)) && AllQuotable(Patterns(groups, groupsFile)) && !Unquotable(groupsFile)
    requires OpensAbove(lines) && !RegionOf(lines).Damaged? && !AlreadyIncluded(lines, groups, groupsFile) && ReadAs(now, lines, groups, groupsFile)
    ensures var n := |lines|;
            0 < n <= |now| == n + |groups| + 4 && IsHeader(now[n - 1]) && !AlreadyIncluded(now[..n], groups, groupsFile)
  {
    hide RegionLines, RegionOf, Others, Above, Patterns, Unquotable, AlreadyIncluded, IsHeader, IsMarker, AllQuotable, OthersRead, OpensAbove, ReturnJoins, ReadAs,
         HasSuffix, Line.Content, FirstEnding;
    OpensJoins(lines);
    JoiningFile(lines);
    AboveAsBefore(now, lines, groups, groupsFile);
    NoMarkersAbove(now, lines, groups, groupsFile, |lines| - 1);
    StillNotIncluded(now[..|lines|], lines, groups, groupsFile);
  }

  lemma AboveAsBefore(now: seq<Line>, lines: seq<Line>, groups: seq<string>, groupsFile: string)
    requires OthersRead(lines) && AllQuotable(Patterns(groups, groupsFile)) && !Unquotable(groupsFile)
    requires ReadAs(now, lines, groups, groupsFile) && Others(lines) == lines && Above(lines) == |lines|
    ensures |now| == |lines| + |groups| + 4 && forall i :: 0 <= i < |lines| - 1 ==> now[i] == lines[i]
  {
    hide RegionLines, Others, Above, Patterns, Unquotable, SettingsRead, Joined, FirstEnding, OthersRead, ReturnJoins;
    forall i | 0 <= i < |lines| - 1 ensures now[i] == lines[i] {
      OtherLine(lines, i);
      assert lines[..|lines|][i] == lines[i];
    }
  }

  lemma PlannedElsewhere(now: seq<Line>, groups: seq<string>, groupsFile: string, start: nat, end: nat)
    requires RegionOf(now) == Found(start, end) && HeaderOver(now, start) != -1 && AllQuotable(Patterns(groups, groupsFile))
    requires !AlreadyIncluded(Without(now, start, end + 1), groups, groupsFile)
    ensures Planned(now, groups, groupsFile)
         == Ok(Relocate(start, end + 1, RegionPosition(Without(now, start, end + 1)), RegionLines(groups, groupsFile, FirstEnding(now))))
  {
    hide RegionLines, Patterns, FirstEnding, AlreadyIncluded, RegionPosition;
  }

  lemma AllEndedAlready(now: seq<Line>, n: nat, at: nat, ending: string)
    requires WritableFile(now) && at <= n < |now|
    ensures Ended(now[..n][..at], ending) == now[..n][..at]
  {
    hide Writable;
  }

  /** Saving again changes no byte, exactly when the newline did not make a header of the line it
      ended, and that line was not the only one. */
  lemma InstallsOnceIff(source: string, groups: seq<string>, groupsFile: string, plan: RegionPlan)
    requires Planned(Parse(source), groups, groupsFile) == Ok(plan)
    ensures Fits(plan, Parse(source))
    ensures var lines := Parse(source); var text := RenderLines(Installed(lines, plan));
            var again := Planned(Parse(text), groups, groupsFile);
            && again.Ok? && Fits(again.value, Parse(text))
            && (RenderLines(Installed(Parse(text), again.value)) == text <==> !(ReturnJoins(lines) && (|lines| == 1 || OpensAbove(lines))))
  {
    hide Parse, RenderLines, Patterns, Installed, Fits, RegionOf, HeaderOver, WithRegion, OthersRead, AllQuotable, OpensAbove, Planned, WritableFile,
         ReadAs, Unquotable, RegionLines, Others, Above, FirstEnding, Joined, ReturnJoins, AlreadyIncluded;
    var lines := Parse(source);
    SourceReads(source);
    InstalledIs(lines, groups, groupsFile, plan);
    RegionReparses(lines, groups, groupsFile);
    NotDamaged(lines, groups, groupsFile);
    var text := RenderLines(WithRegion(lines, groups, groupsFile));
    RenderParse(text);
    SourceReads(text);
    AgainIff(Parse(text), lines, groups, groupsFile);
  }

  lemma JoiningNotIncluded(lines: seq<Line>, groups: seq<string>, groupsFile: string)
    requires Planned(lines, groups, groupsFile).Ok? && RegionOf(lines).Absent?
    ensures !AlreadyIncluded(lines, groups, groupsFile)
  {}

  lemma AgainIff(now: seq<Line>, lines: seq<Line>, groups: seq<string>, groupsFile: string)
    requires OthersRead(lines) && Planned(lines, groups, groupsFile).Ok?
    requires !RegionOf(lines).Damaged? && AllQuotable(Patterns(groups, groupsFile)) && !Unquotable(groupsFile)
    requires ReadAs(now, lines, groups, groupsFile) && Parse(RenderLines(now)) == now && WritableFile(now)
    ensures var again := Planned(now, groups, groupsFile);
            && again.Ok? && Fits(again.value, now)
            && (RenderLines(Installed(now, again.value)) == RenderLines(now) <==> !(ReturnJoins(lines) && (|lines| == 1 || OpensAbove(lines))))
  {
    hide Parse, RenderLines, Patterns, RegionOf, HeaderOver, OthersRead, AllQuotable, WritableFile, ReadAs, Unquotable, RegionLines, Others, Above, FirstEnding, ReturnJoins, OpensAbove, AlreadyIncluded, Planned;
    OthersOf(lines);
    NowFound(now, lines, groups, groupsFile);
    OpensJoins(lines);
    if OpensAbove(lines) {
      JoiningFile(lines);
      JoiningNotIncluded(lines, groups, groupsFile);
      HeaderMovesRegion(now, lines, groups, groupsFile);
    } else {
      PlannedInPlace(now, groups, groupsFile, Above(lines), Above(lines) + |groups| + 3);
      EndingNow(now, lines, groups, groupsFile);
      if ReturnJoins(lines) && |lines| == 1 {
        JoiningFile(lines);
        OneLineChanges(now, lines, groups, groupsFile);
      } else {
        ReplacedSame(now, lines, groups, groupsFile);
      }
    }
  }

  lemma OpensJoins(lines: seq<Line>)
    ensures OpensAbove(lines) ==> ReturnJoins(lines)
  {}

  lemma PlannedInPlace(now: seq<Line>, groups: seq<string>, groupsFile: string, start: nat, end: nat)
    requires RegionOf(now) == Found(start, end) && HeaderOver(now, start) == -1 && AllQuotable(Patterns(groups, groupsFile))
    ensures Planned(now, groups, groupsFile) == Ok(Replace(start, end + 1, RegionLines(groups, groupsFile, FirstEnding(now))))
    ensures Fits(Planned(now, groups, groupsFile).value, now)
  {
    hide RegionLines, Patterns, FirstEnding;
  }

  /** Every other line keeps its place and its bytes; only a missing final newline may be added above the region. */
  lemma OthersKept(lines: seq<Line>, groups: seq<string>, groupsFile: string, i: nat)
    requires AllQuotable(Patterns(groups, groupsFile)) && i < |Others(lines)|
    ensures var after, n := WithRegion(lines, groups, groupsFile), Above(lines);
            var line := after[if i < n then i else i + |groups| + 4];
            && |after| == |Others(lines)| + |groups| + 4
            && line.Content() == Others(lines)[i].Content()
            && (Others(lines)[i].ending != "" ==> line == Others(lines)[i])
  {
    hide RegionLines, Patterns, Unquotable, RegionOf, Line.Content;
    var e, others, n := FirstEnding(lines), Others(lines), Above(lines);
    RegionEndings(groups, groupsFile, e);
    var after := WithRegion(lines, groups, groupsFile);
    if i < n {
      assert after[i] == Ended(others[..n], e)[i];
      ContentWithEnding(others[i], e);
    } else {
      assert after[i + |groups| + 4] == others[i];
    }
  }

  // ---- two inputs that lose ----

  lemma BareHostLine()
    ensures ParseLine("Host\r", "") == DirectiveLine("", "Host\r", "", [], "", "")
    ensures ParseLine("Host", "\r\n") == DirectiveLine("", "Host", "", [], "", "\r\n")
  {
    KeywordRunOf("Host\r", "");
    KeywordRunOf("Host", "");
    assert "Host\r" + "" == "Host\r" && "Host" + "" == "Host";
    assert "Host\r"[0..] == "Host\r" && "Host"[0..] == "Host" && "Host\r"[..5] == "Host\r" && "Host"[..4] == "Host";
    assert "Host\r"[5..] == "" && "Host"[4..] == "" && ""[0..] == "";
  }

  lemma OneLineParsed(content: string)
    requires content != "" && '\n' !in content
    ensures Parse(content) == [ParseLine(content, "")]
  {
    hide ParseLine;
    assert SplitLine(content) == FirstLine(content, "", "");
    assert Parse("") == [];
  }

  lemma OneLinePlaced(line: Line, groups: seq<string>, groupsFile: string)
    requires AllQuotable(Patterns(groups, groupsFile)) && !IsHeader(line) && !IsInclude(line) && line.kind != Comment && line.ending == ""
    ensures Planned([line], groups, groupsFile).Ok? && Above([line]) == 1 && Others([line]) == [line] && FirstEnding([line]) == "\n"
  {
    hide Unquotable, RegionLines, Patterns, Reaches, IsHeader, IsInclude, TrimSpace;
    NextHeaderIs([line], 0, 1);
    assert [line][1..] == [] && [line][..0] == [];
  }

  /** "Host" and a carriage return with no newline is no header, so the region goes below it; the
      newline written in between then makes it one, and the region is read for that block only. */
  lemma BareReturnTakesRegion(groups: seq<string>, groupsFile: string)
    requires AllQuotable(Patterns(groups, groupsFile))
    ensures Planned(Parse("Host\r"), groups, groupsFile).Ok? && OpensAbove(Parse("Host\r"))
  {
    hide Planned, Above, Others, FirstEnding, ParseLine, Parse, Patterns, Unquotable;
    var line := DirectiveLine("", "Host\r", "", [], "", "");
    BareHostLine();
    OneLineParsed("Host\r");
    assert Lower("Host\r")[4] == '\r' && |Lower("Host")| == 4 && |Lower("Match")| == 5 && Lower("Match")[4] == 'h' && |Lower("Include")| == 7;
    OneLinePlaced(line, groups, groupsFile);
    assert line.Content() == "Host\r";
    assert "Host\r"[..4] == "Host" && "Host\r"[4..] == "\r";
  }

  lemma BrokenQuote()
    ensures SplitArguments("\"a\"\r") == None
  {
    var broken := "\"a\"\r";
    assert broken[0..] == broken && broken[1..] == "a\"\r" && broken[3..] == "\r";
    assert IndexOf("a\"\r", '"') == 1;
    SplitStep(broken);
  }

  lemma QuotedHostLine()
    ensures ParseLine("Host \"a\"\r", "").kind == Unstructured && ParseLine("Host \"a\"\r", "").text == "Host \"a\"\r"
    ensures IsHost(ParseLine("Host \"a\"", "\r\n"))
  {
    hide ParseLine, SplitArguments, IsSeparator;
    assert IsKeyword("Host");
    BlankSeparates();
    BrokenQuote();
    var broken, whole := "\"a\"\r", Argument("", "\"a\"", "a");
    assert "Host \"a\"\r" == "" + "Host" + " " + broken;
    assert broken[0..] == broken && SpaceRun(broken) == 0;
    ReadLine("", "Host", " ", broken, "");
    assert IsToken(whole.raw, whole.value);
    assert [whole][1..] == [];
    assert RenderArguments([whole]) == "\"a\"";
    ReadBack("", "Host", " ", [whole], "", "\r\n");
    assert "Host \"a\"" == "" + "Host" + " " + ("\"a\"" + "");
  }

  /** Nor is a quoted pattern and a carriage return: no token ends there. */
  lemma QuotedReturnTakesRegion(groups: seq<string>, groupsFile: string)
    requires AllQuotable(Patterns(groups, groupsFile))
    ensures var source := "Host \"a\"\r"; Planned(Parse(source), groups, groupsFile).Ok? && OpensAbove(Parse(source))
  {
    hide Planned, Above, Others, FirstEnding, ParseLine, Parse, Patterns, Unquotable;
    var source := "Host \"a\"\r";
    var line := ParseLine(source, "");
    QuotedHostLine();
    OneLineParsed(source);
    OneLinePlaced(line, groups, groupsFile);
    assert line.Content() == source;
    assert source[..8] == "Host \"a\"" && source[8..] == "\r";
  }
}
