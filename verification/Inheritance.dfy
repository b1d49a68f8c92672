/** What the compiled groups file means. */
module Inheritance {
  // What the compiled groups file means, through its bytes: written, parsed and read for
  // an alias, it gives the settings of the alias's own group, then of its parent, and so
  // on outwards, skipping groups that got no block.
  //
  // That is what the compiler is for, and it holds of every alias exactly when no line of a
  // block that is written has a first value opening with a bare '=', which the separator
  // takes.  What the file means in general is stated with the values as they are read.

  import opened Results
  import opened Text
  import opened Syntax
  import opened Blocks
  import opened Reparse
  import opened Rewriting
  import opened Surviving
  import opened Edits
  import opened Names
  import opened Reading
  import opened Compiling
  import opened EditReads

  // ---- the meaning, by recursion on the name ----

  function EntriesOf(settings: seq<Setting>): (entries: seq<Entry>)
    ensures |entries| == |settings|
    ensures forall i :: 0 <= i < |settings| ==> entries[i] == Entry(Lower(settings[i].keyword), settings[i].values)
  {
    seq(|settings|, i requires 0 <= i < |settings| => Entry(Lower(settings[i].keyword), settings[i].values))
  }

  /** A group's own settings, if it got a block. */
  function OwnEntries(declared: seq<string>, groups: seq<GroupMetadata>, hosts: seq<HostEntry>, name: string): seq<Entry> {
    if name in declared && Emits(groups, hosts, name) then EntriesOf(SettingsOf(groups, name)) else []
  }

  /** Own settings first, then the parent's, and so on. */
  function Inherited(declared: seq<string>, groups: seq<GroupMetadata>, hosts: seq<HostEntry>, name: string): seq<Entry>
    decreases |name|
  {
    if name == "" then []
    else
      ParentShorter(name);
      OwnEntries(declared, groups, hosts, name) + Inherited(declared, groups, hosts, ParentGroupName(name))
  }

  lemma ParentShorter(name: string)
    requires name != ""
    ensures |ParentGroupName(name)| < |name|
  {}

  // ---- what the blocks give, in the order they are written ----

  function Given(groups: seq<GroupMetadata>, hosts: seq<HostEntry>, names: seq<string>, group: string): seq<Entry> {
    if names == [] then []
    else
      (if Above(names[0], group) && Emits(groups, hosts, names[0]) then EntriesOf(SettingsOf(groups, names[0])) else [])
      + Given(groups, hosts, names[1..], group)
  }

  predicate DepthSorted(names: seq<string>) {
    forall i, j :: 0 <= i < j < |names| ==> names[i] != names[j] && GroupDepth(names[i]) >= GroupDepth(names[j])
  }

  lemma {:induction false} NothingInherited(names: seq<string>, groups: seq<GroupMetadata>, hosts: seq<HostEntry>, name: string)
    requires forall n :: n in names ==> !Above(n, name)
    ensures Inherited(names, groups, hosts, name) == []
    decreases |name|
  {
    if name != "" {
      var parent := ParentGroupName(name);
      assert Above(name, name);
      if parent != "" {
        ParentShorter(name);
        forall n | n in names ensures !Above(n, parent) {}
        NothingInherited(names, groups, hosts, parent);
      }
    }
  }

  lemma {:induction false} NothingGiven(groups: seq<GroupMetadata>, hosts: seq<HostEntry>, names: seq<string>, group: string)
    requires forall n :: n in names ==> !Above(n, group)
    ensures Given(groups, hosts, names, group) == []
  {
    if names != [] { NothingGiven(groups, hosts, names[1..], group); }
  }

  /** Where the walk over the blocks stands: what was passed is not above the node, what is left and above the group is. */
  predicate AtNode(names: seq<string>, i: nat, node: string, group: string) {
    && i <= |names| && node != "" && Above(node, group)
    && (forall n :: n in names[..i] ==> !Above(n, node))
    && (forall n :: n in names[i..] && Above(n, group) ==> Above(n, node))
  }

  /** One level up, once the node itself is not among what is left. */
  lemma StepUp(names: seq<string>, i: nat, node: string, group: string)
    requires i <= |names| && node != "" && Above(node, group) && ParentGroupName(node) != ""
    requires forall n :: n in names[..i] ==> n == node || !Above(n, node)
    requires forall n :: n in names[i..] && Above(n, group) ==> n != node && Above(n, node)
    ensures AtNode(names, i, ParentGroupName(node), group)
  {
    var parent := ParentGroupName(node);
    forall n | n in names[..i] ensures !Above(n, parent) {}
    forall n | n in names[i..] && Above(n, group) ensures Above(n, parent) {
      AboveParent(n, node);
    }
  }

  /** The blocks that list the group's members, deepest first, are its own and its ancestors'. */
  lemma {:induction false} ChainGiven(names: seq<string>, i: nat, groups: seq<GroupMetadata>, hosts: seq<HostEntry>, node: string, group: string)
    requires DepthSorted(names) && "" !in names && AtNode(names, i, node, group)
    ensures Given(groups, hosts, names[i..], group) == Inherited(names, groups, hosts, node)
    decreases |names| - i, |node|
  {
    hide Above, Emits, SettingsOf, GroupDepth, ParentGroupName, EntriesOf;
    var parent := ParentGroupName(node);
    ParentShorter(node);
    if i == |names| {
      assert names[..i] == names;
      NothingInherited(names, groups, hosts, node);
    } else {
      var x, rest := names[i], names[i + 1..];
      assert names[i..] == [x] + rest && names[..i + 1] == names[..i] + [x];
      if !Above(x, group) {
        AboveUp(x, node, group);
        ChainGiven(names, i + 1, groups, hosts, node, group);
      } else if x == node {
        if parent == "" {
          forall n | n in rest ensures !Above(n, group) { OnlyAtTop(n, node, group, names[i..]); }
          NothingGiven(groups, hosts, rest, group);
        } else {
          StepUp(names, i + 1, node, group);
          ChainGiven(names, i + 1, groups, hosts, parent, group);
        }
      } else {
        NotDeclared(names, i, node);
        AboveSelf(node);
        ParentOf(x, node);
        StepUp(names, i, node, group);
        ChainGiven(names, i, groups, hosts, parent, group);
      }
    }
  }

  lemma AboveUp(x: string, node: string, group: string)
    requires !Above(x, group) && Above(node, group)
    ensures !Above(x, node)
  {}

  lemma AboveSelf(name: string)
    ensures Above(name, name)
  {}

  lemma ParentOf(x: string, node: string)
    requires Above(x, node) && x != node && x != ""
    ensures ParentGroupName(node) != ""
  {
    AboveParent(x, node);
  }

  lemma OnlyAtTop(n: string, node: string, group: string, left: seq<string>)
    requires forall m :: m in left && Above(m, group) ==> Above(m, node)
    requires n in left && n != "" && n != node && ParentGroupName(node) == ""
    ensures !Above(n, group)
  {
    if Above(n, group) { ParentOf(n, node); }
  }

  /** A node above which something shallower comes next was not declared at all. */
  lemma NotDeclared(names: seq<string>, i: nat, node: string)
    requires DepthSorted(names) && i < |names| && names[i] != "" && names[i] != node && Above(names[i], node)
    requires forall n :: n in names[..i] ==> !Above(n, node)
    ensures node !in names
  {
    AboveSelf(node);
    AboveDepth(names[i], node);
    assert names == names[..i] + names[i..];
  }

  // ---- reading the blocks ----

  lemma {:induction false} GivenSnoc(groups: seq<GroupMetadata>, hosts: seq<HostEntry>, names: seq<string>, name: string, group: string)
    ensures Given(groups, hosts, names + [name], group) == Given(groups, hosts, names, group)
         + (if Above(name, group) && Emits(groups, hosts, name) then EntriesOf(SettingsOf(groups, name)) else [])
  {
    hide Above, Emits, SettingsOf, EntriesOf;
    if names == [] {
      assert [name][1..] == [] && names + [name] == [name];
    } else {
      assert (names + [name])[1..] == names[1..] + [name];
      GivenSnoc(groups, hosts, names[1..], name, group);
    }
  }

  ghost function StateAfter(lines: seq<Line>, alias: string, applies: bool): bool {
    if lines == [] then applies
    else
      var line := lines[0];
      StateAfter(lines[1..], alias,
        if IsHeader(line) then IsHost(line) && HostLineMatches(ParsePatterns(line.Values()), alias) else applies)
  }

  lemma {:induction false} EntriesAppend(front: seq<Line>, back: seq<Line>, alias: string, applies: bool)
    ensures Entries(front + back, alias, applies) == Entries(front, alias, applies) + Entries(back, alias, StateAfter(front, alias, applies))
    ensures StateAfter(front + back, alias, applies) == StateAfter(back, alias, StateAfter(front, alias, applies))
  {
    hide EqualFold, HostLineMatches, ParsePatterns;
    if front == [] {
      assert front + back == back;
    } else {
      assert (front + back)[1..] == front[1..] + back;
      EntriesAppend(front[1..], back, alias, true);
      EntriesAppend(front[1..], back, alias, false);
    }
  }

  /** The lines as they are read, each by itself. */
  function ReadLines(lines: seq<Line>): (read: seq<Line>)
    ensures |read| == |lines| && forall i :: 0 <= i < |lines| ==> read[i] == Reread(lines[i])
  {
    seq(|lines|, i requires 0 <= i < |lines| => Reread(lines[i]))
  }

  lemma ReadLinesAppend(front: seq<Line>, back: seq<Line>)
    ensures ReadLines(front + back) == ReadLines(front) + ReadLines(back)
  {
    hide Reread;
  }

  /** A group's settings with their values as they are read. */
  function EntriesRead(settings: seq<Setting>): (entries: seq<Entry>)
    ensures |entries| == |settings|
    ensures forall i :: 0 <= i < |settings| ==> entries[i] == Entry(Lower(settings[i].keyword), AsRead(settings[i].values))
  {
    seq(|settings|, i requires 0 <= i < |settings| => Entry(Lower(settings[i].keyword), AsRead(settings[i].values)))
  }

  lemma SettingReads(setting: Setting, ending: string)
    requires SettingWrites(setting)
    ensures var line := Reread(Built("\t", setting.keyword, setting.values, ending));
            Says(line, setting.keyword, AsRead(setting.values)) && !IsHeader(line) && !IsInclude(line)
  {
    hide AllQuotable, Written, Reread, AsRead, Built;
    KeywordFits(setting.keyword);
    BuiltReads("\t", setting.keyword, setting.values, ending);
    assert Lower("Include") == "include";
  }

  lemma {:induction false} SettingEntries(settings: seq<Setting>, ending: string, alias: string, applies: bool)
    requires SettingsWrite(settings)
    ensures Entries(ReadLines(SettingLines(settings, ending)), alias, applies) == if applies then EntriesRead(settings) else []
    ensures StateAfter(ReadLines(SettingLines(settings, ending)), alias, applies) == applies
  {
    hide SettingWrites, Built, IsHeader, IsInclude, ArgumentValues, Entries, StateAfter, SettingLines, SettingsWrite, AllQuotable, AsRead, Reread, ReadLines;
    if settings == [] {
      NoEntries(alias, applies);
    } else {
      var n := |settings| - 1;
      var last := settings[n];
      SettingLinesSnoc(settings, ending);
      SettingEntries(settings[..n], ending, alias, applies);
      SettingReads(last, ending);
      var line := Built("\t", last.keyword, last.values, ending);
      ReadLinesAppend(SettingLines(settings[..n], ending), [line]);
      assert ReadLines([line]) == [Reread(line)];
      EntriesAppend(ReadLines(SettingLines(settings[..n], ending)), [Reread(line)], alias, applies);
      OneEntry(Reread(line), alias, applies);
      assert EntriesRead(settings) == EntriesRead(settings[..n]) + [Entry(Lower(last.keyword), AsRead(last.values))];
    }
  }

  lemma OneEntry(line: Line, alias: string, applies: bool)
    requires line.kind == Directive && !IsHeader(line) && !IsInclude(line)
    ensures Entries([line], alias, applies) == if applies then [Entry(Lower(line.keyword), line.Values())] else []
    ensures StateAfter([line], alias, applies) == applies
  {
    assert [line][1..] == [];
  }

  /** Hosts as the projection lists them: an alias names itself, a group is a valid name or none. */
  predicate Projected(hosts: seq<HostEntry>) {
    forall i :: 0 <= i < |hosts| && Named(hosts[i]) ==> Literal(hosts[i].alias)
  }

  lemma {:induction false} AliasesLiteral(hosts: seq<HostEntry>)
    requires Projected(hosts)
    ensures forall i :: 0 <= i < |AliasOrder(hosts)| ==> Literal(AliasOrder(hosts)[i])
  {
    hide Literal;
    if hosts != [] { AliasesLiteral(hosts[..|hosts| - 1]); }
  }

  lemma {:induction false} ChosenFrom(aliases: seq<string>, chosen: set<string>)
    ensures forall i :: 0 <= i < |Chosen(aliases, chosen)| ==> Chosen(aliases, chosen)[i] in aliases
  {
    if aliases != [] { ChosenFrom(aliases[..|aliases| - 1], chosen); }
  }

  lemma {:induction false} GroupedIsKnown(hosts: seq<HostEntry>, alias: string)
    ensures GroupOfAlias(hosts, alias) != "" ==> alias in AliasOrder(hosts)
  {
    if hosts != [] { GroupedIsKnown(hosts[..|hosts| - 1], alias); }
  }

  lemma MembersLiteral(hosts: seq<HostEntry>, name: string)
    requires Projected(hosts)
    ensures forall i :: 0 <= i < |Members(hosts, name)| ==> Literal(Members(hosts, name)[i])
  {
    hide Literal;
    AliasesLiteral(hosts);
    ChosenFrom(AliasOrder(hosts), MemberSet(hosts, name));
  }

  /** What one group's block gives an alias, as asked ... */
  function OneWanted(groups: seq<GroupMetadata>, hosts: seq<HostEntry>, name: string, alias: string): seq<Entry> {
    if Emits(groups, hosts, name) && alias in Members(hosts, name) then EntriesOf(SettingsOf(groups, name)) else []
  }

  /** ... and as it is read. */
  ghost function OneRead(groups: seq<GroupMetadata>, hosts: seq<HostEntry>, name: string, alias: string): seq<Entry> {
    if Emits(groups, hosts, name) && HostLineMatches(ParsePatterns(AsRead(Members(hosts, name))), alias)
    then EntriesRead(SettingsOf(groups, name)) else []
  }

  function Wanted(groups: seq<GroupMetadata>, hosts: seq<HostEntry>, names: seq<string>, alias: string): seq<Entry> {
    if names == [] then [] else Wanted(groups, hosts, names[..|names| - 1], alias) + OneWanted(groups, hosts, names[|names| - 1], alias)
  }

  /** The blocks in the order they are written, as they are read. */
  ghost function AllRead(groups: seq<GroupMetadata>, hosts: seq<HostEntry>, names: seq<string>, alias: string): seq<Entry> {
    if names == [] then [] else AllRead(groups, hosts, names[..|names| - 1], alias) + OneRead(groups, hosts, names[|names| - 1], alias)
  }

  lemma {:induction false} WantedIsGiven(groups: seq<GroupMetadata>, hosts: seq<HostEntry>, names: seq<string>, alias: string)
    ensures var group := GroupOfAlias(hosts, alias);
            Wanted(groups, hosts, names, alias) == if group == "" then [] else Given(groups, hosts, names, group)
  {
    hide GroupOfAlias, Given, Emits, EntriesOf, SettingsOf, Above, Members;
    var group := GroupOfAlias(hosts, alias);
    if names == [] {
      NothingGiven(groups, hosts, [], group);
    } else {
      var n := |names| - 1;
      WantedIsGiven(groups, hosts, names[..n], alias);
      assert names == names[..n] + [names[n]];
      GivenSnoc(groups, hosts, names[..n], names[n], group);
      MembersAre(hosts, names[n], alias);
      GroupedIsKnown(hosts, alias);
    }
  }

  lemma HeadEntries(blank: Line, comment: Line, header: Line, alias: string, applies: bool)
    requires blank.kind == Blank && comment.kind == Comment && IsHost(header)
    ensures Entries([blank, comment, header], alias, applies) == []
    ensures StateAfter([blank, comment, header], alias, applies) == HostLineMatches(ParsePatterns(header.Values()), alias)
  {
    hide HostLineMatches, EqualFold, ParsePatterns, Line.Values;
    var matches := HostLineMatches(ParsePatterns(header.Values()), alias);
    assert StateAfter([], alias, matches) == matches && Entries([], alias, matches) == [];
    assert [header][1..] == [];
    assert Entries([header], alias, applies) == [] && StateAfter([header], alias, applies) == matches;
    assert [comment, header][1..] == [header];
    assert Entries([comment, header], alias, applies) == [] && StateAfter([comment, header], alias, applies) == matches;
    assert [blank, comment, header][1..] == [comment, header] && [comment, header][1..] == [header] && [header][1..] == [];
  }

  lemma HeadersRead(members: seq<string>, ending: string)
    requires AllQuotable(members)
    ensures var line := Reread(Built("", "Host", members, ending)); IsHost(line) && line.Values() == AsRead(members)
  {
    hide AllQuotable, Built, Reread, AsRead;
    assert IsKeyword("Host");
    BuiltReads("", "Host", members, ending);
  }

  lemma GroupReads(groups: seq<GroupMetadata>, hosts: seq<HostEntry>, name: string, ending: string, alias: string, applies: bool)
    requires ValidName(name) && ending in {"\n", "\r\n"}
    ensures Entries(ReadLines(GroupLines(groups, hosts, name, ending)), alias, applies) == OneRead(groups, hosts, name, alias)
  {
    hide HostLineMatches, Members, AllQuotable, Built, SettingsOf, SettingLines, SettingsWrite, GroupComment, IsHost, AsRead, Reread, ReadLines, Entries, StateAfter, EntriesRead, ValidName, TextLine, ParsePatterns;
    if Emits(groups, hosts, name) {
      var blank, comment, header := TextLine(Blank, "", ending), TextLine(Comment, GroupComment(name), ending), Built("", "Host", Members(hosts, name), ending);
      var settings := SettingLines(SettingsOf(groups, name), ending);
      TextsRead(name, ending);
      HeadersRead(Members(hosts, name), ending);
      ReadLinesAppend([blank, comment, header], settings);
      assert ReadLines([blank, comment, header]) == [Reread(blank), Reread(comment), Reread(header)];
      HeadEntries(Reread(blank), Reread(comment), Reread(header), alias, applies);
      EntriesAppend(ReadLines([blank, comment, header]), ReadLines(settings), alias, applies);
      SettingEntries(SettingsOf(groups, name), ending, alias, HostLineMatches(ParsePatterns(AsRead(Members(hosts, name))), alias));
    } else {
      NoEntries(alias, applies);
      assert ReadLines([]) == [];
    }
  }

  lemma TextsRead(name: string, ending: string)
    requires ValidName(name) && ending in {"\n", "\r\n"}
    ensures Reread(TextLine(Blank, "", ending)).kind == Blank && Reread(TextLine(Comment, GroupComment(name), ending)).kind == Comment
    ensures StandsAlone(TextLine(Blank, "", ending)) && StandsAlone(TextLine(Comment, GroupComment(name), ending))
  {
    hide ValidName, ParseLine, StandsAlone, Reread, TextLine, ParentGroupName;
    CommentPlain(name);
    CommentRead(GroupComment(name), ending);
    BlankRead(ending);
  }

  lemma CommentPlain(name: string)
    requires ValidName(name)
    ensures GroupComment(name) != "" && GroupComment(name)[0] == '#' && '\n' !in GroupComment(name) && '\r' !in GroupComment(name)
  {
    hide ValidName;
    ValidBytes(name);
  }

  lemma BlankRead(ending: string)
    requires ending in {"\n", "\r\n"}
    ensures StandsAlone(TextLine(Blank, "", ending)) && Reread(TextLine(Blank, "", ending)).kind == Blank
  {}

  lemma NoEntries(alias: string, applies: bool)
    ensures Entries([], alias, applies) == []
    ensures StateAfter([], alias, applies) == applies
  {}

  lemma {:induction false} AllEntries(groups: seq<GroupMetadata>, hosts: seq<HostEntry>, names: seq<string>, ending: string, alias: string, applies: bool)
    requires (forall i :: 0 <= i < |names| ==> ValidName(names[i])) && ending in {"\n", "\r\n"}
    ensures Entries(ReadLines(AllGroupLines(groups, hosts, names, ending)), alias, applies) == AllRead(groups, hosts, names, alias)
  {
    hide GroupLines, Entries, StateAfter, OneRead, ValidName, ReadLines;
    if names == [] {
      NoEntries(alias, applies);
      assert ReadLines([]) == [];
    } else {
      var n := |names| - 1;
      var front := AllGroupLines(groups, hosts, names[..n], ending);
      AllEntries(groups, hosts, names[..n], ending, alias, applies);
      ReadLinesAppend(front, GroupLines(groups, hosts, names[n], ending));
      EntriesAppend(ReadLines(front), ReadLines(GroupLines(groups, hosts, names[n], ending)), alias, applies);
      GroupReads(groups, hosts, names[n], ending, alias, StateAfter(ReadLines(front), alias, applies));
    }
  }

  // ---- the bytes ----

  /** A line that can be written between others. */
  predicate StandsAlone(line: Line) { Writable(line) && line.ending != "" }

  predicate AllStandAlone(lines: seq<Line>) { forall i :: 0 <= i < |lines| ==> StandsAlone(lines[i]) }

  lemma StandAppend(front: seq<Line>, back: seq<Line>)
    requires AllStandAlone(front) && AllStandAlone(back)
    ensures AllStandAlone(front + back)
  {
    hide StandsAlone;
  }

  lemma CommentRead(text: string, ending: string)
    requires text != "" && text[0] == '#' && '\n' !in text && '\r' !in text && ending in {"\n", "\r\n"}
    ensures StandsAlone(TextLine(Comment, text, ending)) && Reread(TextLine(Comment, text, ending)).kind == Comment
  {
    NoReturn(text);
    assert text[0..] == text;
  }

  lemma {:induction false} SettingsStand(settings: seq<Setting>, ending: string)
    requires SettingsWrite(settings) && ending in {"\n", "\r\n"}
    ensures AllStandAlone(SettingLines(settings, ending))
  {
    hide KeywordError, AllQuotable, Built, Writable;
    forall i | 0 <= i < |settings| ensures StandsAlone(SettingLines(settings, ending)[i]) {
      assert SettingWrites(settings[i]);
      KeywordFits(settings[i].keyword);
      BuiltWritable("\t", settings[i].keyword, settings[i].values, ending);
      BuiltEnding("\t", settings[i].keyword, settings[i].values, ending);
    }
  }

  lemma BuiltEnding(indent: string, keyword: string, values: seq<string>, ending: string)
    requires AllQuotable(values)
    ensures Built(indent, keyword, values, ending).ending == ending
  {}

  lemma GroupStands(groups: seq<GroupMetadata>, hosts: seq<HostEntry>, name: string, ending: string)
    requires ValidName(name) && ending in {"\n", "\r\n"}
    ensures AllStandAlone(GroupLines(groups, hosts, name, ending))
  {
    hide StandsAlone, TextLine, Built, SettingLines, AllQuotable, SettingsWrite, GroupComment, Members, SettingsOf, ValidName, Reread;
    if Emits(groups, hosts, name) {
      TextsRead(name, ending);
      assert IsKeyword("Host");
      HostStands(Members(hosts, name), ending);
      SettingsStand(SettingsOf(groups, name), ending);
      StandAppend([TextLine(Blank, "", ending), TextLine(Comment, GroupComment(name), ending), Built("", "Host", Members(hosts, name), ending)],
                  SettingLines(SettingsOf(groups, name), ending));
    }
  }

  lemma HostStands(members: seq<string>, ending: string)
    requires AllQuotable(members) && ending in {"\n", "\r\n"}
    ensures StandsAlone(Built("", "Host", members, ending))
  {
    hide AllQuotable, Writable, Built;
    BuiltWritable("", "Host", members, ending);
    BuiltEnding("", "Host", members, ending);
  }

  lemma {:induction false} AllStand(groups: seq<GroupMetadata>, hosts: seq<HostEntry>, names: seq<string>, ending: string)
    requires ending in {"\n", "\r\n"} && forall i :: 0 <= i < |names| ==> ValidName(names[i])
    ensures AllStandAlone(AllGroupLines(groups, hosts, names, ending))
  {
    hide ValidName, GroupLines, StandsAlone;
    if names != [] {
      var n := |names| - 1;
      AllStand(groups, hosts, names[..n], ending);
      GroupStands(groups, hosts, names[n], ending);
      StandAppend(AllGroupLines(groups, hosts, names[..n], ending), GroupLines(groups, hosts, names[n], ending));
    }
  }

  predicate PlainComment(text: string) { text != "" && text[0] == '#' && Plain(text) }

  lemma Plain1()
    ensures PlainComment(Banner1())
  {
    PlainConcat("# Generated by sshc from ", "~/.ssh/sshc/metadata.json.");
  }

  lemma Plain2()
    ensures PlainComment(Banner2())
  {
    PlainConcat("because OpenSSH keeps ", "the first value it reads.");
    PlainConcat("# Child groups come first ", "because OpenSSH keeps " + "the first value it reads.");
  }

  lemma Plain3()
    ensures PlainComment(Banner3())
  {
    PlainConcat("hand edits to this file are ", "replaced on the next save.");
    PlainConcat("# Edit groups in the UI; ", "hand edits to this file are " + "replaced on the next save.");
  }

  lemma BannerPlain(i: nat)
    requires i < 3
    ensures PlainComment(Banner()[i])
  {
    hide Banner1, Banner2, Banner3, PlainComment;
    Plain1();
    Plain2();
    Plain3();
  }

  lemma BannerStands(ending: string)
    requires ending in {"\n", "\r\n"}
    ensures AllStandAlone(BannerLines(ending)) && forall i :: 0 <= i < 3 ==> Reread(BannerLines(ending)[i]).kind == Comment
  {
    hide StandsAlone, Banner, Reread;
    forall i | 0 <= i < 3 ensures StandsAlone(BannerLines(ending)[i]) && Reread(BannerLines(ending)[i]).kind == Comment {
      BannerPlain(i);
      CommentRead(Banner()[i], ending);
    }
  }

  lemma {:induction false} CommentEntries(lines: seq<Line>, alias: string, applies: bool)
    requires forall i :: 0 <= i < |lines| ==> lines[i].kind == Comment
    ensures Entries(lines, alias, applies) == []
  {
    if lines != [] { CommentEntries(lines[1..], alias, applies); }
  }

  /** Lines that stand alone are read one by one. */
  lemma StandingParses(lines: seq<Line>)
    requires AllStandAlone(lines)
    ensures Parse(RenderLines(lines)) == ReadLines(lines)
  {
    hide Writable, Reread, Parse, RenderLines;
    assert forall i :: 0 <= i < |lines| ==> StandsAlone(lines[i]);
    ParseRendered(lines);
  }

  // ---- the order ----

  lemma OrderedNames(declared: seq<string>, order: map<string, int>)
    requires forall i, j :: 0 <= i < j < |declared| ==> declared[i] != declared[j]
    ensures var names := GroupNameOrder(declared, order);
            DepthSorted(names) && forall n :: n in names <==> n in declared
  {
    hide GroupDepth, GroupNameOrder, LexLess;
    var names := GroupNameOrder(declared, order);
    OrderSorted(declared, order);
    forall n ensures n in names <==> n in declared {
      assert n in multiset(names) <==> n in multiset(declared);
    }
    forall i, j | 0 <= i < j < |names| ensures names[i] != names[j] {
      if names[i] == names[j] {
        Once(declared, names[i]);
        Twice(names, i, j);
      }
    }
  }

  lemma {:induction false} InheritedByMembership(a: seq<string>, b: seq<string>, groups: seq<GroupMetadata>, hosts: seq<HostEntry>, name: string)
    requires forall n :: n in a <==> n in b
    ensures Inherited(a, groups, hosts, name) == Inherited(b, groups, hosts, name)
    decreases |name|
  {
    if name != "" {
      ParentShorter(name);
      InheritedByMembership(a, b, groups, hosts, ParentGroupName(name));
    }
  }

  // ---- what the file means ----

  /** What the callers of the compiler provide. */
  predicate Compilable(declared: seq<string>, hosts: seq<HostEntry>, ending: string) {
    && (forall i :: 0 <= i < |declared| ==> ValidName(declared[i]))
    && (forall i, j :: 0 <= i < j < |declared| ==> declared[i] != declared[j])
    && Projected(hosts) && ending in {"", "\n", "\r\n"}
  }

  function InOrder(declared: seq<string>, groups: seq<GroupMetadata>): seq<string> { GroupNameOrder(declared, OrderTable(groups)) }

  /** The compiled bytes give an alias the settings of the blocks that match it, as they are read. */
  lemma CompiledReads(declared: seq<string>, groups: seq<GroupMetadata>, hosts: seq<HostEntry>, ending: string, alias: string)
    requires Compilable(declared, hosts, ending)
    ensures Entries(Parse(RenderLines(Compiled(declared, groups, hosts, ending))), alias, true)
         == AllRead(groups, hosts, InOrder(declared, groups), alias)
  {
    hide ValidName, Projected, Entries, StateAfter, GroupNameOrder, OrderTable, BannerLines, AllStandAlone, Parse, RenderLines, ReadLines, AllRead;
    var e, names := EndingOr(ending), InOrder(declared, groups);
    OrderedNames(declared, OrderTable(groups));
    forall i | 0 <= i < |names| ensures ValidName(names[i]) { assert names[i] in declared; }
    var body := AllGroupLines(groups, hosts, names, e);
    BannerStands(e);
    AllStand(groups, hosts, names, e);
    StandAppend(BannerLines(e), body);
    StandingParses(BannerLines(e) + body);
    ReadLinesAppend(BannerLines(e), body);
    EntriesAppend(ReadLines(BannerLines(e)), ReadLines(body), alias, true);
    BannerSilent(e, alias);
    AllEntries(groups, hosts, names, e, alias, StateAfter(ReadLines(BannerLines(e)), alias, true));
  }

  lemma BannerSilent(ending: string, alias: string)
    requires ending in {"\n", "\r\n"}
    ensures Entries(ReadLines(BannerLines(ending)), alias, true) == []
  {
    hide Banner, Reread;
    BannerStands(ending);
    CommentEntries(ReadLines(BannerLines(ending)), alias, true);
  }

  /** What was asked for is inheritance. */
  lemma WantedIsInherited(declared: seq<string>, groups: seq<GroupMetadata>, hosts: seq<HostEntry>, ending: string, alias: string)
    requires Compilable(declared, hosts, ending)
    ensures Wanted(groups, hosts, InOrder(declared, groups), alias) == Inherited(declared, groups, hosts, GroupOfAlias(hosts, alias))
  {
    hide ValidName, Projected, GroupNameOrder, OrderTable, Given, Above, GroupOfAlias, Wanted;
    var group, names := GroupOfAlias(hosts, alias), InOrder(declared, groups);
    OrderedNames(declared, OrderTable(groups));
    forall i | 0 <= i < |names| ensures ValidName(names[i]) { assert names[i] in declared; }
    WantedIsGiven(groups, hosts, names, alias);
    InheritedByMembership(names, declared, groups, hosts, group);
    if group != "" {
      NotEmpty(names);
      AboveSelf(group);
      assert names[0..] == names && names[..0] == [];
      ChainGiven(names, 0, groups, hosts, group, group);
    }
  }

  // ---- when that is what was asked for ----

  /** No line of the group's block opens its values with a bare '='. */
  predicate Spelled(groups: seq<GroupMetadata>, hosts: seq<HostEntry>, name: string) {
    && !TakenBySeparator(" ", Members(hosts, name))
    && forall i :: 0 <= i < |SettingsOf(groups, name)| ==> !TakenBySeparator(" ", SettingsOf(groups, name)[i].values)
  }

  /** Every block that is written is spelled. */
  predicate BlocksSpelled(declared: seq<string>, groups: seq<GroupMetadata>, hosts: seq<HostEntry>) {
    forall i :: 0 <= i < |declared| && Emits(groups, hosts, declared[i]) ==> Spelled(groups, hosts, declared[i])
  }

  lemma SpelledReads(groups: seq<GroupMetadata>, hosts: seq<HostEntry>, name: string, alias: string)
    requires Projected(hosts) && (Emits(groups, hosts, name) ==> Spelled(groups, hosts, name))
    ensures OneRead(groups, hosts, name, alias) == OneWanted(groups, hosts, name, alias)
  {
    hide Members, HostLineMatches, ParsePatterns, Literal, TakenBySeparator, AsRead;
    if Emits(groups, hosts, name) {
      AsReadSame(Members(hosts, name));
      MembersLiteral(hosts, name);
      LiteralHostLine(Members(hosts, name), alias);
      SettingsReadSame(SettingsOf(groups, name));
    }
  }

  lemma SettingsReadSame(settings: seq<Setting>)
    ensures EntriesRead(settings) == EntriesOf(settings) <==> forall i :: 0 <= i < |settings| ==> !TakenBySeparator(" ", settings[i].values)
  {
    hide TakenBySeparator, AsRead;
    forall i | 0 <= i < |settings| ensures AsRead(settings[i].values) == settings[i].values <==> !TakenBySeparator(" ", settings[i].values) {
      AsReadSame(settings[i].values);
    }
    if EntriesRead(settings) == EntriesOf(settings) {
      forall i | 0 <= i < |settings| ensures AsRead(settings[i].values) == settings[i].values {
        assert EntriesRead(settings)[i] == EntriesOf(settings)[i];
      }
    }
  }

  lemma {:induction false} AllSpelledRead(groups: seq<GroupMetadata>, hosts: seq<HostEntry>, names: seq<string>, alias: string)
    requires Projected(hosts) && forall i :: 0 <= i < |names| && Emits(groups, hosts, names[i]) ==> Spelled(groups, hosts, names[i])
    ensures AllRead(groups, hosts, names, alias) == Wanted(groups, hosts, names, alias)
  {
    hide Emits, Spelled, OneRead, OneWanted, Projected;
    if names != [] {
      AllSpelledRead(groups, hosts, names[..|names| - 1], alias);
      SpelledReads(groups, hosts, names[|names| - 1], alias);
    }
  }

  // A block whose header lost its '=' no longer gives its settings to the member it opened with,
  // and what is left of that member is too short to name the longest such member.

  lemma PlainPattern(value: string, alias: string)
    requires '*' !in value && '?' !in value
    ensures Matches(ParsePattern(value), alias) <==> ParsePattern(value).value == alias
  {
    LiteralScan(ParsePattern(value).value, alias, 0, 0);
    assert alias[0..] == alias && ParsePattern(value).value[0..] == ParsePattern(value).value;
  }

  lemma TakenHeaderMisses(members: seq<string>, alias: string)
    requires TakenBySeparator(" ", members) && |alias| >= |members[0]|
    requires forall i :: 0 <= i < |members| ==> Literal(members[i])
    requires forall i, j :: 0 <= i < j < |members| ==> members[i] != members[j]
    requires HostLineMatches(ParsePatterns(AsRead(members)), alias)
    ensures alias in members && alias != members[0]
  {
    hide Matches;
    var values := AsRead(members);
    var patterns := ParsePatterns(values);
    var i :| 0 <= i < |patterns| && !patterns[i].negated && Matches(patterns[i], alias);
    assert patterns[i] == ParsePattern(values[i]);
    var rest := members[0][1..];
    assert forall k :: 0 <= k < |rest| ==> rest[k] == members[0][k + 1];
    if rest != "" && i == 0 {
      PlainPattern(rest, alias);
    } else {
      var k := if rest == "" then i + 1 else i;
      assert values[i] == members[k];
      PlainPattern(members[k], alias);
    }
  }

  lemma {:induction false} AliasesOnce(hosts: seq<HostEntry>)
    ensures forall i, j :: 0 <= i < j < |AliasOrder(hosts)| ==> AliasOrder(hosts)[i] != AliasOrder(hosts)[j]
  {
    if hosts != [] { AliasesOnce(hosts[..|hosts| - 1]); }
  }

  lemma {:induction false} ChosenOnce(aliases: seq<string>, chosen: set<string>)
    requires forall i, j :: 0 <= i < j < |aliases| ==> aliases[i] != aliases[j]
    ensures forall i, j :: 0 <= i < j < |Chosen(aliases, chosen)| ==> Chosen(aliases, chosen)[i] != Chosen(aliases, chosen)[j]
  {
    if aliases != [] {
      var front := aliases[..|aliases| - 1];
      ChosenOnce(front, chosen);
      ChosenFrom(front, chosen);
      assert aliases[|aliases| - 1] !in front;
    }
  }

  lemma MembersOnce(hosts: seq<HostEntry>, name: string)
    ensures forall i, j :: 0 <= i < j < |Members(hosts, name)| ==> Members(hosts, name)[i] != Members(hosts, name)[j]
  {
    AliasesOnce(hosts);
    ChosenOnce(AliasOrder(hosts), MemberSet(hosts, name));
  }

  /** The block of this group opens with `first`, which the separator takes. */
  predicate LosesFirst(groups: seq<GroupMetadata>, hosts: seq<HostEntry>, name: string, first: string) {
    Emits(groups, hosts, name) && TakenBySeparator(" ", Members(hosts, name)) && Members(hosts, name)[0] == first
  }

  lemma OneReadNoMore(groups: seq<GroupMetadata>, hosts: seq<HostEntry>, name: string, alias: string)
    requires Projected(hosts)
    requires Emits(groups, hosts, name) && TakenBySeparator(" ", Members(hosts, name)) ==> |Members(hosts, name)[0]| <= |alias|
    ensures |OneRead(groups, hosts, name, alias)| <= |OneWanted(groups, hosts, name, alias)|
    ensures LosesFirst(groups, hosts, name, alias) ==> |OneRead(groups, hosts, name, alias)| < |OneWanted(groups, hosts, name, alias)|
  {
    hide Members, HostLineMatches, ParsePatterns, Literal, AsRead, TakenBySeparator, Projected, SettingsOf;
    if Emits(groups, hosts, name) {
      MembersLiteral(hosts, name);
      MembersOnce(hosts, name);
      var members := Members(hosts, name);
      if TakenBySeparator(" ", members) {
        if HostLineMatches(ParsePatterns(AsRead(members)), alias) { TakenHeaderMisses(members, alias); }
      } else {
        AsReadSame(members);
        LiteralHostLine(members, alias);
      }
    }
  }

  lemma {:induction false} AllReadNoMore(groups: seq<GroupMetadata>, hosts: seq<HostEntry>, names: seq<string>, alias: string)
    requires Projected(hosts)
    requires forall i :: 0 <= i < |names| && Emits(groups, hosts, names[i]) && TakenBySeparator(" ", Members(hosts, names[i])) ==>
               |Members(hosts, names[i])[0]| <= |alias|
    ensures |AllRead(groups, hosts, names, alias)| <= |Wanted(groups, hosts, names, alias)|
    ensures (exists i :: 0 <= i < |names| && LosesFirst(groups, hosts, names[i], alias)) ==>
              |AllRead(groups, hosts, names, alias)| < |Wanted(groups, hosts, names, alias)|
  {
    hide Emits, OneRead, OneWanted, Projected, Members, TakenBySeparator, LosesFirst;
    if names != [] {
      AllReadNoMore(groups, hosts, names[..|names| - 1], alias);
      OneReadNoMore(groups, hosts, names[|names| - 1], alias);
      if i :| 0 <= i < |names| && LosesFirst(groups, hosts, names[i], alias) {
        assert i < |names| - 1 ==> names[..|names| - 1][i] == names[i];
      }
    }
  }

  /** Of the members that blocks open with and the separator takes, a longest one. */
  lemma {:induction false} LongestTaken(groups: seq<GroupMetadata>, hosts: seq<HostEntry>, names: seq<string>, name: string) returns (longest: string)
    requires name in names && Emits(groups, hosts, name) && TakenBySeparator(" ", Members(hosts, name))
    ensures exists i :: 0 <= i < |names| && LosesFirst(groups, hosts, names[i], longest)
    ensures forall i :: 0 <= i < |names| && Emits(groups, hosts, names[i]) && TakenBySeparator(" ", Members(hosts, names[i])) ==>
              |Members(hosts, names[i])[0]| <= |longest|
  {
    hide Emits, Members;
    longest := Members(hosts, name)[0];
    var k0 :| 0 <= k0 < |names| && names[k0] == name;
    assert LosesFirst(groups, hosts, names[k0], longest);
    for k := 0 to |names|
      invariant exists i :: 0 <= i < |names| && LosesFirst(groups, hosts, names[i], longest)
      invariant forall i :: 0 <= i < k && Emits(groups, hosts, names[i]) && TakenBySeparator(" ", Members(hosts, names[i])) ==>
                  |Members(hosts, names[i])[0]| <= |longest|
    {
      if Emits(groups, hosts, names[k]) && TakenBySeparator(" ", Members(hosts, names[k])) && |Members(hosts, names[k])[0]| > |longest| {
        longest := Members(hosts, names[k])[0];
        assert LosesFirst(groups, hosts, names[k], longest);
      }
    }
  }

  /** With every header intact the blocks line up, and a setting that changed shows. */
  lemma {:induction false} SameMeansSpelled(groups: seq<GroupMetadata>, hosts: seq<HostEntry>, names: seq<string>, alias: string)
    requires Projected(hosts) && AllRead(groups, hosts, names, alias) == Wanted(groups, hosts, names, alias)
    requires forall i :: 0 <= i < |names| && Emits(groups, hosts, names[i]) ==> !TakenBySeparator(" ", Members(hosts, names[i]))
    ensures forall i :: 0 <= i < |names| && Emits(groups, hosts, names[i]) && alias in Members(hosts, names[i]) ==> Spelled(groups, hosts, names[i])
  {
    hide Emits, OneRead, OneWanted, Projected, Members, TakenBySeparator, SettingsOf;
    if names != [] {
      var n := |names| - 1;
      OneSameLength(groups, hosts, names[n], alias);
      var a, b := AllRead(groups, hosts, names[..n], alias), Wanted(groups, hosts, names[..n], alias);
      assert AllRead(groups, hosts, names, alias)[|a|..] == OneRead(groups, hosts, names[n], alias);
      assert Wanted(groups, hosts, names, alias)[|b|..] == OneWanted(groups, hosts, names[n], alias);
      assert a == AllRead(groups, hosts, names, alias)[..|a|] && b == Wanted(groups, hosts, names, alias)[..|b|];
      SameMeansSpelled(groups, hosts, names[..n], alias);
      forall i | 0 <= i < |names| && Emits(groups, hosts, names[i]) && alias in Members(hosts, names[i]) ensures Spelled(groups, hosts, names[i]) {
        assert i < n ==> names[..n][i] == names[i];
      }
    }
  }

  lemma OneSameLength(groups: seq<GroupMetadata>, hosts: seq<HostEntry>, name: string, alias: string)
    requires Projected(hosts) && (Emits(groups, hosts, name) ==> !TakenBySeparator(" ", Members(hosts, name)))
    ensures |OneRead(groups, hosts, name, alias)| == |OneWanted(groups, hosts, name, alias)|
    ensures OneRead(groups, hosts, name, alias) == OneWanted(groups, hosts, name, alias) && Emits(groups, hosts, name) && alias in Members(hosts, name) ==>
              Spelled(groups, hosts, name)
  {
    hide Members, HostLineMatches, ParsePatterns, Literal, AsRead, TakenBySeparator, Projected;
    if Emits(groups, hosts, name) {
      AsReadSame(Members(hosts, name));
      MembersLiteral(hosts, name);
      LiteralHostLine(Members(hosts, name), alias);
      SettingsReadSame(SettingsOf(groups, name));
    }
  }

  /** The compiled bytes give every alias its own group's settings, then each ancestor's, outwards,
      exactly when every block that is written is spelled. */
  lemma CompiledMeansIff(declared: seq<string>, groups: seq<GroupMetadata>, hosts: seq<HostEntry>, ending: string)
    requires Compilable(declared, hosts, ending)
    ensures (forall alias :: Entries(Parse(RenderLines(Compiled(declared, groups, hosts, ending))), alias, true)
                          == Inherited(declared, groups, hosts, GroupOfAlias(hosts, alias)))
            <==> BlocksSpelled(declared, groups, hosts)
  {
    hide *;
    if BlocksSpelled(declared, groups, hosts) {
      forall alias ensures Entries(Parse(RenderLines(Compiled(declared, groups, hosts, ending))), alias, true)
                        == Inherited(declared, groups, hosts, GroupOfAlias(hosts, alias))
      {
        CompiledMeans(declared, groups, hosts, ending, alias);
      }
    } else {
      var alias := SomeoneLoses(declared, groups, hosts, ending);
      assert Entries(Parse(RenderLines(Compiled(declared, groups, hosts, ending))), alias, true)
          != Inherited(declared, groups, hosts, GroupOfAlias(hosts, alias));
    }
  }

  lemma CompiledMeans(declared: seq<string>, groups: seq<GroupMetadata>, hosts: seq<HostEntry>, ending: string, alias: string)
    requires Compilable(declared, hosts, ending) && BlocksSpelled(declared, groups, hosts)
    ensures Entries(Parse(RenderLines(Compiled(declared, groups, hosts, ending))), alias, true)
         == Inherited(declared, groups, hosts, GroupOfAlias(hosts, alias))
  {
    hide Entries, Parse, RenderLines, Compiled, Inherited, GroupOfAlias, AllRead, Wanted, GroupNameOrder, OrderTable, Emits, Spelled, Projected, ValidName;
    var names := InOrder(declared, groups);
    CompiledReads(declared, groups, hosts, ending, alias);
    WantedIsInherited(declared, groups, hosts, ending, alias);
    OrderedNames(declared, OrderTable(groups));
    forall i | 0 <= i < |names| && Emits(groups, hosts, names[i]) ensures Spelled(groups, hosts, names[i]) { assert names[i] in declared; }
    AllSpelledRead(groups, hosts, names, alias);
  }

  /** Otherwise some member of a written block does not get what it should. */
  lemma SomeoneLoses(declared: seq<string>, groups: seq<GroupMetadata>, hosts: seq<HostEntry>, ending: string) returns (alias: string)
    requires Compilable(declared, hosts, ending) && !BlocksSpelled(declared, groups, hosts)
    ensures Entries(Parse(RenderLines(Compiled(declared, groups, hosts, ending))), alias, true)
         != Inherited(declared, groups, hosts, GroupOfAlias(hosts, alias))
  {
    hide Entries, Parse, RenderLines, Compiled, Inherited, GroupOfAlias, AllRead, Wanted, GroupNameOrder, OrderTable, Emits, Spelled, Projected, ValidName, Members, TakenBySeparator, LosesFirst;
    var names := InOrder(declared, groups);
    OrderedNames(declared, OrderTable(groups));
    if k :| 0 <= k < |names| && Emits(groups, hosts, names[k]) && TakenBySeparator(" ", Members(hosts, names[k])) {
      alias := LongestTaken(groups, hosts, names, names[k]);
      AllReadNoMore(groups, hosts, names, alias);
    } else {
      var i :| 0 <= i < |declared| && Emits(groups, hosts, declared[i]) && !Spelled(groups, hosts, declared[i]);
      assert declared[i] in names;
      var m :| 0 <= m < |names| && names[m] == declared[i];
      EmitsMembers(groups, hosts, names[m]);
      alias := Members(hosts, names[m])[0];
      assert alias in Members(hosts, names[m]);
      if AllRead(groups, hosts, names, alias) == Wanted(groups, hosts, names, alias) {
        SameMeansSpelled(groups, hosts, names, alias);
      }
    }
    CompiledReads(declared, groups, hosts, ending, alias);
    WantedIsInherited(declared, groups, hosts, ending, alias);
  }

  lemma EmitsMembers(groups: seq<GroupMetadata>, hosts: seq<HostEntry>, name: string)
    requires Emits(groups, hosts, name)
    ensures Members(hosts, name) != []
  {}

  lemma NotEmpty(names: seq<string>)
    requires forall i :: 0 <= i < |names| ==> ValidName(names[i])
    ensures "" !in names
  {
    hide ValidName;
    forall i | 0 <= i < |names| ensures names[i] != "" { ValidBytes(names[i]); }
  }

  // ---- two inputs that lose ----

  const OneGroup: seq<string> := ["g"]

  function OneHost(alias: string): seq<HostEntry> { [HostEntry("config", alias, "g")] }

  function OneUser(value: string): seq<GroupMetadata> { [GroupMetadata("g", 0, [Setting("User", [value])])] }

  lemma OneCompilable(alias: string, value: string)
    requires Literal(alias)
    ensures Compilable(OneGroup, OneHost(alias), "\n")
    ensures InOrder(OneGroup, OneUser(value)) == ["g"] && GroupOfAlias(OneHost(alias), alias) == "g"
  {
    hide OrderTable, GroupNameOrder;
    assert ValidName("g");
    OrderedNames(OneGroup, OrderTable(OneUser(value)));
    var names := InOrder(OneGroup, OneUser(value));
    assert names[0] in names && "g" in names by { assert "g" in OneGroup; }
    assert forall i :: 0 <= i < |names| ==> names[i] in names;
    assert |names| == 1;
    assert OneHost(alias)[..0] == [];
  }

  lemma OneEmits(alias: string, value: string)
    requires Literal(alias) && !Unquotable(alias) && !Unquotable(value)
    ensures Members(OneHost(alias), "g") == [alias] && SettingsOf(OneUser(value), "g") == [Setting("User", [value])]
    ensures Emits(OneUser(value), OneHost(alias), "g")
  {
    hide Unquotable;
    var hosts := OneHost(alias);
    assert hosts[..0] == [];
    assert AliasOrder(hosts) == [alias];
    assert MemberOf(hosts, "g", alias);
    assert alias in MemberSet(hosts, "g") by { assert AliasOrder(hosts)[0] == alias; }
    assert [alias][..0] == [];
    assert Chosen([alias], MemberSet(hosts, "g")) == [alias];
    assert KeywordError("User") == None;
  }

  lemma OneInherits(alias: string, value: string)
    requires Literal(alias) && !Unquotable(alias) && !Unquotable(value)
    ensures Inherited(OneGroup, OneUser(value), OneHost(alias), "g") == [Entry(Lower("User"), [value])]
  {
    hide Emits, SettingsOf, Members;
    OneEmits(alias, value);
    assert ParentGroupName("g") == "";
    assert Inherited(OneGroup, OneUser(value), OneHost(alias), "") == [];
  }

  /** A user name that opens with '=' loses it. */
  lemma ValueLosesEquals()
    ensures Inherited(OneGroup, OneUser("=x"), OneHost("h"), GroupOfAlias(OneHost("h"), "h")) == [Entry("user", ["=x"])]
    ensures Entries(Parse(RenderLines(Compiled(OneGroup, OneUser("=x"), OneHost("h"), "\n"))), "h", true) == [Entry("user", ["x"])]
  {
    hide Compiled, Parse, RenderLines, Entries, Emits, SettingsOf, Members, HostLineMatches, ParsePatterns, Inherited, GroupOfAlias, InOrder, Compilable;
    assert Lower("User") == "user";
    OneCompilable("h", "=x");
    OneEmits("h", "=x");
    OneInherits("h", "=x");
    CompiledReads(OneGroup, OneUser("=x"), OneHost("h"), "\n", "h");
    LiteralHostLine(["h"], "h");
    assert AsRead(["h"]) == ["h"] && AsRead(["=x"]) == ["x"];
    assert ["g"][..0] == [];
  }

  /** An alias that opens with '=' gets nothing from its group. */
  lemma AliasLosesBlock()
    ensures Inherited(OneGroup, OneUser("u"), OneHost("=h"), GroupOfAlias(OneHost("=h"), "=h")) == [Entry("user", ["u"])]
    ensures Entries(Parse(RenderLines(Compiled(OneGroup, OneUser("u"), OneHost("=h"), "\n"))), "=h", true) == []
  {
    hide Compiled, Parse, RenderLines, Entries, Emits, SettingsOf, Members, HostLineMatches, ParsePatterns, Inherited, GroupOfAlias, InOrder, Compilable;
    assert Lower("User") == "user";
    OneCompilable("=h", "u");
    OneEmits("=h", "u");
    OneInherits("=h", "u");
    CompiledReads(OneGroup, OneUser("u"), OneHost("=h"), "\n", "=h");
    LiteralHostLine(["h"], "=h");
    assert AsRead(["=h"]) == ["h"];
    assert ["g"][..0] == [];
  }
}
