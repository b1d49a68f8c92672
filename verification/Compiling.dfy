/** The compiler from group settings to Host blocks. */
module Compiling {
  // The compiler from group settings to ordinary Host blocks.  A group's block lists its
  // own members and those of every group nested in it, and the deepest groups come first.

  import opened Results
  import opened Text
  import opened Syntax
  import opened Rewriting
  import opened Edits
  import opened Names

  datatype Setting = Setting(keyword: string, values: seq<string>)
  datatype GroupMetadata = GroupMetadata(name: string, order: int, settings: seq<Setting>)
  datatype HostEntry = HostEntry(path: string, alias: string, group: string)

  predicate Named(host: HostEntry) { host.path != "" && host.alias != "" }

  // ---- tables ----

  function LastMetadata(groups: seq<GroupMetadata>, name: string): Option<GroupMetadata> {
    if groups == [] then None
    else if groups[|groups| - 1].name == name then Some(groups[|groups| - 1])
    else LastMetadata(groups[..|groups| - 1], name)
  }

  function SettingsOf(groups: seq<GroupMetadata>, name: string): seq<Setting> {
    match LastMetadata(groups, name) case None => [] case Some(g) => g.settings
  }

  function OrderTable(groups: seq<GroupMetadata>): map<string, int> {
    if groups == [] then map[]
    else OrderTable(groups[..|groups| - 1])[groups[|groups| - 1].name := groups[|groups| - 1].order]
  }

  /** Every alias once, in the order first seen. */
  function AliasOrder(hosts: seq<HostEntry>): seq<string> {
    if hosts == [] then []
    else
      var before, host := AliasOrder(hosts[..|hosts| - 1]), hosts[|hosts| - 1];
      if Named(host) && host.alias !in before then before + [host.alias] else before
  }

  /** The group of the first host with this alias. */
  function GroupOfAlias(hosts: seq<HostEntry>, alias: string): string {
    if hosts == [] then ""
    else
      var host := hosts[|hosts| - 1];
      if alias in AliasOrder(hosts[..|hosts| - 1]) || !Named(host) || host.alias != alias
      then GroupOfAlias(hosts[..|hosts| - 1], alias) else host.group
  }

  /** The alias sits in the group or in one nested in it. */
  predicate MemberOf(hosts: seq<HostEntry>, name: string, alias: string) {
    alias in AliasOrder(hosts) && GroupOfAlias(hosts, alias) != "" && Above(name, GroupOfAlias(hosts, alias))
  }

  function Chosen(aliases: seq<string>, chosen: set<string>): seq<string> {
    if aliases == [] then []
    else Chosen(aliases[..|aliases| - 1], chosen) + if aliases[|aliases| - 1] in chosen then [aliases[|aliases| - 1]] else []
  }

  lemma {:induction false} ChosenMembers(aliases: seq<string>, chosen: set<string>, alias: string)
    ensures alias in Chosen(aliases, chosen) <==> alias in aliases && alias in chosen
  {
    if aliases != [] {
      ChosenMembers(aliases[..|aliases| - 1], chosen, alias);
      assert aliases == aliases[..|aliases| - 1] + [aliases[|aliases| - 1]];
    }
  }

  function MemberSet(hosts: seq<HostEntry>, name: string): set<string> {
    set i | 0 <= i < |AliasOrder(hosts)| && MemberOf(hosts, name, AliasOrder(hosts)[i]) :: AliasOrder(hosts)[i]
  }

  function Members(hosts: seq<HostEntry>, name: string): seq<string> {
    Chosen(AliasOrder(hosts), MemberSet(hosts, name))
  }

  lemma MembersAre(hosts: seq<HostEntry>, name: string, alias: string)
    ensures alias in Members(hosts, name) <==> MemberOf(hosts, name, alias)
  {
    ChosenMembers(AliasOrder(hosts), MemberSet(hosts, name), alias);
  }

  // ---- blocks ----

  predicate SettingWrites(setting: Setting) { KeywordError(setting.keyword) == None && AllQuotable(setting.values) }

  predicate SettingsWrite(settings: seq<Setting>) {
    forall i :: 0 <= i < |settings| ==> SettingWrites(settings[i])
  }

  /** A group gets a block when it has members and settings and all of them can be written. */
  predicate Emits(groups: seq<GroupMetadata>, hosts: seq<HostEntry>, name: string) {
    && Members(hosts, name) != [] && SettingsOf(groups, name) != []
    && AllQuotable(Members(hosts, name)) && SettingsWrite(SettingsOf(groups, name))
  }

  function SettingLines(settings: seq<Setting>, ending: string): (lines: seq<Line>)
    requires SettingsWrite(settings)
    ensures |lines| == |settings|
    ensures forall i :: 0 <= i < |settings| ==> SettingWrites(settings[i]) && lines[i] == Built("\t", settings[i].keyword, settings[i].values, ending)
  {
    if settings == [] then []
    else
      assert SettingWrites(settings[|settings| - 1]);
      SettingLines(settings[..|settings| - 1], ending)
      + [Built("\t", settings[|settings| - 1].keyword, settings[|settings| - 1].values, ending)]
  }

  function GroupComment(name: string): string {
    "# group " + name + if ParentGroupName(name) == "" then "" else " (parent " + ParentGroupName(name) + ")"
  }

  function GroupLines(groups: seq<GroupMetadata>, hosts: seq<HostEntry>, name: string, ending: string): seq<Line> {
    if !Emits(groups, hosts, name) then []
    else
      [TextLine(Blank, "", ending), TextLine(Comment, GroupComment(name), ending), Built("", "Host", Members(hosts, name), ending)]
      + SettingLines(SettingsOf(groups, name), ending)
  }

  function AllGroupLines(groups: seq<GroupMetadata>, hosts: seq<HostEntry>, names: seq<string>, ending: string): seq<Line> {
    if names == [] then []
    else AllGroupLines(groups, hosts, names[..|names| - 1], ending) + GroupLines(groups, hosts, names[|names| - 1], ending)
  }

  function Banner1(): string { "# Generated by sshc from " + "~/.ssh/sshc/metadata.json." }

  function Banner2(): string {
    "# Child groups come first " + ("because OpenSSH keeps " + "the first value it reads.")
  }

  function Banner3(): string {
    "# Edit groups in the UI; " + ("hand edits to this file are " + "replaced on the next save.")
  }

  function Banner(): (lines: seq<string>)
    ensures |lines| == 3
  {
    [Banner1(), Banner2(), Banner3()]
  }

  function BannerLines(ending: string): seq<Line> {
    [TextLine(Comment, Banner()[0], ending), TextLine(Comment, Banner()[1], ending), TextLine(Comment, Banner()[2], ending)]
  }

  function EndingOr(ending: string): string { if ending == "" then "\n" else ending }

  function Compiled(declared: seq<string>, groups: seq<GroupMetadata>, hosts: seq<HostEntry>, ending: string): seq<Line> {
    BannerLines(EndingOr(ending)) + AllGroupLines(groups, hosts, GroupNameOrder(declared, OrderTable(groups)), EndingOr(ending))
  }

  // ---- the loops ----

  predicate Listed(direct: map<string, seq<string>>, group: string, alias: string) {
    group in direct && alias in direct[group]
  }

  predicate Belongs(hosts: seq<HostEntry>, group: string, alias: string) {
    group != "" && alias in AliasOrder(hosts) && GroupOfAlias(hosts, alias) == group
  }

  ghost predicate DirectTable(hosts: seq<HostEntry>, direct: map<string, seq<string>>) {
    forall group, alias :: Listed(direct, group, alias) <==> Belongs(hosts, group, alias)
  }

  predicate IsNew(hosts: seq<HostEntry>, host: HostEntry) { Named(host) && host.alias !in AliasOrder(hosts) }

  function WithHost(direct: map<string, seq<string>>, host: HostEntry): map<string, seq<string>> {
    if host.group == "" then direct
    else direct[host.group := (if host.group in direct then direct[host.group] else []) + [host.alias]]
  }

  lemma OneHostMore(hosts: seq<HostEntry>, host: HostEntry)
    ensures AliasOrder(hosts + [host]) == if IsNew(hosts, host) then AliasOrder(hosts) + [host.alias] else AliasOrder(hosts)
    ensures forall group, alias :: Belongs(hosts + [host], group, alias) <==>
      Belongs(hosts, group, alias) || (IsNew(hosts, host) && host.group != "" && group == host.group && alias == host.alias)
  {
    var next := hosts + [host];
    assert next[..|next| - 1] == hosts;
    forall group, alias
      ensures Belongs(next, group, alias) <==>
        Belongs(hosts, group, alias) || (IsNew(hosts, host) && host.group != "" && group == host.group && alias == host.alias)
    {
      assert GroupOfAlias(next, alias) == if IsNew(hosts, host) && alias == host.alias then host.group else GroupOfAlias(hosts, alias);
      assert alias in AliasOrder(next) <==> alias in AliasOrder(hosts) || (IsNew(hosts, host) && alias == host.alias);
    }
  }

  lemma DirectNext(hosts: seq<HostEntry>, k: nat, direct: map<string, seq<string>>)
    requires k < |hosts| && DirectTable(hosts[..k], direct)
    ensures AliasOrder(hosts[..k + 1]) == if IsNew(hosts[..k], hosts[k]) then AliasOrder(hosts[..k]) + [hosts[k].alias] else AliasOrder(hosts[..k])
    ensures DirectTable(hosts[..k + 1], if IsNew(hosts[..k], hosts[k]) then WithHost(direct, hosts[k]) else direct)
  {
    hide Belongs, AliasOrder;
    assert hosts[..k + 1] == hosts[..k] + [hosts[k]];
    OneHostMore(hosts[..k], hosts[k]);
  }

  method TabulateHosts(hosts: seq<HostEntry>) returns (aliasOrder: seq<string>, direct: map<string, seq<string>>)
    ensures aliasOrder == AliasOrder(hosts) && DirectTable(hosts, direct)
  {
    hide DirectTable, AliasOrder;
    aliasOrder, direct := [], map[];
    NoHosts(hosts);
    var seen: set<string> := {};
    for k := 0 to |hosts|
      invariant aliasOrder == AliasOrder(hosts[..k]) && DirectTable(hosts[..k], direct)
      invariant forall alias :: alias in seen <==> alias in aliasOrder
    {
      var host := hosts[k];
      DirectNext(hosts, k, direct);
      if Named(host) && host.alias !in seen {
        seen := seen + {host.alias};
        aliasOrder := aliasOrder + [host.alias];
        if host.group != "" {
          direct := direct[host.group := (if host.group in direct then direct[host.group] else []) + [host.alias]];
        }
      }
    }
    assert hosts[..|hosts|] == hosts;
  }

  lemma NoHosts(hosts: seq<HostEntry>)
    ensures DirectTable(hosts[..0], map[]) && AliasOrder(hosts[..0]) == []
  {}

  function SetOfAliases(aliases: seq<string>): (all: set<string>)
    ensures forall alias :: alias in all <==> alias in aliases
  {
    set i | 0 <= i < |aliases| :: aliases[i]
  }

  method GroupMembers(ghost hosts: seq<HostEntry>, direct: map<string, seq<string>>, aliasOrder: seq<string>, name: string)
      returns (members: seq<string>)
    requires aliasOrder == AliasOrder(hosts) && DirectTable(hosts, direct)
    ensures members == Members(hosts, name)
  {
    hide Above, AliasOrder, GroupOfAlias;
    var collected: set<string> := {};
    var pending := direct.Keys;
    while pending != {}
      invariant pending <= direct.Keys
      invariant forall alias :: alias in collected <==>
        exists group :: Listed(direct, group, alias) && group !in pending && Above(name, group)
      decreases |pending|
    {
      var candidate :| candidate in pending;
      pending := pending - {candidate};
      AboveIs(name, candidate);
      if candidate == name || HasPrefix(candidate, name + "/") {
        forall alias ensures alias in direct[candidate] <==> Listed(direct, candidate, alias) {}
        collected := collected + SetOfAliases(direct[candidate]);
      }
    }

    assert collected == MemberSet(hosts, name);
    members := [];
    for k := 0 to |aliasOrder|
      invariant members == Chosen(aliasOrder[..k], collected)
    {
      assert aliasOrder[..k + 1][..k] == aliasOrder[..k];
      if aliasOrder[k] in collected { members := members + [aliasOrder[k]]; }
    }
    assert aliasOrder[..|aliasOrder|] == aliasOrder;
  }

  lemma AboveIs(name: string, candidate: string)
    ensures Above(name, candidate) <==> candidate == name || HasPrefix(candidate, name + "/")
  {}

  lemma {:induction false} RenderLinesAppend(front: seq<Line>, back: seq<Line>)
    ensures RenderLines(front + back) == RenderLines(front) + RenderLines(back)
  {
    if front == [] {
      assert front + back == back;
    } else {
      assert (front + back)[1..] == front[1..] + back;
      RenderLinesAppend(front[1..], back);
      Regroup(front[0].Render(), RenderLines(front[1..]), RenderLines(back));
    }
  }

  lemma RenderOne(lines: seq<Line>, line: Line)
    ensures RenderLines(lines + [line]) == RenderLines(lines) + line.Render()
  {
    RenderLinesAppend(lines, [line]);
    assert [line][1..] == [] && line.Render() + "" == line.Render();
  }

  lemma SettingLinesSnoc(settings: seq<Setting>, ending: string)
    requires SettingsWrite(settings) && settings != []
    ensures var n := |settings| - 1;
            && AllQuotable(settings[n].values) && SettingsWrite(settings[..n]) && SettingWrites(settings[n])
            && SettingLines(settings, ending)
               == SettingLines(settings[..n], ending) + [Built("\t", settings[n].keyword, settings[n].values, ending)]
  {
    hide Built, KeywordError, AllQuotable;
    assert SettingWrites(settings[|settings| - 1]);
  }

  lemma SettingsNext(settings: seq<Setting>, k: nat)
    requires k < |settings|
    ensures SettingsWrite(settings[..k + 1]) <==> SettingsWrite(settings[..k]) && SettingWrites(settings[k])
    ensures settings[..k + 1][..k] == settings[..k]
    ensures !SettingWrites(settings[k]) ==> !SettingsWrite(settings)
  {
    hide SettingWrites;
    var next := settings[..k + 1];
    assert next[..k] == settings[..k] && next[k] == settings[k];
    forall i | 0 <= i < k ensures next[i] == settings[..k][i] {}
  }

  method CompileSettings(settings: seq<Setting>, ending: string) returns (block: string, valid: bool)
    ensures valid == SettingsWrite(settings)
    ensures valid ==> block == RenderLines(SettingLines(settings, ending))
  {
    hide SettingWrites, SettingsWrite, SettingLines, KeywordError, RenderLines, AllQuotable, Line.Render;
    block := "";
    NoSettings(ending);
    assert settings[..0] == [];
    for k := 0 to |settings|
      invariant SettingsWrite(settings[..k]) && block == RenderLines(SettingLines(settings[..k], ending))
    {
      var setting := settings[k];
      var error := ValidateKeyword(setting.keyword);
      var written, ok := WriteValues([], setting.values);
      SettingWritesIff(setting);
      SettingsNext(settings, k);
      if error.Some? || !ok { return "", false; }
      SettingLinesSnoc(settings[..k + 1], ending);
      RenderOne(SettingLines(settings[..k], ending), Built("\t", setting.keyword, setting.values, ending));
      block := block + DirectiveLine("\t", setting.keyword, " ", written, "", ending).Render();
    }
    assert settings[..|settings|] == settings;
    valid := true;
  }

  lemma NoSettings(ending: string)
    ensures SettingsWrite([]) && SettingLines([], ending) == [] && RenderLines([]) == ""
  {}

  lemma SettingWritesIff(setting: Setting)
    ensures SettingWrites(setting) <==> KeywordError(setting.keyword) == None && AllQuotable(setting.values)
  {}

  lemma NoLines()
    ensures RenderLines([]) == ""
  {}

  method CompileGroup(ghost groups: seq<GroupMetadata>, ghost hosts: seq<HostEntry>, name: string,
                      members: seq<string>, settings: seq<Setting>, ending: string) returns (block: string)
    requires members == Members(hosts, name) && settings == SettingsOf(groups, name)
    ensures block == RenderLines(GroupLines(groups, hosts, name, ending))
  {
    hide AllQuotable, SettingsWrite, RenderLines, Members, Written, Line.Render;
    assert RenderLines([]) == "" by { NoLines(); }
    if |members| == 0 || |settings| == 0 { return ""; }
    var written, ok := WriteValues([], members);
    if !ok { return ""; }
    var lines, valid := CompileSettings(settings, ending);
    if !valid { return ""; }
    var header := DirectiveLine("", "Host", " ", written, "", ending);
    block := ending + "# group " + name;
    var parent := ParentGroupName(name);
    if parent != "" { block := block + (" (parent " + parent + ")"); }
    block := block + ending + header.Render() + lines;
    HeadRenders(name, header, ending);
    RenderLinesAppend([TextLine(Blank, "", ending), TextLine(Comment, GroupComment(name), ending), header], SettingLines(settings, ending));
  }

  lemma ThreeRender(a: Line, b: Line, c: Line)
    ensures RenderLines([a, b, c]) == a.Render() + b.Render() + c.Render()
  {
    hide Line.Render;
    NoLines();
    RenderOne([], a);
    RenderOne([a], b);
    RenderOne([a, b], c);
    assert [] + [a] == [a] && [a] + [b] == [a, b] && [a, b] + [c] == [a, b, c];
  }

  lemma HeadRenders(name: string, header: Line, ending: string)
    ensures RenderLines([TextLine(Blank, "", ending), TextLine(Comment, GroupComment(name), ending), header])
         == ending + GroupComment(name) + ending + header.Render()
    ensures GroupComment(name) == "# group " + name + if ParentGroupName(name) == "" then "" else " (parent " + ParentGroupName(name) + ")"
  {
    hide Line.Render, RenderLines, TextLine, ParentGroupName;
    var a, b := TextLine(Blank, "", ending), TextLine(Comment, GroupComment(name), ending);
    TextRenders(Blank, "", ending);
    TextRenders(Comment, GroupComment(name), ending);
    ThreeRender(a, b, header);
    Regroup(ending, GroupComment(name), ending);
    assert "" + ending == ending;
  }

  lemma TextRenders(kind: LineKind, text: string, ending: string)
    requires kind != Directive
    ensures TextLine(kind, text, ending).Render() == text + ending
  {}

  lemma BannerRenders(ending: string)
    ensures RenderLines(BannerLines(ending)) == Banner()[0] + ending + Banner()[1] + ending + Banner()[2] + ending
  {
    hide Line.Render, Banner, RenderLines;
    TextRenders(Comment, Banner()[0], ending);
    TextRenders(Comment, Banner()[1], ending);
    TextRenders(Comment, Banner()[2], ending);
    ThreeRender(BannerLines(ending)[0], BannerLines(ending)[1], BannerLines(ending)[2]);
  }

  method CompileGroups(declared: seq<string>, groups: seq<GroupMetadata>, hosts: seq<HostEntry>, lineEnding: string)
      returns (text: string)
    ensures text == RenderLines(Compiled(declared, groups, hosts, lineEnding))
  {
    hide RenderLines, Banner, Members, GroupNameOrder, SettingsOf, LastMetadata;
    var ending := lineEnding;
    if ending == "" { ending := "\n"; }
    var byName: map<string, GroupMetadata> := map[];
    var order: map<string, int> := map[];
    NoMetadata();
    assert groups[..0] == [];
    for k := 0 to |groups|
      invariant order == OrderTable(groups[..k])
      invariant MetadataTable(groups[..k], byName)
    {
      MetadataNext(groups, k, byName);
      byName := byName[groups[k].name := groups[k]];
      order := order[groups[k].name := groups[k].order];
    }
    assert groups[..|groups|] == groups;
    var aliasOrder, direct := TabulateHosts(hosts);
    text := "";
    text := text + Banner()[0] + ending;
    text := text + Banner()[1] + ending;
    text := text + Banner()[2] + ending;
    BannerRenders(ending);
    var names := GroupNameOrder(declared, order);
    NoLines();
    for k := 0 to |names|
      invariant text == RenderLines(BannerLines(ending)) + RenderLines(AllGroupLines(groups, hosts, names[..k], ending))
    {
      var name := names[k];
      var settings := if name in byName then byName[name].settings else [];
      assert settings == SettingsOf(groups, name) by {
        assert MetadataFound(groups, byName, name);
        SettingsAre(groups, name);
      }
      var members := GroupMembers(hosts, direct, aliasOrder, name);
      var block := CompileGroup(groups, hosts, name, members, settings, ending);
      assert names[..k + 1][..k] == names[..k];
      RenderLinesAppend(AllGroupLines(groups, hosts, names[..k], ending), GroupLines(groups, hosts, name, ending));
      Regroup(RenderLines(BannerLines(ending)), RenderLines(AllGroupLines(groups, hosts, names[..k], ending)), block);
      text := text + block;
    }
    assert names[..|names|] == names;
    RenderLinesAppend(BannerLines(ending), AllGroupLines(groups, hosts, names, ending));
  }

  lemma OneMetadataMore(groups: seq<GroupMetadata>, group: GroupMetadata, name: string)
    ensures OrderTable(groups + [group]) == OrderTable(groups)[group.name := group.order]
    ensures LastMetadata(groups + [group], name) == if name == group.name then Some(group) else LastMetadata(groups, name)
  {
    assert (groups + [group])[..|groups|] == groups;
  }

  predicate MetadataFound(groups: seq<GroupMetadata>, byName: map<string, GroupMetadata>, name: string) {
    LastMetadata(groups, name) == if name in byName then Some(byName[name]) else None
  }

  ghost predicate MetadataTable(groups: seq<GroupMetadata>, byName: map<string, GroupMetadata>) {
    forall name :: MetadataFound(groups, byName, name)
  }

  lemma MetadataNext(groups: seq<GroupMetadata>, k: nat, byName: map<string, GroupMetadata>)
    requires k < |groups| && MetadataTable(groups[..k], byName)
    ensures OrderTable(groups[..k + 1]) == OrderTable(groups[..k])[groups[k].name := groups[k].order]
    ensures MetadataTable(groups[..k + 1], byName[groups[k].name := groups[k]])
  {
    hide LastMetadata, OrderTable;
    assert groups[..k + 1] == groups[..k] + [groups[k]];
    OneMetadataMore(groups[..k], groups[k], "");
    var next, table := groups[..k + 1], byName[groups[k].name := groups[k]];
    forall name ensures MetadataFound(next, table, name) {
      assert MetadataFound(groups[..k], byName, name);
      OneMetadataMore(groups[..k], groups[k], name);
    }
  }

  lemma NoMetadata()
    ensures MetadataTable([], map[])
  {}

  lemma SettingsAre(groups: seq<GroupMetadata>, name: string)
    ensures SettingsOf(groups, name) == if LastMetadata(groups, name) == None then [] else LastMetadata(groups, name).value.settings
  {}
}
