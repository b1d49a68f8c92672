/** Inheritance in terms of the metadata. */
module Ancestry {
  // What the compiled groups file gives an alias, in terms of the declared names, the
  // metadata and the list of hosts alone: which groups contribute, with which settings, and
  // which of them wins.  Nothing here asks what the compiler decided to write.

  import opened Results
  import opened Text
  import opened Syntax
  import opened Reparse
  import opened Rewriting
  import opened Edits
  import opened Names
  import opened Reading
  import opened Compiling
  import opened Inheritance

  // ---- the hosts ----

  /** The first host that has a file and this alias. */
  ghost predicate Speaks(hosts: seq<HostEntry>, i: int, alias: string) {
    && 0 <= i < |hosts| && hosts[i].path != "" && hosts[i].alias != "" && hosts[i].alias == alias
    && forall j :: 0 <= j < i && hosts[j].alias == alias ==> hosts[j].path == ""
  }

  /** The group is this one or a directory inside it. */
  predicate Inside(group: string, name: string) {
    group != "" && (group == name || (|group| > |name| && group[..|name|] == name && group[|name|] == '/'))
  }

  ghost function GroupNamed(hosts: seq<HostEntry>, alias: string): string {
    if i :| Speaks(hosts, i, alias) then hosts[i].group else ""
  }

  lemma SpeaksMore(hosts: seq<HostEntry>, i: int, alias: string)
    requires hosts != [] && i < |hosts| - 1
    ensures Speaks(hosts[..|hosts| - 1], i, alias) <==> Speaks(hosts, i, alias)
  {}

  lemma {:induction false} KnownIff(hosts: seq<HostEntry>, alias: string)
    ensures alias in AliasOrder(hosts) <==> exists i :: Speaks(hosts, i, alias)
    ensures forall i :: Speaks(hosts, i, alias) ==> GroupOfAlias(hosts, alias) == hosts[i].group
    ensures alias !in AliasOrder(hosts) ==> GroupOfAlias(hosts, alias) == ""
  {
    hide Speaks;
    if hosts == [] {
      NobodySpeaks(alias);
    } else {
      var n, front := |hosts| - 1, hosts[..|hosts| - 1];
      KnownIff(front, alias);
      forall i: int | i < n ensures Speaks(front, i, alias) <==> Speaks(hosts, i, alias) { SpeaksMore(hosts, i, alias); }
      forall i: int | i > n ensures !Speaks(hosts, i, alias) { SpeaksWithin(hosts, i, alias); }
      forall i | Speaks(front, i, alias) ensures i < n { SpeaksWithin(front, i, alias); }
      LastSpeaks(hosts, alias);
      forall i ensures Speaks(hosts, i, alias) ==> 0 <= i < |hosts| { SpeaksWithin(hosts, i, alias); }
      forall i | 0 <= i < |hosts| && Speaks(hosts, i, alias) ensures GroupOfAlias(hosts, alias) == hosts[i].group {
        if i < n { assert Speaks(front, i, alias) && front[i] == hosts[i]; }
      }
    }
  }

  lemma NobodySpeaks(alias: string)
    ensures forall i :: !Speaks([], i, alias)
  {}

  lemma SpeaksWithin(hosts: seq<HostEntry>, i: int, alias: string)
    ensures Speaks(hosts, i, alias) ==> 0 <= i < |hosts|
  {}

  lemma LastSpeaks(hosts: seq<HostEntry>, alias: string)
    requires hosts != []
    ensures var n := |hosts| - 1;
            Speaks(hosts, n, alias) <==> hosts[n].path != "" && hosts[n].alias != "" && hosts[n].alias == alias && forall i :: !Speaks(hosts[..n], i, alias)
  {
    var n, front := |hosts| - 1, hosts[..|hosts| - 1];
    if hosts[n].alias == alias && alias != "" && exists j :: 0 <= j < n && hosts[j].alias == alias && hosts[j].path != "" {
      var j := FirstSpeaker(front, alias);
    }
  }

  lemma FirstSpeaker(hosts: seq<HostEntry>, alias: string) returns (i: int)
    requires alias != "" && exists j :: 0 <= j < |hosts| && hosts[j].alias == alias && hosts[j].path != ""
    ensures Speaks(hosts, i, alias)
  {
    i := 0;
    while hosts[i].alias != alias || hosts[i].path == ""
      invariant 0 <= i < |hosts|
      invariant forall j :: 0 <= j < i && hosts[j].alias == alias ==> hosts[j].path == ""
      decreases |hosts| - i
    {
      assert exists j :: i < j < |hosts| && hosts[j].alias == alias && hosts[j].path != "";
      i := i + 1;
    }
  }

  lemma GroupIs(hosts: seq<HostEntry>, alias: string)
    ensures GroupOfAlias(hosts, alias) == GroupNamed(hosts, alias)
    ensures alias in AliasOrder(hosts) <==> exists i :: Speaks(hosts, i, alias)
  {
    hide Speaks;
    KnownIff(hosts, alias);
  }

  lemma InsideIff(group: string, name: string)
    requires group != ""
    ensures Above(name, group) <==> Inside(group, name)
  {
    if HasPrefix(group, name + "/") {
      assert group[..|name|] == (name + "/")[..|name|] == name && group[|name|] == (name + "/")[|name|];
    }
    if Inside(group, name) && group != name {
      assert group[..|name| + 1] == group[..|name|] + [group[|name|]];
    }
  }

  lemma MemberIff(hosts: seq<HostEntry>, name: string, alias: string)
    ensures alias in Members(hosts, name) <==> Inside(GroupNamed(hosts, alias), name)
  {
    hide Speaks, Above, GroupOfAlias, GroupNamed;
    MembersAre(hosts, name, alias);
    GroupIs(hosts, alias);
    KnownIff(hosts, alias);
    if GroupNamed(hosts, alias) != "" { InsideIff(GroupNamed(hosts, alias), name); }
  }

  // ---- the settings ----

  /** The last metadata entry with this name. */
  ghost predicate Latest(groups: seq<GroupMetadata>, name: string, k: int) {
    0 <= k < |groups| && groups[k].name == name && forall m :: k < m < |groups| ==> groups[m].name != name
  }

  ghost function OwnSettings(groups: seq<GroupMetadata>, name: string): seq<Setting> {
    if k :| Latest(groups, name, k) then groups[k].settings else []
  }

  lemma {:induction false} SettingsAre(groups: seq<GroupMetadata>, name: string)
    ensures SettingsOf(groups, name) == OwnSettings(groups, name)
  {
    if groups != [] {
      var n, front := |groups| - 1, groups[..|groups| - 1];
      SettingsAre(front, name);
      if groups[n].name == name {
        assert Latest(groups, name, n);
      } else {
        if k :| Latest(front, name, k) { assert Latest(groups, name, k); }
        if k :| Latest(groups, name, k) { assert Latest(front, name, k); }
      }
    }
  }

  ghost predicate LegalSettings(settings: seq<Setting>) {
    forall i :: 0 <= i < |settings| ==> LegalKeyword(settings[i].keyword) && forall v :: v in settings[i].values ==> Spellable(v)
  }

  lemma LegalIff(settings: seq<Setting>)
    ensures SettingsWrite(settings) <==> LegalSettings(settings)
  {
    hide KeywordError, LegalKeyword, Unquotable, Spellable;
    forall i | 0 <= i < |settings| ensures SettingWrites(settings[i]) <==> LegalKeyword(settings[i].keyword) && forall v :: v in settings[i].values ==> Spellable(v) {
      KeywordIff(settings[i].keyword);
      QuotableIff(settings[i].values);
    }
  }

  // ---- which groups contribute ----

  /** Everything its block would hold can be written: its settings, and the aliases in it or in a group inside it. */
  ghost predicate Able(groups: seq<GroupMetadata>, hosts: seq<HostEntry>, name: string) {
    LegalSettings(OwnSettings(groups, name)) && forall alias :: Inside(GroupNamed(hosts, alias), name) ==> Spellable(alias)
  }

  /** A group gets a block exactly when it has settings, somebody is in it and everything can be written. */
  lemma EmitsIff(groups: seq<GroupMetadata>, hosts: seq<HostEntry>, name: string)
    ensures Emits(groups, hosts, name) <==>
              OwnSettings(groups, name) != [] && (exists alias :: Inside(GroupNamed(hosts, alias), name)) && Able(groups, hosts, name)
  {
    hide Members, Inside, GroupNamed, SettingsOf, OwnSettings, SettingsWrite, LegalSettings, AllQuotable, Spellable;
    var members := Members(hosts, name);
    SettingsAre(groups, name);
    LegalIff(OwnSettings(groups, name));
    QuotableIff(members);
    forall alias ensures alias in members <==> Inside(GroupNamed(hosts, alias), name) { MemberIff(hosts, name, alias); }
    if members != [] { assert members[0] in members; }
  }

  /** What a declared group gives those in it: its own settings. */
  ghost function Own(declared: seq<string>, groups: seq<GroupMetadata>, hosts: seq<HostEntry>, name: string): seq<Entry> {
    if name in declared && Able(groups, hosts, name) then EntriesOf(OwnSettings(groups, name)) else []
  }

  lemma OwnIs(declared: seq<string>, groups: seq<GroupMetadata>, hosts: seq<HostEntry>, name: string)
    requires exists alias :: Inside(GroupNamed(hosts, alias), name)
    ensures OwnEntries(declared, groups, hosts, name) == Own(declared, groups, hosts, name)
  {
    hide Emits, Able, OwnSettings, SettingsOf, Inside, GroupNamed;
    EmitsIff(groups, hosts, name);
    SettingsAre(groups, name);
  }

  /** A group's own settings, then those of the group around it, and so on outwards. */
  ghost function Chain(declared: seq<string>, groups: seq<GroupMetadata>, hosts: seq<HostEntry>, name: string): seq<Entry>
    decreases |name|
  {
    if name == "" then []
    else
      ParentShorter(name);
      Own(declared, groups, hosts, name) + Chain(declared, groups, hosts, ParentGroupName(name))
  }

  lemma InsideParent(group: string, name: string)
    requires Inside(group, name) && name != "" && ParentGroupName(name) != ""
    ensures Inside(group, ParentGroupName(name))
  {
    var k := LastSlash(name);
    assert name[..k] == ParentGroupName(name);
    assert group[..k] == name[..k];
  }

  lemma {:induction false} ChainIs(declared: seq<string>, groups: seq<GroupMetadata>, hosts: seq<HostEntry>, name: string, alias: string)
    requires name == "" || Inside(GroupNamed(hosts, alias), name)
    ensures Inherited(declared, groups, hosts, name) == Chain(declared, groups, hosts, name)
    decreases |name|
  {
    hide Inside, GroupNamed, Own, OwnEntries, ParentGroupName;
    if name != "" {
      ParentShorter(name);
      OwnIs(declared, groups, hosts, name);
      if ParentGroupName(name) != "" { InsideParent(GroupNamed(hosts, alias), name); }
      ChainIs(declared, groups, hosts, ParentGroupName(name), alias);
    }
  }

  lemma InheritedIs(declared: seq<string>, groups: seq<GroupMetadata>, hosts: seq<HostEntry>, alias: string)
    ensures Inherited(declared, groups, hosts, GroupOfAlias(hosts, alias)) == Chain(declared, groups, hosts, GroupNamed(hosts, alias))
  {
    hide GroupNamed, Chain, Inherited;
    GroupIs(hosts, alias);
    var group := GroupNamed(hosts, alias);
    ChainIs(declared, groups, hosts, group, alias);
  }

  // ---- whether every written line says what it should ----

  /** A value that a separator without '=' loses its '=' to. */
  predicate BareEquals(value: string) { value != "" && value[0] == '=' && ' ' !in value && '\t' !in value }

  /** The first alias in the group or in one inside it. */
  ghost predicate Opens(hosts: seq<HostEntry>, name: string, i: int) {
    && 0 <= i < |hosts| && Speaks(hosts, i, hosts[i].alias) && Inside(hosts[i].group, name)
    && forall j :: 0 <= j < i && Speaks(hosts, j, hosts[j].alias) ==> !Inside(hosts[j].group, name)
  }

  lemma TakenIff(values: seq<string>)
    ensures TakenBySeparator(" ", values) <==> values != [] && BareEquals(values[0])
  {
    if values != [] && values[0] != "" {
      var value := values[0];
      assert (exists i :: 0 <= i < |value| && IsSpace(value[i])) <==> ' ' in value || '\t' in value by {
        if ' ' in value { var i :| 0 <= i < |value| && value[i] == ' '; assert IsSpace(value[i]); }
        if '\t' in value { var i :| 0 <= i < |value| && value[i] == '\t'; assert IsSpace(value[i]); }
      }
    }
  }

  lemma {:induction false} OrderIs(hosts: seq<HostEntry>, chosen: set<string>, i: nat)
    requires i < |hosts| && Speaks(hosts, i, hosts[i].alias) && hosts[i].alias in chosen
    requires forall j :: 0 <= j < i && Speaks(hosts, j, hosts[j].alias) ==> hosts[j].alias !in chosen
    ensures Chosen(AliasOrder(hosts), chosen) != [] && Chosen(AliasOrder(hosts), chosen)[0] == hosts[i].alias
  {
    hide Speaks;
    var n, front := |hosts| - 1, hosts[..|hosts| - 1];
    var alias := hosts[n].alias;
    KnownIff(front, alias);
    LastSpeaks(hosts, alias);
    forall j: int, a | j < n ensures Speaks(front, j, a) <==> Speaks(hosts, j, a) { SpeaksMore(hosts, j, a); }
    if i < n {
      OrderIs(front, chosen, i);
      ChosenSnoc(AliasOrder(front), alias, chosen);
    } else {
      ChosenNone(front, chosen);
      assert alias !in AliasOrder(front);
      ChosenSnoc(AliasOrder(front), alias, chosen);
    }
  }

  lemma ChosenSnoc(aliases: seq<string>, alias: string, chosen: set<string>)
    ensures Chosen(aliases + [alias], chosen) == Chosen(aliases, chosen) + if alias in chosen then [alias] else []
  {
    assert (aliases + [alias])[..|aliases|] == aliases;
  }

  lemma ChosenNone(hosts: seq<HostEntry>, chosen: set<string>)
    requires forall j :: 0 <= j < |hosts| && Speaks(hosts, j, hosts[j].alias) ==> hosts[j].alias !in chosen
    ensures Chosen(AliasOrder(hosts), chosen) == []
  {
    var picked := Chosen(AliasOrder(hosts), chosen);
    forall alias ensures alias !in picked { NotChosen(hosts, chosen, alias); }
    EmptyIff(picked);
  }

  lemma EmptyIff(picked: seq<string>)
    ensures picked == [] <==> forall alias :: alias !in picked
  {
    if picked != [] { assert picked[0] in picked; }
  }

  lemma NotChosen(hosts: seq<HostEntry>, chosen: set<string>, alias: string)
    requires forall j :: 0 <= j < |hosts| && Speaks(hosts, j, hosts[j].alias) ==> hosts[j].alias !in chosen
    ensures alias !in Chosen(AliasOrder(hosts), chosen)
  {
    ChosenMembers(AliasOrder(hosts), chosen, alias);
    KnownIff(hosts, alias);
    if j :| Speaks(hosts, j, alias) { assert hosts[j].alias == alias; }
  }

  lemma FirstMember(hosts: seq<HostEntry>, name: string, i: int)
    requires Opens(hosts, name, i)
    ensures Members(hosts, name) != [] && Members(hosts, name)[0] == hosts[i].alias
  {
    hide Speaks, Inside, MemberOf;
    forall j | 0 <= j < |hosts| && Speaks(hosts, j, hosts[j].alias) ensures hosts[j].alias in MemberSet(hosts, name) <==> Inside(hosts[j].group, name) {
      KnownIff(hosts, hosts[j].alias);
      MemberIff(hosts, name, hosts[j].alias);
      MembersAre(hosts, name, hosts[j].alias);
      NamedGroupIs(hosts, j);
    }
    OrderIs(hosts, MemberSet(hosts, name), i);
  }

  lemma NamedGroupIs(hosts: seq<HostEntry>, j: nat)
    requires j < |hosts| && Speaks(hosts, j, hosts[j].alias)
    ensures GroupNamed(hosts, hosts[j].alias) == hosts[j].group
  {}

  lemma SomebodySpeaks(hosts: seq<HostEntry>, alias: string) returns (k: int)
    requires GroupNamed(hosts, alias) != ""
    ensures 0 <= k < |hosts| && Speaks(hosts, k, alias) && Speaks(hosts, k, hosts[k].alias) && hosts[k].group == GroupNamed(hosts, alias)
  {
    k :| Speaks(hosts, k, alias);
  }

  lemma SomebodyOpens(hosts: seq<HostEntry>, name: string) returns (i: int)
    requires Members(hosts, name) != []
    ensures Opens(hosts, name, i)
  {
    hide Speaks, GroupNamed;
    var alias := Members(hosts, name)[0];
    MemberIff(hosts, name, alias);
    var k := SomebodySpeaks(hosts, alias);
    i := 0;
    while !(Speaks(hosts, i, hosts[i].alias) && Inside(hosts[i].group, name))
      invariant 0 <= i <= k < |hosts|
      invariant Speaks(hosts, k, hosts[k].alias) && Inside(hosts[k].group, name)
      invariant forall j :: 0 <= j < i && Speaks(hosts, j, hosts[j].alias) ==> !Inside(hosts[j].group, name)
      decreases k - i
    {
      i := i + 1;
    }
  }

  /** The block of this group says what it should: neither its first alias nor the first value of a
      setting loses a '='. */
  ghost predicate Plainly(groups: seq<GroupMetadata>, hosts: seq<HostEntry>, name: string) {
    && (forall i :: Opens(hosts, name, i) ==> !BareEquals(hosts[i].alias))
    && (forall s :: s in OwnSettings(groups, name) && s.values != [] ==> !BareEquals(s.values[0]))
  }

  lemma PlainlyIff(groups: seq<GroupMetadata>, hosts: seq<HostEntry>, name: string)
    requires Members(hosts, name) != []
    ensures Spelled(groups, hosts, name) <==> Plainly(groups, hosts, name)
  {
    hide Opens, BareEquals, Members, OwnSettings, SettingsOf, TakenBySeparator;
    SettingsAre(groups, name);
    TakenIff(Members(hosts, name));
    forall i | Opens(hosts, name, i) ensures 0 <= i < |hosts| && hosts[i].alias == Members(hosts, name)[0] {
      OpensWithin(hosts, name, i);
      FirstMember(hosts, name, i);
    }
    var first := SomebodyOpens(hosts, name);
    var settings := OwnSettings(groups, name);
    forall i | 0 <= i < |settings| ensures TakenBySeparator(" ", settings[i].values) <==> settings[i].values != [] && BareEquals(settings[i].values[0]) {
      TakenIff(settings[i].values);
    }
    if Spelled(groups, hosts, name) {
      forall s | s in settings && s.values != [] ensures !BareEquals(s.values[0]) {
        var i :| 0 <= i < |settings| && settings[i] == s;
      }
    }
  }

  lemma OpensWithin(hosts: seq<HostEntry>, name: string, i: int)
    ensures Opens(hosts, name, i) ==> 0 <= i < |hosts|
  {}

  /** Every declared group that contributes says what it should. */
  ghost predicate AllPlainly(declared: seq<string>, groups: seq<GroupMetadata>, hosts: seq<HostEntry>) {
    forall name, alias :: name in declared && Inside(GroupNamed(hosts, alias), name) && Able(groups, hosts, name) && OwnSettings(groups, name) != [] ==>
      Plainly(groups, hosts, name)
  }

  lemma AllPlainlyIff(declared: seq<string>, groups: seq<GroupMetadata>, hosts: seq<HostEntry>)
    ensures BlocksSpelled(declared, groups, hosts) <==> AllPlainly(declared, groups, hosts)
  {
    hide Emits, Spelled, Plainly, Able, Inside, GroupNamed, OwnSettings, Members;
    forall name | Emits(groups, hosts, name) ensures Spelled(groups, hosts, name) <==> Plainly(groups, hosts, name) {
      EmitsMembers(groups, hosts, name);
      PlainlyIff(groups, hosts, name);
    }
    forall name ensures Emits(groups, hosts, name) <==>
      OwnSettings(groups, name) != [] && (exists alias :: Inside(GroupNamed(hosts, alias), name)) && Able(groups, hosts, name)
    {
      EmitsIff(groups, hosts, name);
    }
    if BlocksSpelled(declared, groups, hosts) {
      forall name, alias | name in declared && Inside(GroupNamed(hosts, alias), name) && Able(groups, hosts, name) && OwnSettings(groups, name) != []
        ensures Plainly(groups, hosts, name)
      {
        var i :| 0 <= i < |declared| && declared[i] == name;
        assert Emits(groups, hosts, declared[i]);
      }
    }
  }

  // ---- what an alias gets ----

  /** Every alias gets the settings of the declared groups around it, its own first and then outwards,
      and no others, exactly when no line of a contributing group loses a '='. */
  lemma AncestryIff(declared: seq<string>, groups: seq<GroupMetadata>, hosts: seq<HostEntry>, ending: string)
    requires Compilable(declared, hosts, ending)
    ensures (forall alias :: Entries(Parse(RenderLines(Compiled(declared, groups, hosts, ending))), alias, true)
                          == Chain(declared, groups, hosts, GroupNamed(hosts, alias)))
            <==> AllPlainly(declared, groups, hosts)
  {
    hide *;
    CompiledMeansIff(declared, groups, hosts, ending);
    AllPlainlyIff(declared, groups, hosts);
    forall alias ensures Inherited(declared, groups, hosts, GroupOfAlias(hosts, alias)) == Chain(declared, groups, hosts, GroupNamed(hosts, alias)) {
      InheritedIs(declared, groups, hosts, alias);
    }
  }

  // ---- which value wins ----

  /** The group is declared and able, and of its settings this is the first with the keyword. */
  ghost predicate Sets(declared: seq<string>, groups: seq<GroupMetadata>, hosts: seq<HostEntry>, name: string, keyword: string, values: seq<string>) {
    && name in declared && Able(groups, hosts, name)
    && exists i :: FirstSetting(OwnSettings(groups, name), keyword, values, i)
  }

  ghost predicate FirstSetting(settings: seq<Setting>, keyword: string, values: seq<string>, i: int) {
    && 0 <= i < |settings| && Lower(settings[i].keyword) == keyword && settings[i].values == values
    && forall j :: 0 <= j < i ==> Lower(settings[j].keyword) != keyword
  }

  lemma {:induction false} FirstForIff(entries: seq<Entry>, keyword: string, values: seq<string>)
    ensures FirstFor(entries, keyword) == Some(values) <==>
              exists i :: 0 <= i < |entries| && entries[i] == Entry(keyword, values) && forall j :: 0 <= j < i ==> entries[j].keyword != keyword
  {
    if entries != [] {
      var rest := entries[1..];
      FirstForIff(rest, keyword, values);
      if entries[0].keyword == keyword {
        if entries[0].values == values { assert entries[0] == Entry(keyword, values); }
      } else {
        if i :| 0 <= i < |rest| && rest[i] == Entry(keyword, values) && forall j :: 0 <= j < i ==> rest[j].keyword != keyword {
          assert entries[i + 1] == Entry(keyword, values);
          forall j | 0 <= j < i + 1 ensures entries[j].keyword != keyword { assert j > 0 ==> entries[j] == rest[j - 1]; }
        }
        if i :| 0 <= i < |entries| && entries[i] == Entry(keyword, values) && forall j :: 0 <= j < i ==> entries[j].keyword != keyword {
          assert rest[i - 1] == Entry(keyword, values);
          assert forall j :: 0 <= j < i - 1 ==> rest[j] == entries[j + 1];
        }
      }
    }
  }

  lemma SetsIff(declared: seq<string>, groups: seq<GroupMetadata>, hosts: seq<HostEntry>, name: string, keyword: string, values: seq<string>)
    ensures FirstFor(Own(declared, groups, hosts, name), keyword) == Some(values) <==> Sets(declared, groups, hosts, name, keyword, values)
  {
    hide Able, OwnSettings, Lower;
    var settings := OwnSettings(groups, name);
    FirstForIff(Own(declared, groups, hosts, name), keyword, values);
    if Sets(declared, groups, hosts, name, keyword, values) {
      var i :| FirstSetting(settings, keyword, values, i);
      assert EntriesOf(settings)[i] == Entry(keyword, values);
    }
    if FirstFor(Own(declared, groups, hosts, name), keyword) == Some(values) {
      var i :| 0 <= i < |settings| && EntriesOf(settings)[i] == Entry(keyword, values)
               && forall j :: 0 <= j < i ==> EntriesOf(settings)[j].keyword != keyword;
      assert FirstSetting(settings, keyword, values, i);
    }
  }

  /** The group sets the keyword, and no group nearer to the alias does. */
  ghost predicate Wins(declared: seq<string>, groups: seq<GroupMetadata>, hosts: seq<HostEntry>, group: string, name: string, keyword: string, values: seq<string>) {
    && Inside(group, name) && name != "" && Sets(declared, groups, hosts, name, keyword, values)
    && forall nearer, other :: Inside(group, nearer) && |nearer| > |name| ==> !Sets(declared, groups, hosts, nearer, keyword, other)
  }

  /** What lies around a group: itself, and what lies around its parent. */
  lemma AroundIff(group: string, name: string)
    requires group != "" && name != ""
    ensures Inside(group, name) <==> name == group || (ParentGroupName(group) != "" && Inside(ParentGroupName(group), name))
    ensures Inside(group, name) ==> |name| <= |group|
  {
    var parent := ParentGroupName(group);
    InsideIff(group, name);
    if parent != "" { InsideIff(parent, name); }
    if Inside(group, name) && name != group {
      AboveParent(name, group);
      assert group[|name|] == '/' && LastSlash(group) >= |name|;
    }
    if parent != "" && Inside(parent, name) {
      var k := LastSlash(group);
      assert parent == group[..k];
      assert group[..|name|] == parent[..|name|];
    }
  }

  lemma {:induction false} ChainWins(declared: seq<string>, groups: seq<GroupMetadata>, hosts: seq<HostEntry>, group: string, keyword: string, values: seq<string>)
    ensures FirstFor(Chain(declared, groups, hosts, group), keyword) == Some(values) <==>
              exists name :: Wins(declared, groups, hosts, group, name, keyword, values)
    decreases |group|
  {
    hide Inside, Own, Sets, Wins, ParentGroupName;
    if group == "" {
      NothingAround(declared, groups, hosts, keyword, values);
    } else {
      ParentShorter(group);
      var parent := ParentGroupName(group);
      ChainWins(declared, groups, hosts, parent, keyword, values);
      ForAppend(Own(declared, groups, hosts, group), Chain(declared, groups, hosts, parent), keyword);
      var own := FirstFor(Own(declared, groups, hosts, group), keyword);
      forall other ensures own == Some(other) <==> Sets(declared, groups, hosts, group, keyword, other) {
        SetsIff(declared, groups, hosts, group, keyword, other);
      }
      if own == None {
        forall other ensures !Sets(declared, groups, hosts, group, keyword, other) {}
        forall name ensures Wins(declared, groups, hosts, group, name, keyword, values) <==> Wins(declared, groups, hosts, parent, name, keyword, values) {
          WinsAbove(declared, groups, hosts, group, name, keyword, values);
        }
      } else {
        assert Sets(declared, groups, hosts, group, keyword, own.value);
        forall name ensures Wins(declared, groups, hosts, group, name, keyword, values) <==> name == group && own.value == values {
          WinsHere(declared, groups, hosts, group, name, keyword, values, own.value);
        }
        assert own.value == values ==> Wins(declared, groups, hosts, group, group, keyword, values);
      }
    }
  }

  lemma NothingAround(declared: seq<string>, groups: seq<GroupMetadata>, hosts: seq<HostEntry>, keyword: string, values: seq<string>)
    ensures FirstFor(Chain(declared, groups, hosts, ""), keyword) == None
    ensures forall name :: !Wins(declared, groups, hosts, "", name, keyword, values)
  {}

  lemma WinsAbove(declared: seq<string>, groups: seq<GroupMetadata>, hosts: seq<HostEntry>, group: string, name: string, keyword: string, values: seq<string>)
    requires group != "" && forall other :: !Sets(declared, groups, hosts, group, keyword, other)
    ensures Wins(declared, groups, hosts, group, name, keyword, values) <==> Wins(declared, groups, hosts, ParentGroupName(group), name, keyword, values)
  {
    hide Sets, ParentGroupName;
    var parent := ParentGroupName(group);
    if name != "" {
      AroundIff(group, name);
      forall nearer | nearer != ""
        ensures Inside(group, nearer) <==> nearer == group || (parent != "" && Inside(parent, nearer))
      {
        AroundIff(group, nearer);
      }
    }
  }

  lemma WinsHere(declared: seq<string>, groups: seq<GroupMetadata>, hosts: seq<HostEntry>, group: string, name: string, keyword: string,
                 values: seq<string>, own: seq<string>)
    requires group != "" && Sets(declared, groups, hosts, group, keyword, own)
    requires forall other :: Sets(declared, groups, hosts, group, keyword, other) ==> other == own
    ensures Wins(declared, groups, hosts, group, name, keyword, values) <==> name == group && own == values
  {
    hide Sets, ParentGroupName;
    if name != "" { AroundIff(group, name); }
    forall nearer | nearer != "" ensures Inside(group, nearer) ==> |nearer| <= |group| { AroundIff(group, nearer); }
    assert Inside(group, group);
  }

  /** What the compiled file gives an alias for a keyword is what the nearest declared group around the
      alias sets it to, and nothing when none does. */
  lemma NearestWins(declared: seq<string>, groups: seq<GroupMetadata>, hosts: seq<HostEntry>, ending: string, alias: string, keyword: string,
                    values: seq<string>)
    requires Compilable(declared, hosts, ending) && AllPlainly(declared, groups, hosts)
    ensures FirstFor(Entries(Parse(RenderLines(Compiled(declared, groups, hosts, ending))), alias, true), keyword) == Some(values)
            <==> exists name :: Wins(declared, groups, hosts, GroupNamed(hosts, alias), name, keyword, values)
  {
    hide *;
    AncestryIff(declared, groups, hosts, ending);
    ChainWins(declared, groups, hosts, GroupNamed(hosts, alias), keyword, values);
  }

  /** Of a keyword that accumulates, the alias gets what every declared group around it sets, the nearest first. */
  ghost function Gathered(declared: seq<string>, groups: seq<GroupMetadata>, hosts: seq<HostEntry>, group: string, keyword: string): seq<seq<string>>
    decreases |group|
  {
    if group == "" then []
    else
      ParentShorter(group);
      AllFor(Own(declared, groups, hosts, group), keyword) + Gathered(declared, groups, hosts, ParentGroupName(group), keyword)
  }

  lemma {:induction false} ChainGathers(declared: seq<string>, groups: seq<GroupMetadata>, hosts: seq<HostEntry>, group: string, keyword: string)
    ensures AllFor(Chain(declared, groups, hosts, group), keyword) == Gathered(declared, groups, hosts, group, keyword)
    decreases |group|
  {
    hide Own, ParentGroupName;
    if group != "" {
      ParentShorter(group);
      ChainGathers(declared, groups, hosts, ParentGroupName(group), keyword);
      ForAppend(Own(declared, groups, hosts, group), Chain(declared, groups, hosts, ParentGroupName(group)), keyword);
    }
  }

  lemma AllAccumulate(declared: seq<string>, groups: seq<GroupMetadata>, hosts: seq<HostEntry>, ending: string, alias: string, keyword: string)
    requires Compilable(declared, hosts, ending) && AllPlainly(declared, groups, hosts)
    ensures AllFor(Entries(Parse(RenderLines(Compiled(declared, groups, hosts, ending))), alias, true), keyword)
         == Gathered(declared, groups, hosts, GroupNamed(hosts, alias), keyword)
  {
    hide *;
    AncestryIff(declared, groups, hosts, ending);
    ChainGathers(declared, groups, hosts, GroupNamed(hosts, alias), keyword);
  }

  // ---- the order of the blocks ----

  /** The display order that the metadata gives a group. */
  ghost function DisplayOrder(groups: seq<GroupMetadata>, name: string): int {
    if k :| Latest(groups, name, k) then groups[k].order else 0
  }

  lemma {:induction false} OrderTableIs(groups: seq<GroupMetadata>, name: string)
    ensures OrderOf(OrderTable(groups), name) == DisplayOrder(groups, name)
  {
    if groups != [] {
      var n, front := |groups| - 1, groups[..|groups| - 1];
      OrderTableIs(front, name);
      if groups[n].name == name {
        assert Latest(groups, name, n);
      } else {
        if k :| Latest(front, name, k) { assert Latest(groups, name, k); }
        if k :| Latest(groups, name, k) { assert Latest(front, name, k); }
      }
    }
  }

  /** The blocks come in the order of the declared names: more slashes first, then by display order, then by name. */
  lemma BlockOrder(declared: seq<string>, groups: seq<GroupMetadata>, i: nat, j: nat)
    requires i < j < |declared| && forall n :: 0 <= n < |declared| ==> ValidName(declared[n])
    ensures multiset(InOrder(declared, groups)) == multiset(declared) && |InOrder(declared, groups)| == |declared|
    ensures var a, b := InOrder(declared, groups)[i], InOrder(declared, groups)[j];
            || a == b
            || Slashes(a) > Slashes(b)
            || (Slashes(a) == Slashes(b) && DisplayOrder(groups, a) < DisplayOrder(groups, b))
            || (Slashes(a) == Slashes(b) && DisplayOrder(groups, a) == DisplayOrder(groups, b) && LexLess(a, b))
  {
    hide LexLess, DisplayOrder, GroupNameOrder, OrderTable, OrderOf, ValidName;
    OrderSorted(declared, OrderTable(groups));
    var names := InOrder(declared, groups);
    SameLength(names, declared);
    forall n | 0 <= n < |names| ensures ValidName(names[n]) { MemberValid(names, declared, n); }
    OrderTableIs(groups, names[i]);
    OrderTableIs(groups, names[j]);
    DepthCountsSlashes(names[i]);
    DepthCountsSlashes(names[j]);
    ValidBytes(names[i]);
    ValidBytes(names[j]);
  }

  lemma SameLength(a: seq<string>, b: seq<string>)
    requires multiset(a) == multiset(b)
    ensures |a| == |b|
  {
    assert |multiset(a)| == |a| && |multiset(b)| == |b|;
  }

  lemma MemberValid(names: seq<string>, declared: seq<string>, n: nat)
    requires multiset(names) == multiset(declared) && n < |names| && forall k :: 0 <= k < |declared| ==> ValidName(declared[k])
    ensures ValidName(names[n])
  {
    hide ValidName;
    assert names[n] in multiset(declared);
    var k :| 0 <= k < |declared| && declared[k] == names[n];
  }
}
