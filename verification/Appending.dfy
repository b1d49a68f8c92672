/**
 New lines after the last directive of a block, in its indentation and line ending,
 and the whole edit: sets, removals and additions on a staged copy of the file.
 */
module Appending {
  import opened Results
  import opened Text
  import opened Syntax
  import opened Blocks
  import opened Reparse
  import opened Rewriting
  import opened Edits

  // ---- where and how a new line is written ----

  /** Just below the last directive between start and end, or at the start. */
  function AppendAt(lines: seq<Line>, start: nat, end: nat): (p: nat)
    requires start <= end <= |lines|
    ensures start <= p <= end
    ensures p == start || lines[p - 1].kind == Directive
    decreases end
  {
    if end == start || lines[end - 1].kind == Directive then end else AppendAt(lines, start, end - 1)
  }

  lemma {:induction false} AppendAtIs(lines: seq<Line>, start: nat, end: nat, p: nat)
    requires start <= p <= end <= |lines|
    requires p == start || lines[p - 1].kind == Directive
    requires forall i :: p <= i < end ==> lines[i].kind != Directive
    ensures AppendAt(lines, start, end) == p
    decreases end
  {
    if p < end { AppendAtIs(lines, start, end - 1, p); }
  }

  lemma {:induction false} NoDirectiveBelow(lines: seq<Line>, start: nat, end: nat)
    requires start <= end <= |lines|
    ensures forall i :: AppendAt(lines, start, end) <= i < end ==> lines[i].kind != Directive
    decreases end
  {
    if end > start && lines[end - 1].kind != Directive { NoDirectiveBelow(lines, start, end - 1); }
  }

  method AppendPosition(lines: seq<Line>, start: nat, end: nat) returns (position: nat)
    requires start <= end <= |lines|
    ensures position == AppendAt(lines, start, end)
  {
    position := start;
    for index := start to end
      invariant position == AppendAt(lines, start, index)
    {
      if lines[index].kind == Directive { position := index + 1; }
    }
  }

  function IndentOf(lines: seq<Line>, start: nat, end: nat): string
    requires start <= end <= |lines|
  {
    var p := AppendAt(lines, start, end);
    if p == start then "\t" else lines[p - 1].indent
  }

  method BlockIndent(lines: seq<Line>, start: nat, end: nat) returns (indent: string)
    requires start <= end <= |lines|
    ensures indent == IndentOf(lines, start, end)
  {
    var index := end;
    while index > start
      invariant start <= index <= end && AppendAt(lines, start, index) == AppendAt(lines, start, end)
    {
      index := index - 1;
      if lines[index].kind == Directive { return lines[index].indent; }
    }
    return "\t";
  }

  function FirstEnding(lines: seq<Line>): (ending: string)
    ensures ending != ""
  {
    if lines == [] then "\n" else if lines[0].ending != "" then lines[0].ending else FirstEnding(lines[1..])
  }

  method DominantEnding(lines: seq<Line>) returns (ending: string)
    ensures ending == FirstEnding(lines)
  {
    assert lines[0..] == lines;
    for index := 0 to |lines|
      invariant FirstEnding(lines[index..]) == FirstEnding(lines)
    {
      if lines[index].ending != "" { return lines[index].ending; }
    }
    return "\n";
  }

  /** The ending of the last directive that has one, else of the first line that does. */
  function EndingOf(lines: seq<Line>, start: nat, end: nat): (ending: string)
    requires start <= end <= |lines|
    ensures ending != ""
    decreases end
  {
    if end == start then FirstEnding(lines)
    else if lines[end - 1].kind == Directive && lines[end - 1].ending != "" then lines[end - 1].ending
    else EndingOf(lines, start, end - 1)
  }

  method BlockEnding(lines: seq<Line>, start: nat, end: nat) returns (ending: string)
    requires start <= end <= |lines|
    ensures ending == EndingOf(lines, start, end)
  {
    var index := end;
    while index > start
      invariant start <= index <= end && EndingOf(lines, start, index) == EndingOf(lines, start, end)
    {
      index := index - 1;
      if lines[index].kind == Directive && lines[index].ending != "" { return lines[index].ending; }
    }
    ending := DominantEnding(lines);
  }

  lemma {:induction false} EndingOfIs(lines: seq<Line>, start: nat, end: nat, p: nat)
    requires start < p <= end <= |lines| && lines[p - 1].kind == Directive && lines[p - 1].ending != ""
    requires forall i :: p <= i < end ==> lines[i].kind != Directive
    ensures EndingOf(lines, start, end) == lines[p - 1].ending
    decreases end
  {
    if p < end { EndingOfIs(lines, start, end - 1, p); }
  }

  // ---- inserting ----

  /** The lines with a newline after the last, if it had none. */
  function Ended(lines: seq<Line>, ending: string): (ended: seq<Line>)
    ensures |ended| == |lines|
    ensures forall i :: 0 <= i < |lines| ==> ended[i] == lines[i] || (i == |lines| - 1 && lines[i].ending == "" && ended[i] == lines[i].(ending := ending))
  {
    var n := |lines| - 1;
    if n >= 0 && lines[n].ending == "" then lines[n := lines[n].(ending := ending)] else lines
  }

  function Inserted(lines: seq<Line>, position: nat, line: Line): seq<Line>
    requires position <= |lines|
  {
    Ended(lines[..position], line.ending) + [line] + lines[position..]
  }

  method InsertLine(file: File, position: nat, line: Line)
    requires position <= |file.lines|
    modifies file
    ensures file.lines == Inserted(old(file.lines), position, line)
  {
    if position > 0 && file.lines[position - 1].ending == "" {
      file.lines := file.lines[position - 1 := file.lines[position - 1].(ending := line.ending)];
    }
    assert file.lines[..position] == Ended(old(file.lines)[..position], line.ending);
    assert file.lines[position..] == old(file.lines)[position..];
    file.lines := file.lines[..position] + [line] + file.lines[position..];
  }

  // ---- adding ----

  predicate GoodAdds(adds: seq<FieldEdit>) {
    forall k :: 0 <= k < |adds| ==> KeywordError(adds[k].keyword) == None && AllQuotable(adds[k].values)
  }

  function Added(adds: seq<FieldEdit>, indent: string, ending: string): (added: seq<Line>)
    requires GoodAdds(adds)
    ensures |added| == |adds|
  {
    seq(|adds|, k requires 0 <= k < |adds| => Built(indent, adds[k].keyword, adds[k].values, ending))
  }

  /** All additions at once. */
  function WithAdds(lines: seq<Line>, start: nat, adds: seq<FieldEdit>): seq<Line>
    requires start <= |lines| && GoodAdds(adds)
  {
    if adds == [] then lines
    else
      var end := NextHeader(lines, start);
      var p := AppendAt(lines, start, end);
      var ending := EndingOf(lines, start, end);
      Ended(lines[..p], ending) + Added(adds, IndentOf(lines, start, end), ending) + lines[p..]
  }

  lemma {:induction false} NextHeaderIs(lines: seq<Line>, from: nat, i: nat)
    requires from <= i <= |lines| && NoHeader(lines, from, i) && (i == |lines| || IsHeader(lines[i]))
    ensures NextHeader(lines, from) == i
    decreases i - from
  {
    if from < i { NextHeaderIs(lines, from + 1, i); }
  }

  lemma BuiltIsNoHeader(indent: string, add: FieldEdit, ending: string)
    requires KeywordError(add.keyword) == None && AllQuotable(add.values)
    ensures var x := Built(indent, add.keyword, add.values, ending);
            x.kind == Directive && !IsHeader(x) && x.indent == indent && x.ending == ending
  {
    KeywordFits(add.keyword);
  }

  /** The lines of the file after some additions. */
  predicate Spliced(lines: seq<Line>, p: nat, n: nat, staged: seq<Line>, indent: string, ending: string)
    requires p <= |lines|
  {
    && |staged| == |lines| + n
    && (forall i :: 0 <= i < p ==> staged[i] == lines[i] || staged[i] == lines[i].(ending := ending))
    && (forall i :: p <= i < p + n ==> staged[i].kind == Directive && !IsHeader(staged[i]) && staged[i].indent == indent && staged[i].ending == ending)
    && (forall i :: p + n <= i < |staged| ==> staged[i] == lines[i - n])
  }

  lemma WithAddsSpliced(lines: seq<Line>, start: nat, adds: seq<FieldEdit>)
    requires start <= |lines| && GoodAdds(adds) && adds != []
    ensures var end := NextHeader(lines, start);
            Spliced(lines, AppendAt(lines, start, end), |adds|, WithAdds(lines, start, adds),
                    IndentOf(lines, start, end), EndingOf(lines, start, end))
  {
    hide IsHeader, AppendAt, EndingOf, NextHeader, KeywordError, AllQuotable, IndentOf, Built;
    var end := NextHeader(lines, start);
    var indent, ending := IndentOf(lines, start, end), EndingOf(lines, start, end);
    forall k | 0 <= k < |adds| ensures var x := Added(adds, indent, ending)[k]; x.kind == Directive && !IsHeader(x) && x.indent == indent && x.ending == ending {
      BuiltIsNoHeader(indent, adds[k], ending);
    }
  }

  /** After some additions the block ends further down, and the next one goes below the last. */
  lemma NextAdd(lines: seq<Line>, start: nat, n: nat, staged: seq<Line>)
    requires start <= |lines| && n > 0
    requires var end := NextHeader(lines, start);
             Spliced(lines, AppendAt(lines, start, end), n, staged, IndentOf(lines, start, end), EndingOf(lines, start, end))
    ensures var end := NextHeader(lines, start);
            && NextHeader(staged, start) == end + n
            && AppendAt(staged, start, end + n) == AppendAt(lines, start, end) + n
            && IndentOf(staged, start, end + n) == IndentOf(lines, start, end)
            && EndingOf(staged, start, end + n) == EndingOf(lines, start, end)
  {
    hide AppendAt, EndingOf, NextHeader;
    var end := NextHeader(lines, start);
    var p := AppendAt(lines, start, end);
    NoDirectiveBelow(lines, start, end);
    forall i | start <= i < end + n ensures !IsHeader(staged[i]) && (i >= p + n ==> staged[i].kind != Directive) {
      assert i >= p + n ==> staged[i] == lines[i - n];
    }
    NextHeaderIs(staged, start, end + n);
    AppendAtIs(staged, start, end + n, p + n);
    EndingOfIs(staged, start, end + n, p + n);
  }

  /** One addition to whatever the block has become. */
  function OneMore(lines: seq<Line>, start: nat, add: FieldEdit): seq<Line>
    requires start <= |lines| && AllQuotable(add.values)
  {
    var end := NextHeader(lines, start);
    Inserted(lines, AppendAt(lines, start, end), Built(IndentOf(lines, start, end), add.keyword, add.values, EndingOf(lines, start, end)))
  }

  lemma AddFirst(lines: seq<Line>, start: nat, add: FieldEdit)
    requires start <= |lines| && GoodAdds([add]) && AllQuotable(add.values)
    ensures OneMore(lines, start, add) == WithAdds(lines, start, [add])
  {
    hide AppendAt, EndingOf, NextHeader, KeywordError, AllQuotable, IndentOf;
    var end := NextHeader(lines, start);
    var indent, ending := IndentOf(lines, start, end), EndingOf(lines, start, end);
    assert Added([add], indent, ending) == [Built(indent, add.keyword, add.values, ending)];
  }

  lemma AddNext(lines: seq<Line>, start: nat, adds: seq<FieldEdit>, add: FieldEdit)
    requires start <= |lines| && GoodAdds(adds) && GoodAdds(adds + [add]) && adds != [] && AllQuotable(add.values)
    ensures var staged := WithAdds(lines, start, adds);
            start <= |staged| && OneMore(staged, start, add) == WithAdds(lines, start, adds + [add])
  {
    hide IsHeader, AppendAt, EndingOf, NextHeader, KeywordError, AllQuotable, Spliced, Built, IndentOf, Inserted, Added, Ended;
    var end := NextHeader(lines, start);
    var p, indent, ending := AppendAt(lines, start, end), IndentOf(lines, start, end), EndingOf(lines, start, end);
    AddedNext(adds, add, indent, ending);
    WithAddsSpliced(lines, start, adds);
    NextAdd(lines, start, |adds|, WithAdds(lines, start, adds));
    SpliceOne(Ended(lines[..p], ending), Added(adds, indent, ending), lines[p..], Built(indent, add.keyword, add.values, ending));
  }

  lemma AddMore(lines: seq<Line>, start: nat, adds: seq<FieldEdit>, add: FieldEdit)
    requires start <= |lines| && GoodAdds(adds) && GoodAdds(adds + [add])
    ensures AllQuotable(add.values) && start <= |WithAdds(lines, start, adds)|
    ensures OneMore(WithAdds(lines, start, adds), start, add) == WithAdds(lines, start, adds + [add])
  {
    hide OneMore, WithAdds, AllQuotable, KeywordError;
    assert (adds + [add])[|adds|] == add;
    if adds == [] {
      assert adds + [add] == [add];
      NoAdds(lines, start);
      AddFirst(lines, start, add);
    } else {
      AddNext(lines, start, adds, add);
    }
  }

  lemma AddedNext(adds: seq<FieldEdit>, add: FieldEdit, indent: string, ending: string)
    requires GoodAdds(adds) && GoodAdds(adds + [add]) && AllQuotable(add.values)
    ensures Added(adds + [add], indent, ending) == Added(adds, indent, ending) + [Built(indent, add.keyword, add.values, ending)]
    ensures adds != [] ==> Added(adds, indent, ending)[|adds| - 1].ending == ending
    ensures Built(indent, add.keyword, add.values, ending).ending == ending
  {}

  lemma SpliceOne(front: seq<Line>, added: seq<Line>, back: seq<Line>, line: Line)
    requires added != [] && added[|added| - 1].ending != ""
    ensures Inserted(front + added + back, |front| + |added|, line) == front + (added + [line]) + back
  {
    assert (front + added + back)[..|front| + |added|] == front + added;
    assert (front + added + back)[|front| + |added|..] == back;
  }

  // ---- the whole edit ----

  function AddsOf(edits: seq<FieldEdit>): seq<FieldEdit> {
    if edits == [] then []
    else AddsOf(edits[..|edits| - 1]) + if edits[|edits| - 1].action == Add then [edits[|edits| - 1]] else []
  }

  lemma AddsNext(edits: seq<FieldEdit>, k: nat)
    requires k < |edits|
    ensures AddsOf(edits[..k + 1]) == if edits[k].action == Add then AddsOf(edits[..k]) + [edits[k]] else AddsOf(edits[..k])
  {
    assert edits[..k + 1][..k] == edits[..k];
  }

  predicate Writes(lines: seq<Line>, edits: seq<FieldEdit>) { SetsWrite(lines, edits) && AddsWrite(edits) }

  lemma {:induction false} AddsGood(lines: seq<Line>, block: Block, edits: seq<FieldEdit>, n: nat)
    requires n <= |edits| && Acceptable(lines, block, edits)
    requires forall k :: 0 <= k < n && edits[k].action == Add ==> AllQuotable(edits[k].values)
    ensures GoodAdds(AddsOf(edits[..n]))
  {
    if n > 0 {
      AddsGood(lines, block, edits, n - 1);
      assert edits[..n][..n - 1] == edits[..n - 1];
      assert Admitted(lines, block, edits, n - 1);
    }
  }

  function Kept(lines: seq<Line>, edits: seq<FieldEdit>): seq<Line> { Keep(AfterSets(lines, edits), Removed(edits)) }

  lemma RemovedInside(lines: seq<Line>, block: Block, edits: seq<FieldEdit>)
    requires Acceptable(lines, block, edits)
    ensures forall g :: g in Removed(edits) ==> block.start <= g < block.end && g < |lines|
  {
    forall g | g in Removed(edits) ensures block.start <= g < block.end && g < |lines| {
      var k :| 0 <= k < |edits| && edits[k].action == Remove && edits[k].line - 1 == g;
      assert Admitted(lines, block, edits, k);
    }
  }

  lemma {:induction false} NotSetAbove(lines: seq<Line>, block: Block, edits: seq<FieldEdit>, n: nat, i: int)
    requires n <= |edits| && Acceptable(lines, block, edits) && i < block.start
    ensures SetEdit(edits[..n], i) == None
  {
    if n > 0 {
      NotSetAbove(lines, block, edits, n - 1, i);
      assert edits[..n][..n - 1] == edits[..n - 1];
      assert Admitted(lines, block, edits, n - 1);
    }
  }

  /** Everything above the block's body stands. */
  lemma KeptAbove(lines: seq<Line>, block: Block, edits: seq<FieldEdit>)
    requires Acceptable(lines, block, edits) && block.start <= |lines|
    ensures block.start <= |Kept(lines, edits)| && Kept(lines, edits)[..block.start] == lines[..block.start]
  {
    hide Acceptable;
    RemovedInside(lines, block, edits);
    KeepPrefix(AfterSets(lines, edits), Removed(edits), block.start);
    assert edits[..|edits|] == edits;
    forall i | 0 <= i < block.start ensures AfterSets(lines, edits)[i] == lines[i] {
      NotSetAbove(lines, block, edits, |edits|, i);
    }
  }

  /** The edited file, in closed form. */
  function Edited(lines: seq<Line>, block: Block, edits: seq<FieldEdit>): seq<Line>
    requires IsBlock(lines, block) && Acceptable(lines, block, edits) && Writes(lines, edits)
  {
    KeptAbove(lines, block, edits);
    AddsGood(lines, block, edits, |edits|);
    assert edits[..|edits|] == edits;
    WithAdds(Kept(lines, edits), block.start, AddsOf(edits))
  }

  /** The block keeps its header while lines are added to it. */
  lemma HeaderStays(lines: seq<Line>, header: int, adds: seq<FieldEdit>)
    requires OpensBlock(lines, header) && GoodAdds(adds)
    ensures var staged := WithAdds(lines, header + 1, adds);
            header < |staged| && OpensBlock(staged, header) && HeaderOver(staged, header) == header
  {
    if adds != [] { WithAddsSpliced(lines, header + 1, adds); }
  }

  method AddOne(staged: File, header: int, edit: FieldEdit) returns (error: Option<EditError>)
    requires OpensBlock(staged.lines, header) && header < |staged.lines| && HeaderOver(staged.lines, header) == header
    requires KeywordError(edit.keyword) == None
    modifies staged
    ensures error == None <==> AllQuotable(edit.values)
    ensures error == None ==> staged.lines == OneMore(old(staged.lines), header + 1, edit)
    ensures error.Some? ==> error.value == UnquotableValue
  {
    hide AppendAt, EndingOf, IndentOf, KeywordError, NextHeader, Inserted, Written, AllQuotable;
    var current := BlockAt(staged.lines, header);
    error := ValidateKeyword(edit.keyword);
    if error.Some? { return; }
    var indent := BlockIndent(staged.lines, current.start, current.end);
    var ending := BlockEnding(staged.lines, current.start, current.end);
    var written, ok := WriteValues([], edit.values);
    if !ok { return Some(UnquotableValue); }
    var position := AppendPosition(staged.lines, current.start, current.end);
    InsertLine(staged, position, DirectiveLine(indent, edit.keyword, " ", written, "", ending));
  }

  method ApplyAdds(staged: File, block: Block, lines: seq<Line>, edits: seq<FieldEdit>) returns (error: Option<EditError>)
    requires IsBlock(lines, block) && Acceptable(lines, block, edits) && SetsWrite(lines, edits)
    requires staged.lines == Kept(lines, edits)
    modifies staged
    ensures error == None <==> AddsWrite(edits)
    ensures error == None ==> staged.lines == Edited(lines, block, edits)
    ensures error.Some? ==> error.value == UnquotableValue
  {
    hide Acceptable, SetsWrite, Kept, WithAdds, AppendAt, EndingOf, IndentOf, KeywordError, NextHeader, OneMore, GoodAdds, AddsOf, HeaderOver;
    ghost var kept := staged.lines;
    KeptAbove(lines, block, edits);
    assert OpensBlock(kept, block.header) by { assert block.header >= 0 ==> kept[..block.start][block.header] == lines[..block.start][block.header]; }
    NoAdds(kept, block.start);
    AddsGood(lines, block, edits, 0);
    assert edits[..0] == [];
    for k := 0 to |edits|
      invariant forall j :: 0 <= j < k && edits[j].action == Add ==> AllQuotable(edits[j].values)
      invariant GoodAdds(AddsOf(edits[..k]))
      invariant staged.lines == WithAdds(kept, block.start, AddsOf(edits[..k]))
    {
      var edit := edits[k];
      AddsNext(edits, k);
      if edit.action == Add {
        HeaderStays(kept, block.header, AddsOf(edits[..k]));
        AddKeyword(lines, block, edits, k);
        error := AddOne(staged, block.header, edit);
        if error.Some? { return; }
        AddsGood(lines, block, edits, k + 1);
        AddMore(kept, block.start, AddsOf(edits[..k]), edit);
      }
    }
    assert edits[..|edits|] == edits;
    error := None;
  }

  lemma NoAdds(lines: seq<Line>, start: nat)
    requires start <= |lines|
    ensures WithAdds(lines, start, []) == lines && AddsOf([]) == []
  {}

  lemma AddKeyword(lines: seq<Line>, block: Block, edits: seq<FieldEdit>, k: nat)
    requires Acceptable(lines, block, edits) && k < |edits| && edits[k].action == Add
    ensures KeywordError(edits[k].keyword) == None
  {
    assert Admitted(lines, block, edits, k);
  }

  /** Where an error comes from: the first edit that is not admitted, a set that cannot be written, or an
      addition that cannot. */
  ghost predicate Refusal(lines: seq<Line>, block: Block, edits: seq<FieldEdit>, error: EditError) {
    || (exists k :: 0 <= k < |edits| && FirstProblem(lines, block, edits, k) == Some(error))
    || (exists k :: 0 <= k < |edits| && SetError(lines, edits[k]) == Some(error))
    || (error == UnquotableValue && !AddsWrite(edits))
  }

  /** All or nothing: either every edit is applied or the file is as it was. */
  method ApplyFieldEdits(file: File, block: Block, edits: seq<FieldEdit>) returns (error: Option<EditError>)
    requires IsBlock(file.lines, block)
    modifies file
    ensures error == None <==> Acceptable(old(file.lines), block, edits) && Writes(old(file.lines), edits)
    ensures error == None ==> file.lines == Edited(old(file.lines), block, edits)
    ensures error != None ==> file.lines == old(file.lines)
    ensures error.Some? ==> Refusal(old(file.lines), block, edits, error.value)
  {
    hide Acceptable, SetsWrite, AddsWrite, AfterSets, Removed, Edited;
    error := ValidateFieldEdits(file.lines, block, edits);
    if error.Some? { return; }
    var staged := new File(file.lines);
    var revised;
    revised, error := ApplySets(staged.lines, block, edits);
    if error.Some? { return; }
    var removals := CollectRemovals(file.lines, block, edits);
    RemovedInside(file.lines, block, edits);
    forall i | 0 <= i < |removals| ensures 0 <= removals[i] < |revised| {
      SetOfMember(removals, removals[i]);
    }
    staged.lines := ApplyRemovals(revised, removals);
    error := ApplyAdds(staged, block, file.lines, edits);
    if error.Some? { return; }
    file.lines := staged.lines;
  }
}
