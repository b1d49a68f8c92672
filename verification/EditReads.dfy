/** What an edited file says once it is written and read again. */
module EditReads {
  import opened Results
  import opened Text
  import opened Syntax
  import opened Blocks
  import opened Reparse
  import opened Rewriting
  import opened Surviving
  import opened Edits
  import opened Appending

  /** Lines as the parser leaves them. */
  predicate ParsedFile(lines: seq<Line>) {
    && WritableFile(lines)
    && forall i :: 0 <= i < |lines| ==> ParsedFrom(lines[i])
  }

  predicate ParsedFrom(line: Line) { line == ParseLine(line.Content(), line.ending) }

  lemma {:induction false} ParseGivesParsed(source: string)
    ensures ParsedFile(Parse(source))
    decreases |source|
  {
    hide ParseLine, SplitLine;
    if source != "" {
      var first := SplitLine(source);
      ParseGivesParsed(first.rest);
      RenderParseLine(first.content, first.ending);
      assert first.content + first.ending + first.rest == source;
      var lines := Parse(source);
      assert lines == [ParseLine(first.content, first.ending)] + Parse(first.rest);
      assert lines[0].Render() == first.content + first.ending;
      assert first.ending == "" ==> first.content + "" + "" == source;
    }
  }

  lemma ParsedFromShaped(line: Line)
    requires ParsedFrom(line) && line.kind == Directive
    ensures Shaped(line)
  {
    ParsedShaped(line.Content(), line.ending);
  }

  // ---- the edited file can be written ----

  lemma {:induction false} RenderedOf(arguments: seq<Argument>, c: char)
    requires forall i :: 0 <= i < |arguments| ==> c !in arguments[i].lead && c !in arguments[i].raw
    ensures c !in RenderArguments(arguments)
  {
    if arguments != [] { RenderedOf(arguments[1..], c); }
  }

  lemma WrittenOneLine(existing: seq<Argument>, values: seq<string>)
    requires AllQuotable(values) && forall i :: 0 <= i < |existing| ==> '\n' !in existing[i].lead
    ensures forall i :: 0 <= i < |values| ==> '\n' !in Written(existing, values)[i].lead && '\n' !in Written(existing, values)[i].raw
  {
    forall i | 0 <= i < |values| ensures '\n' !in Written(existing, values)[i].lead && '\n' !in Written(existing, values)[i].raw {}
  }

  predicate OneLine(arguments: seq<Argument>) {
    forall i :: 0 <= i < |arguments| ==> '\n' !in arguments[i].lead && '\n' !in arguments[i].raw
  }

  lemma RebuiltWritable(line: Line, keyword: string, values: seq<string>)
    requires Writable(line) && line.kind == Directive && KeywordError(keyword) == None && AllQuotable(values)
    ensures Writable(Rebuilt(line, keyword, values))
  {
    hide KeywordError, AllQuotable, Written, ArgumentValues, RenderArguments, IsKeyword, EqualFold;
    RenderedWithout(line.arguments, '\n');
    assert OneLine(line.arguments);
    KeywordFits(keyword);
    WrittenOneLine(ValuePart(line.arguments), values);
    var r := Rebuilt(line, keyword, values);
    assert OneLine(r.arguments) by { PartsOneLine(line.arguments, Written(ValuePart(line.arguments), values), values); }
    RenderedOf(r.arguments, '\n');
    assert keyword != "";
  }

  lemma PartsOneLine(arguments: seq<Argument>, written: seq<Argument>, values: seq<string>)
    requires OneLine(arguments) && OneLine(written)
    ensures OneLine(written + KeptComment(values, CommentPart(arguments)))
  {
    hide ArgumentValues;
  }

  lemma BuiltWritable(indent: string, keyword: string, values: seq<string>, ending: string)
    requires AllSpaces(indent) && IsKeyword(keyword) && '\n' !in keyword && AllQuotable(values) && ending in {"\n", "\r\n"}
    ensures Writable(Built(indent, keyword, values, ending))
  {
    hide AllQuotable, Written;
    WrittenOneLine([], values);
    var r := Built(indent, keyword, values, ending);
    RenderedOf(r.arguments, '\n');
  }

  lemma {:induction false} SetEditFound(edits: seq<FieldEdit>, i: int) returns (k: nat)
    requires SetEdit(edits, i) != None
    ensures k < |edits| && SetsAt(edits[k], i) && SetEdit(edits, i) == Some(edits[k])
  {
    if SetsAt(edits[|edits| - 1], i) { k := |edits| - 1; } else { k := SetEditFound(edits[..|edits| - 1], i); }
  }

  /** A line that a set edit rewrites: admitted, and it can be written. */
  lemma SetFacts(lines: seq<Line>, block: Block, edits: seq<FieldEdit>, i: nat)
    requires Acceptable(lines, block, edits) && SetsWrite(lines, edits) && i < |lines| && SetEdit(edits, i) != None
    ensures var e := SetEdit(edits, i).value;
            && lines[i].kind == Directive && AllQuotable(e.values) && KeywordError(NewKeyword(lines[i], e)) == None
            && AfterSets(lines, edits)[i] == Rebuilt(lines[i], NewKeyword(lines[i], e), e.values)
  {
    hide KeywordError, AllQuotable;
    var k := SetEditFound(edits, i);
    assert Admitted(lines, block, edits, k);
    assert SetError(lines, edits[k]) == None;
  }

  lemma SetsWritable(lines: seq<Line>, block: Block, edits: seq<FieldEdit>)
    requires ParsedFile(lines) && Acceptable(lines, block, edits) && SetsWrite(lines, edits)
    ensures WritableFile(AfterSets(lines, edits))
  {
    hide Writable, Acceptable, SetsWrite, Rebuilt, KeywordError, Revised;
    forall i | 0 <= i < |lines| ensures Writable(AfterSets(lines, edits)[i]) && AfterSets(lines, edits)[i].ending == lines[i].ending {
      if SetEdit(edits, i) != None {
        SetFacts(lines, block, edits, i);
        var e := SetEdit(edits, i).value;
        RebuiltWritable(lines[i], NewKeyword(lines[i], e), e.values);
        RebuiltEnding(lines[i], NewKeyword(lines[i], e), e.values);
      }
    }
  }

  lemma RebuiltEnding(line: Line, keyword: string, values: seq<string>)
    requires AllQuotable(values)
    ensures var r := Rebuilt(line, keyword, values); r.ending == line.ending && r.kind == line.kind && r.indent == line.indent
  {}

  lemma KeptWritable(lines: seq<Line>, gone: set<int>)
    requires WritableFile(lines)
    ensures WritableFile(Keep(lines, gone))
  {
    hide Writable;
    var kept := Keep(lines, gone);
    KeptAt(lines, gone, |lines|);
    forall n | 0 <= n < |kept| ensures Writable(kept[n]) && (n + 1 < |kept| ==> kept[n].ending != "") {
      var i := KeptFrom(lines, gone, n);
      KeptAt(lines, gone, i);
      if n + 1 < |kept| {
        var j := KeptFrom(lines, gone, n + 1);
        if j <= i {
          if j < i { KeptOrder(gone, j, i); }
          assert false;
        }
      }
    }
  }

  lemma {:induction false} EndingInFile(lines: seq<Line>, start: nat, end: nat)
    requires WritableFile(lines) && start <= end <= |lines|
    ensures EndingOf(lines, start, end) in {"\n", "\r\n"}
    decreases end
  {
    if end == start { FirstEndingInFile(lines); }
    else if !(lines[end - 1].kind == Directive && lines[end - 1].ending != "") { EndingInFile(lines, start, end - 1); }
    else { assert Writable(lines[end - 1]); }
  }

  lemma {:induction false} FirstEndingInFile(lines: seq<Line>)
    requires WritableFile(lines)
    ensures FirstEnding(lines) in {"\n", "\r\n"}
  {
    if lines != [] {
      assert Writable(lines[0]);
      assert WritableFile(lines[1..]) by {
        forall i | 0 <= i < |lines| - 1 ensures lines[1..][i] == lines[i + 1] {}
      }
      FirstEndingInFile(lines[1..]);
    }
  }

  /** The indentation of every directive is blank. */
  predicate BlankIndents(lines: seq<Line>) {
    forall i :: 0 <= i < |lines| && lines[i].kind == Directive ==> AllSpaces(lines[i].indent)
  }

  lemma KeptIndents(lines: seq<Line>, block: Block, edits: seq<FieldEdit>)
    requires ParsedFile(lines) && Acceptable(lines, block, edits) && SetsWrite(lines, edits)
    ensures BlankIndents(Kept(lines, edits))
  {
    hide Acceptable, SetsWrite, Rebuilt, KeywordError, Revised, AllSpaces, ParsedFrom;
    var staged, gone := AfterSets(lines, edits), Removed(edits);
    forall n | 0 <= n < |Kept(lines, edits)| && Kept(lines, edits)[n].kind == Directive ensures AllSpaces(Kept(lines, edits)[n].indent) {
      var i := KeptFrom(staged, gone, n);
      KeptAt(staged, gone, i);
      if SetEdit(edits, i) != None {
        SetFacts(lines, block, edits, i);
        var e := SetEdit(edits, i).value;
        RebuiltEnding(lines[i], NewKeyword(lines[i], e), e.values);
      }
      assert ParsedFrom(lines[i]);
      ParsedFromShaped(lines[i]);
    }
  }

  lemma AddedWritable(adds: seq<FieldEdit>, indent: string, ending: string, k: nat)
    requires GoodAdds(adds) && AllSpaces(indent) && ending in {"\n", "\r\n"} && k < |adds|
    ensures var line := Added(adds, indent, ending)[k]; Writable(line) && line.ending != ""
  {
    hide Writable, KeywordError, AllQuotable, Built, AllSpaces, IsKeyword, EqualFold;
    KeywordFits(adds[k].keyword);
    BuiltWritable(indent, adds[k].keyword, adds[k].values, ending);
    BuiltIsNoHeader(indent, adds[k], ending);
  }

  lemma AddsWritable(lines: seq<Line>, start: nat, adds: seq<FieldEdit>)
    requires WritableFile(lines) && BlankIndents(lines) && start <= |lines| && GoodAdds(adds)
    ensures WritableFile(WithAdds(lines, start, adds))
  {
    hide Writable, NextHeader, EndingOf, AppendAt, GoodAdds, AllSpaces;
    if adds != [] {
      var end := NextHeader(lines, start);
      var p, ending, indent := AppendAt(lines, start, end), EndingOf(lines, start, end), IndentOf(lines, start, end);
      EndingInFile(lines, start, end);
      assert AllSpaces(indent) by { IndentBlank(lines, start, end); }
      var r := WithAdds(lines, start, adds);
      forall i | 0 <= i < |r| ensures Writable(r[i]) && (i + 1 < |r| ==> r[i].ending != "") {
        if i < p {
          assert Writable(lines[i]);
          EndedWritable(lines[i], ending);
          assert r[i] == Ended(lines[..p], ending)[i];
        } else if i < p + |adds| {
          assert r[i] == Added(adds, indent, ending)[i - p];
          AddedWritable(adds, indent, ending, i - p);
        } else {
          assert r[i] == lines[i - |adds|];
        }
      }
    }
  }

  lemma IndentBlank(lines: seq<Line>, start: nat, end: nat)
    requires BlankIndents(lines) && start <= end <= |lines|
    ensures AllSpaces(IndentOf(lines, start, end))
  {
    hide AppendAt;
  }

  lemma EndedWritable(line: Line, ending: string)
    requires Writable(line) && ending in {"\n", "\r\n"}
    ensures Writable(line.(ending := ending))
  {}

  /** The edited file, written and read again, has the same lines, each read by itself. */
  lemma EditedParses(lines: seq<Line>, block: Block, edits: seq<FieldEdit>)
    requires ParsedFile(lines) && IsBlock(lines, block) && Acceptable(lines, block, edits) && Writes(lines, edits)
    ensures var edited := Edited(lines, block, edits);
            |Parse(RenderLines(edited))| == |edited| && forall i :: 0 <= i < |edited| ==> Parse(RenderLines(edited))[i] == Reread(edited[i])
  {
    hide Acceptable, SetsWrite, AddsWrite, ParsedFile, Reread, WithAdds, WritableFile, GoodAdds;
    SetsWritable(lines, block, edits);
    KeptWritable(AfterSets(lines, edits), Removed(edits));
    KeptIndents(lines, block, edits);
    KeptAbove(lines, block, edits);
    AddsAllGood(lines, block, edits);
    AddsWritable(Kept(lines, edits), block.start, AddsOf(edits));
    ParseRendered(Edited(lines, block, edits));
  }

  lemma AddsAllGood(lines: seq<Line>, block: Block, edits: seq<FieldEdit>)
    requires Acceptable(lines, block, edits) && AddsWrite(edits)
    ensures GoodAdds(AddsOf(edits))
  {
    AddsGood(lines, block, edits, |edits|);
    assert edits[..|edits|] == edits;
  }

  // ---- where every line goes ----

  function AddPosition(lines: seq<Line>, block: Block, edits: seq<FieldEdit>): nat
    requires Acceptable(lines, block, edits) && block.start <= |lines|
  {
    KeptAbove(lines, block, edits);
    var kept := Kept(lines, edits);
    AppendAt(kept, block.start, NextHeader(kept, block.start))
  }

  /** Where a line that is not removed ends up. */
  function FinalIndex(lines: seq<Line>, block: Block, edits: seq<FieldEdit>, i: nat): nat
    requires Acceptable(lines, block, edits) && block.start <= |lines|
  {
    var n := KeptIndex(Removed(edits), i);
    if n < AddPosition(lines, block, edits) then n else n + |AddsOf(edits)|
  }

  lemma AddedAt(lines: seq<Line>, start: nat, adds: seq<FieldEdit>, i: nat)
    requires start <= |lines| && GoodAdds(adds)
    ensures var end := NextHeader(lines, start);
            var p, ending := AppendAt(lines, start, end), EndingOf(lines, start, end);
            var all := WithAdds(lines, start, adds);
            && |all| == |lines| + |adds|
            && (i < |lines| && (i >= p || i + 1 < p) ==> all[if i < p then i else i + |adds|] == lines[i])
            && (i < |lines| && i + 1 == p ==> all[i] == lines[i] || (lines[i].ending == "" && all[i] == lines[i].(ending := ending)))
            && (i < |adds| ==> all[p + i] == Built(IndentOf(lines, start, end), adds[i].keyword, adds[i].values, ending))
  {
    hide GoodAdds, AppendAt, NextHeader, EndingOf, Built, IndentOf;
  }

  /** The kept lines stay in order and, but for a missing final newline, as they are; a set line is rewritten. */
  lemma EditedAt(lines: seq<Line>, block: Block, edits: seq<FieldEdit>, i: nat)
    requires IsBlock(lines, block) && Acceptable(lines, block, edits) && Writes(lines, edits)
    requires i < |lines| && i !in Removed(edits)
    ensures var edited, at, line := Edited(lines, block, edits), FinalIndex(lines, block, edits, i), AfterSets(lines, edits)[i];
            && at < |edited|
            && (edited[at] == line || (line.ending == "" && edited[at] == line.(ending := edited[at].ending)))
  {
    hide Acceptable, SetsWrite, AddsWrite, WithAdds, AppendAt, NextHeader, EndingOf, AfterSets, KeptIndex;
    KeptAbove(lines, block, edits);
    AddsAllGood(lines, block, edits);
    KeptAt(AfterSets(lines, edits), Removed(edits), i);
    AddedAt(Kept(lines, edits), block.start, AddsOf(edits), KeptIndex(Removed(edits), i));
  }

  /** Untouched lines keep their bytes. */
  lemma UntouchedKept(lines: seq<Line>, block: Block, edits: seq<FieldEdit>, i: nat)
    requires IsBlock(lines, block) && Acceptable(lines, block, edits) && Writes(lines, edits)
    requires i < |lines| && i !in Touched(edits)
    ensures i !in Removed(edits)
    ensures var edited, at := Edited(lines, block, edits), FinalIndex(lines, block, edits, i);
            && at < |edited| && edited[at].Content() == lines[i].Content()
            && (lines[i].ending != "" ==> edited[at] == lines[i])
  {
    hide Acceptable, SetsWrite, AddsWrite, Edited, Line.Content;
    NotTouchedNotSet(edits, i);
    EditedAt(lines, block, edits, i);
    ContentWithEnding(lines[i], Edited(lines, block, edits)[FinalIndex(lines, block, edits, i)].ending);
  }

  /** Kept lines keep their order. */
  lemma FinalOrder(lines: seq<Line>, block: Block, edits: seq<FieldEdit>, i: nat, j: nat)
    requires Acceptable(lines, block, edits) && block.start <= |lines|
    requires i < j < |lines| && i !in Removed(edits)
    ensures FinalIndex(lines, block, edits, i) < FinalIndex(lines, block, edits, j)
  {
    KeptOrder(Removed(edits), i, j);
  }

  /** Nothing else is in the file: every line is a kept one or one of the new ones. */
  lemma EditedFrom(lines: seq<Line>, block: Block, edits: seq<FieldEdit>, n: nat)
    requires IsBlock(lines, block) && Acceptable(lines, block, edits) && Writes(lines, edits)
    requires n < |Edited(lines, block, edits)|
    ensures var p := AddPosition(lines, block, edits);
            || p <= n < p + |AddsOf(edits)|
            || exists i :: 0 <= i < |lines| && i !in Removed(edits) && FinalIndex(lines, block, edits, i) == n
  {
    hide Acceptable, SetsWrite, AddsWrite, WithAdds, AppendAt, NextHeader, EndingOf, AfterSets;
    KeptAbove(lines, block, edits);
    AddsAllGood(lines, block, edits);
    AddedAt(Kept(lines, edits), block.start, AddsOf(edits), 0);
    var p := AddPosition(lines, block, edits);
    if n < p || n >= p + |AddsOf(edits)| {
      var i := KeptFrom(AfterSets(lines, edits), Removed(edits), if n < p then n else n - |AddsOf(edits)|);
      assert FinalIndex(lines, block, edits, i) == n;
    }
  }

  /** A set line says what was asked exactly when it survives. */
  lemma SetReadsBack(lines: seq<Line>, block: Block, edits: seq<FieldEdit>, i: nat)
    requires ParsedFile(lines) && IsBlock(lines, block) && Acceptable(lines, block, edits) && Writes(lines, edits)
    requires i < |lines| && i !in Removed(edits) && SetEdit(edits, i) != None
    ensures var e := SetEdit(edits, i).value;
            var back, at := Parse(RenderLines(Edited(lines, block, edits))), FinalIndex(lines, block, edits, i);
            at < |back| && (Says(back[at], NewKeyword(lines[i], e), e.values) <==> Survives(lines[i], e.values))
  {
    hide Acceptable, SetsWrite, AddsWrite, Edited, Says, Survives, Reread, RenderLines, Parse, Rebuilt, Shaped, KeywordError;
    EditedParses(lines, block, edits);
    EditedAt(lines, block, edits, i);
    SetFacts(lines, block, edits, i);
    assert ParsedFrom(lines[i]);
    ParsedFromShaped(lines[i]);
    var e := SetEdit(edits, i).value;
    var keyword, at := NewKeyword(lines[i], e), FinalIndex(lines, block, edits, i);
    KeywordFits(keyword);
    var written := Rebuilt(lines[i], keyword, e.values);
    var ending := Edited(lines, block, edits)[at].ending;
    RebuiltRereadsIff(lines[i], keyword, e.values, ending);
    assert Edited(lines, block, edits)[at] == written.(ending := ending);
  }

  /** The k-th new line, as it stands in the edited file. */
  lemma AddedLine(lines: seq<Line>, block: Block, edits: seq<FieldEdit>, k: nat) returns (indent: string, ending: string)
    requires ParsedFile(lines) && IsBlock(lines, block) && Acceptable(lines, block, edits) && Writes(lines, edits)
    requires k < |AddsOf(edits)|
    ensures var add, edited, at := AddsOf(edits)[k], Edited(lines, block, edits), AddPosition(lines, block, edits) + k;
            && KeywordError(add.keyword) == None && AllQuotable(add.values) && AllSpaces(indent)
            && at < |edited| && edited[at] == Built(indent, add.keyword, add.values, ending)
  {
    hide Acceptable, SetsWrite, AddsWrite, Built, KeywordError, ParsedFile, WithAdds, AppendAt, EndingOf, NextHeader, AllQuotable, AddsOf;
    KeptAbove(lines, block, edits);
    AddsAllGood(lines, block, edits);
    KeptIndents(lines, block, edits);
    var kept := Kept(lines, edits);
    AddedAt(kept, block.start, AddsOf(edits), k);
    var end := NextHeader(kept, block.start);
    indent, ending := IndentOf(kept, block.start, end), EndingOf(kept, block.start, end);
  }

  /** A new line says what was asked unless its first value opens with a bare '='. */
  lemma AddReadsBack(lines: seq<Line>, block: Block, edits: seq<FieldEdit>, k: nat)
    requires ParsedFile(lines) && IsBlock(lines, block) && Acceptable(lines, block, edits) && Writes(lines, edits)
    requires k < |AddsOf(edits)|
    ensures var add := AddsOf(edits)[k];
            var back, at := Parse(RenderLines(Edited(lines, block, edits))), AddPosition(lines, block, edits) + k;
            at < |back| && (Says(back[at], add.keyword, add.values) <==> !TakenBySeparator(" ", add.values))
  {
    hide Acceptable, SetsWrite, AddsWrite, Says, Reread, RenderLines, Parse, Built, KeywordError, TakenBySeparator, ParsedFile,
         AllQuotable, AddsOf, IsKeyword, Edited, AddPosition;
    EditedParses(lines, block, edits);
    var indent, ending := AddedLine(lines, block, edits, k);
    var add := AddsOf(edits)[k];
    KeywordFits(add.keyword);
    BuiltRereadsIff(indent, add.keyword, add.values, ending);
  }
}
