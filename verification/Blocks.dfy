/** The blocks of a file. */
module Blocks {
  // The blocks of a file: the lines before the first Host or Match header, then one
  // block for each header up to the next.  Where the file cuts itself is a function of
  // its headers; the loops that compute it are proved against that function.

  import opened Results
  import opened Text
  import opened Syntax
  import opened Matcher

  datatype BlockKind = GlobalBlock | HostBlock | MatchBlock

  datatype Pattern = Pattern(raw: string, value: string, negated: bool, wildcard: bool)

  /** The half-open range of lines one header governs. */
  datatype Block = Block(kind: BlockKind, header: int, start: nat, end: nat, patterns: seq<Pattern>)

  predicate IsKeywordLine(line: Line, keyword: string) {
    line.kind == Directive && EqualFold(line.keyword, keyword)
  }

  predicate IsHost(line: Line) { IsKeywordLine(line, "Host") }
  predicate IsMatch(line: Line) { IsKeywordLine(line, "Match") }
  predicate IsHeader(line: Line) { IsHost(line) || IsMatch(line) }

  function HeaderKind(line: Line): BlockKind { if IsHost(line) then HostBlock else MatchBlock }

  function ParsePattern(value: string): Pattern {
    var negated := value != "" && value[0] == '!';
    var bare := if negated then value[1..] else value;
    Pattern(value, bare, negated, '*' in bare || '?' in bare)
  }

  function ParsePatterns(values: seq<string>): (patterns: seq<Pattern>)
    ensures |patterns| == |values|
    ensures forall i :: 0 <= i < |values| ==> patterns[i] == ParsePattern(values[i])
  {
    seq(|values|, i requires 0 <= i < |values| => ParsePattern(values[i]))
  }

  // ---- where the headers are ----

  predicate NoHeader(lines: seq<Line>, from: nat, to: nat)
    requires to <= |lines|
  {
    forall i :: from <= i < to ==> !IsHeader(lines[i])
  }

  /** The first header at or below `from`, or the end of the file. */
  function NextHeader(lines: seq<Line>, from: nat): (i: nat)
    requires from <= |lines|
    ensures from <= i <= |lines| && NoHeader(lines, from, i)
    ensures i < |lines| ==> IsHeader(lines[i])
    decreases |lines| - from
  {
    if from == |lines| || IsHeader(lines[from]) then from else NextHeader(lines, from + 1)
  }

  /** The header that governs a line, -1 for the global block. */
  function HeaderOver(lines: seq<Line>, line: int): (header: int)
    requires line < |lines|
    ensures -1 <= header && (header <= line || header == -1) && header < |lines|
    ensures header >= 0 ==> IsHeader(lines[header])
    ensures 0 <= line ==> NoHeader(lines, header + 1, line + 1)
    decreases line + 1
  {
    if line < 0 then -1 else if IsHeader(lines[line]) then line else HeaderOver(lines, line - 1)
  }

  predicate OpensBlock(lines: seq<Line>, header: int) {
    header == -1 || (0 <= header < |lines| && IsHeader(lines[header]))
  }

  function BlockOf(lines: seq<Line>, header: int): (block: Block)
    requires OpensBlock(lines, header)
    ensures block.header == header && block.start == header + 1 <= block.end <= |lines|
    ensures block.kind == GlobalBlock <==> header == -1
  {
    var end := NextHeader(lines, header + 1);
    if header == -1 then Block(GlobalBlock, -1, 0, end, [])
    else Block(HeaderKind(lines[header]), header, header + 1, end,
               if IsHost(lines[header]) then ParsePatterns(lines[header].Values()) else [])
  }

  predicate IsBlock(lines: seq<Line>, block: Block) {
    OpensBlock(lines, block.header) && block == BlockOf(lines, block.header)
  }

  /** Every block, each opened where the one before it ends. */
  predicate Partition(lines: seq<Line>, blocks: seq<Block>) {
    && blocks != [] && blocks[0].header == -1
    && blocks[|blocks| - 1].end == |lines|
    && (forall i :: 0 <= i < |blocks| ==> IsBlock(lines, blocks[i]))
    && (forall i :: 0 < i < |blocks| ==> blocks[i].header == blocks[i - 1].end)
  }

  /** The blocks and their headers cover every line exactly once. */
  lemma {:induction false} BlocksCover(lines: seq<Line>, blocks: seq<Block>, line: nat)
    requires Partition(lines, blocks) && line < |lines|
    ensures exists i :: 0 <= i < |blocks| && blocks[i].header <= line < blocks[i].end && blocks[i].header == HeaderOver(lines, line)
    ensures forall i :: 0 <= i < |blocks| && blocks[i].header <= line < blocks[i].end ==> blocks[i].header == HeaderOver(lines, line)
  {
    var h := HeaderOver(lines, line);
    var i := 0;
    while blocks[i].end <= line
      invariant 0 <= i < |blocks| && blocks[i].header <= line
      decreases |blocks| - i
    {
      assert i + 1 < |blocks|;
      i := i + 1;
    }
    assert IsBlock(lines, blocks[i]);
    forall j | 0 <= j < |blocks| && blocks[j].header <= line < blocks[j].end ensures blocks[j].header == h {
      assert IsBlock(lines, blocks[j]);
      assert NoHeader(lines, blocks[j].header + 1, blocks[j].end);
    }
  }

  /** The blocks above `index`, the last one with its end still to be patched. */
  predicate Growing(lines: seq<Line>, blocks: seq<Block>, index: nat)
    requires index <= |lines|
  {
    && blocks != [] && blocks[0].header == -1
    && (forall i :: 0 <= i < |blocks| - 1 ==> IsBlock(lines, blocks[i]))
    && (forall i :: 0 < i < |blocks| ==> blocks[i].header == blocks[i - 1].end)
    && var last := blocks[|blocks| - 1];
       && OpensBlock(lines, last.header) && last.start <= index && NoHeader(lines, last.start, index)
       && last == BlockOf(lines, last.header).(end := last.end)
  }

  function Patched(blocks: seq<Block>, end: nat): seq<Block>
    requires blocks != []
  {
    blocks[|blocks| - 1 := blocks[|blocks| - 1].(end := end)]
  }

  lemma PatchEnd(lines: seq<Line>, blocks: seq<Block>, index: nat)
    requires index <= |lines| && Growing(lines, blocks, index)
    requires index == |lines| || IsHeader(lines[index])
    ensures var patched := Patched(blocks, index);
            && patched[0].header == -1 && patched[|patched| - 1].end == index
            && (forall i :: 0 <= i < |patched| ==> IsBlock(lines, patched[i]))
            && (forall i :: 0 < i < |patched| ==> patched[i].header == patched[i - 1].end)
  {
    hide IsHeader, ParsePatterns;
    var last := blocks[|blocks| - 1];
    assert NextHeader(lines, last.start) == index;
  }

  lemma OpenNext(lines: seq<Line>, blocks: seq<Block>, index: nat)
    requires index < |lines| && Growing(lines, blocks, index) && IsHeader(lines[index])
    ensures Growing(lines, Patched(blocks, index) + [BlockOf(lines, index).(end := 0)], index + 1)
  {
    hide IsHeader, ParsePatterns, IsBlock, HeaderKind;
    PatchEnd(lines, blocks, index);
  }

  method FileBlocks(lines: seq<Line>) returns (blocks: seq<Block>)
    ensures Partition(lines, blocks)
  {
    hide Growing, Partition, NextHeader;
    blocks := [Block(GlobalBlock, -1, 0, 0, [])];
    assert Growing(lines, blocks, 0) by { OpenFirst(lines); }
    var index := 0;
    while index < |lines|
      invariant 0 <= index <= |lines| && blocks != [] && Growing(lines, blocks, index)
    {
      var line := lines[index];
      if IsHeader(line) { OpenNext(lines, blocks, index); } else { StayOpen(lines, blocks, index); }
      var last := |blocks| - 1;
      if IsHost(line) {
        blocks := blocks[last := blocks[last].(end := index)];
        blocks := blocks + [Block(HostBlock, index, index + 1, 0, ParsePatterns(line.Values()))];
      } else if IsMatch(line) {
        blocks := blocks[last := blocks[last].(end := index)];
        blocks := blocks + [Block(MatchBlock, index, index + 1, 0, [])];
      }
      index := index + 1;
    }
    PatchEnd(lines, blocks, |lines|);
    blocks := blocks[|blocks| - 1 := blocks[|blocks| - 1].(end := |lines|)];
    assert Partition(lines, blocks) by { Collect(lines, blocks); }
  }

  lemma OpenFirst(lines: seq<Line>)
    ensures Growing(lines, [Block(GlobalBlock, -1, 0, 0, [])], 0)
  {}

  lemma StayOpen(lines: seq<Line>, blocks: seq<Block>, index: nat)
    requires index < |lines| && Growing(lines, blocks, index) && !IsHeader(lines[index])
    ensures Growing(lines, blocks, index + 1)
  {}

  lemma Collect(lines: seq<Line>, blocks: seq<Block>)
    requires blocks != [] && blocks[0].header == -1 && blocks[|blocks| - 1].end == |lines|
    requires forall i :: 0 <= i < |blocks| ==> IsBlock(lines, blocks[i])
    requires forall i :: 0 < i < |blocks| ==> blocks[i].header == blocks[i - 1].end
    ensures Partition(lines, blocks)
  {}

  method BlockAt(lines: seq<Line>, line: int) returns (found: Block)
    ensures found == BlockOf(lines, if line < |lines| then HeaderOver(lines, line) else -1)
  {
    var blocks := FileBlocks(lines);
    found := blocks[0];
    if 0 <= line < |lines| { BlocksCover(lines, blocks, line); }
    var i := 0;
    while i < |blocks|
      invariant 0 <= i <= |blocks| && IsBlock(lines, found)
      invariant forall j :: 0 <= j < i && Holds(blocks[j], line) ==> Holds(found, line)
      invariant found == blocks[0] || Holds(found, line)
      invariant found in blocks
    {
      assert IsBlock(lines, blocks[i]);
      if Holds(blocks[i], line) { found := blocks[i]; }
      i := i + 1;
    }
  }

  predicate Holds(block: Block, line: int) {
    block.header == line || block.start <= line < block.end
  }

  // ---- the comment above a header ----

  function CommentStart(lines: seq<Line>, header: int): (start: int)
    ensures 0 <= header <= |lines| ==> 0 <= start <= header
    ensures 0 <= header <= |lines| ==> forall i :: start <= i < header ==> lines[i].kind == Comment
    ensures 0 < start < header <= |lines| ==> lines[start - 1].kind != Comment
    decreases if header < 0 then 0 else header
  {
    if 0 < header <= |lines| && lines[header - 1].kind == Comment then CommentStart(lines, header - 1) else header
  }

  method CommentRun(lines: seq<Line>, header: int) returns (start: int)
    ensures start == CommentStart(lines, header)
  {
    if header < 0 || header > |lines| { return header; }
    start := header;
    while start > 0 && lines[start - 1].kind == Comment
      invariant 0 <= start <= header && CommentStart(lines, start) == CommentStart(lines, header)
    {
      start := start - 1;
    }
  }

  // ---- which aliases a Host line names and matches ----

  predicate Concrete(pattern: Pattern) { !pattern.negated && !pattern.wildcard }

  function FirstConcrete(patterns: seq<Pattern>): string {
    if patterns == [] then "" else if Concrete(patterns[0]) then patterns[0].value else FirstConcrete(patterns[1..])
  }

  method PrimaryAlias(patterns: seq<Pattern>) returns (alias: string)
    ensures alias == FirstConcrete(patterns)
  {
    assert patterns[0..] == patterns;
    for i := 0 to |patterns|
      invariant FirstConcrete(patterns) == FirstConcrete(patterns[i..])
    {
      if Concrete(patterns[i]) { return patterns[i].value; }
    }
    return "";
  }

  /** The first Host block whose first concrete alias is this one. */
  predicate DeclaresAt(lines: seq<Line>, alias: string, header: nat) {
    header < |lines| && IsHost(lines[header]) && FirstConcrete(ParsePatterns(lines[header].Values())) == alias
  }

  predicate NoneAbove(lines: seq<Line>, alias: string, header: int) {
    forall h :: 0 <= h < header ==> !DeclaresAt(lines, alias, h)
  }

  lemma SkipBlock(lines: seq<Line>, alias: string, block: Block)
    requires IsBlock(lines, block) && NoneAbove(lines, alias, block.header)
    requires block.kind == HostBlock ==> FirstConcrete(block.patterns) != alias
    ensures NoneAbove(lines, alias, block.end)
  {
    hide EqualFold, FirstConcrete, ParsePatterns;
    assert NoHeader(lines, block.start, block.end);
  }

  method FindHostBlock(lines: seq<Line>, alias: string) returns (block: Block, found: bool)
    ensures !found ==> NoneAbove(lines, alias, |lines|)
    ensures found ==> IsBlock(lines, block) && block.kind == HostBlock
    ensures found ==> block.header >= 0 && DeclaresAt(lines, alias, block.header) && NoneAbove(lines, alias, block.header)
  {
    hide EqualFold, FirstConcrete, ParsePatterns, NextHeader, NoneAbove;
    var blocks := FileBlocks(lines);
    block := blocks[0];
    assert NoneAbove(lines, alias, -1) by { NoneAboveTop(lines, alias); }
    var i := 0;
    while i < |blocks|
      invariant 0 <= i <= |blocks|
      invariant NoneAbove(lines, alias, if i == |blocks| then |lines| else blocks[i].header)
    {
      block := blocks[i];
      assert IsBlock(lines, block);
      if block.kind == HostBlock {
        var primary := PrimaryAlias(block.patterns);
        if primary == alias { return block, true; }
      }
      SkipBlock(lines, alias, block);
      i := i + 1;
    }
    found := false;
  }

  lemma NoneAboveTop(lines: seq<Line>, alias: string)
    ensures NoneAbove(lines, alias, -1)
  {}

  ghost predicate Matches(pattern: Pattern, alias: string) { Scan(pattern.value, alias, 0, 0, -1, 0) }

  /** OpenSSH's rule: some plain pattern matches and no negated one does. */
  ghost predicate HostLineMatches(patterns: seq<Pattern>, alias: string) {
    && (exists i :: 0 <= i < |patterns| && !patterns[i].negated && Matches(patterns[i], alias))
    && (forall i :: 0 <= i < |patterns| && patterns[i].negated ==> !Matches(patterns[i], alias))
  }

  method MatchHostLine(patterns: seq<Pattern>, candidate: string) returns (matched: bool)
    ensures matched == HostLineMatches(patterns, candidate)
  {
    matched := false;
    for i := 0 to |patterns|
      invariant matched == exists j :: 0 <= j < i && !patterns[j].negated && Matches(patterns[j], candidate)
      invariant forall j :: 0 <= j < i && patterns[j].negated ==> !Matches(patterns[j], candidate)
    {
      var hit := MatchPattern(patterns[i].value, candidate);
      assert hit == Matches(patterns[i], candidate);
      if hit {
        if patterns[i].negated { return false; }
        matched := true;
      }
    }
  }

  ghost predicate BlockMatches(block: Block, alias: string) {
    block.kind == GlobalBlock || (block.kind == HostBlock && HostLineMatches(block.patterns, alias))
  }

  /** The other reading of the same rule: negations first, then the first match. */
  method BlockApplies(block: Block, alias: string) returns (exact: bool, applies: bool)
    ensures applies == BlockMatches(block, alias)
    ensures exact ==> exists i :: 0 <= i < |block.patterns| && Concrete(block.patterns[i]) && Matches(block.patterns[i], alias)
  {
    if block.kind == GlobalBlock { return false, true; }
    if block.kind == MatchBlock { return false, false; }
    for i := 0 to |block.patterns|
      invariant forall j :: 0 <= j < i && block.patterns[j].negated ==> !Matches(block.patterns[j], alias)
    {
      if block.patterns[i].negated {
        var hit := MatchPattern(block.patterns[i].value, alias);
        assert hit == Matches(block.patterns[i], alias);
        if hit { return false, false; }
      }
    }
    for i := 0 to |block.patterns|
      invariant forall j :: 0 <= j < i && !block.patterns[j].negated ==> !Matches(block.patterns[j], alias)
    {
      if !block.patterns[i].negated {
        var hit := MatchPattern(block.patterns[i].value, alias);
        assert hit == Matches(block.patterns[i], alias);
        if hit { return !block.patterns[i].wildcard, true; }
      }
    }
    return false, false;
  }

  // ---- over the values of the header ----

  /** Some value matches the alias, and no value negated by a '!' in front does. */
  ghost predicate ValuesMatch(values: seq<string>, alias: string) {
    && (exists i :: 0 <= i < |values| && (values[i] == "" || values[i][0] != '!') && Glob(values[i], alias))
    && (forall i :: 0 <= i < |values| && values[i] != "" && values[i][0] == '!' ==> !Glob(values[i][1..], alias))
  }

  lemma ValueIff(value: string, alias: string)
    requires '*' !in alias
    ensures var pattern := ParsePattern(value);
            && (pattern.negated <==> value != "" && value[0] == '!')
            && (Matches(pattern, alias) <==> Glob(if value != "" && value[0] == '!' then value[1..] else value, alias))
  {
    ScanMeetsGlob(ParsePattern(value).value, alias);
  }

  /** A Host line matches an alias exactly when its values do, for every alias without a star. */
  lemma HostLineIff(values: seq<string>, alias: string)
    requires '*' !in alias
    ensures HostLineMatches(ParsePatterns(values), alias) <==> ValuesMatch(values, alias)
  {
    hide Matches, Glob, ParsePattern;
    var patterns := ParsePatterns(values);
    forall i | 0 <= i < |values|
      ensures patterns[i].negated <==> values[i] != "" && values[i][0] == '!'
      ensures Matches(patterns[i], alias) <==> Glob(if values[i] != "" && values[i][0] == '!' then values[i][1..] else values[i], alias)
    {
      ValueIff(values[i], alias);
    }
    if HostLineMatches(patterns, alias) {
      var i :| 0 <= i < |patterns| && !patterns[i].negated && Matches(patterns[i], alias);
      assert Glob(values[i], alias);
    }
    if ValuesMatch(values, alias) {
      var i :| 0 <= i < |values| && (values[i] == "" || values[i][0] != '!') && Glob(values[i], alias);
      assert !patterns[i].negated && Matches(patterns[i], alias);
    }
  }

  /** A value that names one alias: no negation, no pattern byte. */
  predicate NamesOne(value: string) { (value == "" || value[0] != '!') && '*' !in value && '?' !in value }

  /** The alias is the first of the values that names one. */
  ghost predicate NamesFirst(values: seq<string>, alias: string, i: int) {
    0 <= i < |values| && values[i] == alias && NamesOne(alias) && forall j :: 0 <= j < i ==> !NamesOne(values[j])
  }

  lemma {:induction false} FirstConcreteIs(values: seq<string>, alias: string)
    requires alias != ""
    ensures FirstConcrete(ParsePatterns(values)) == alias <==> exists i :: NamesFirst(values, alias, i)
  {
    if values != [] {
      var rest := values[1..];
      FirstConcreteIs(rest, alias);
      assert ParsePatterns(values)[1..] == ParsePatterns(rest);
      if NamesOne(values[0]) {
        if values[0] == alias { assert NamesFirst(values, alias, 0); }
      } else {
        if i :| NamesFirst(rest, alias, i) {
          forall j | 0 <= j < i + 1 ensures !NamesOne(values[j]) { assert j > 0 ==> values[j] == rest[j - 1]; }
          assert NamesFirst(values, alias, i + 1);
        }
        if i :| NamesFirst(values, alias, i) {
          assert forall j :: 0 <= j < i - 1 ==> rest[j] == values[j + 1];
          assert NamesFirst(rest, alias, i - 1);
        }
      }
    }
  }

  /** A header declares an alias exactly when the alias is the first of its values that names one. */
  lemma DeclaresIff(lines: seq<Line>, alias: string, header: nat)
    requires alias != "" && header < |lines|
    ensures DeclaresAt(lines, alias, header) <==> IsHost(lines[header]) && exists i :: NamesFirst(lines[header].Values(), alias, i)
  {
    hide FirstConcrete, NamesFirst, EqualFold;
    FirstConcreteIs(lines[header].Values(), alias);
  }
}
