/** The lossless syntax of an ssh_config file. */
module Syntax {
  // The lossless syntax of an ssh_config file: bytes to lines and back.  Every line
  // keeps its indentation, separators, quotes and ending, so rendering what was parsed
  // gives the same bytes.  Each parser loop is proved against a function on strings,
  // and the round trips are proved about those functions.

  import opened Results
  import opened Text

  /** One argument and the exact bytes that produced it. */
  datatype Argument = Argument(lead: string, raw: string, value: string)

  datatype LineKind = Blank | Comment | Directive | Unstructured

  /** One physical line.  Only a directive uses the parts; the others keep `text`. */
  datatype Line = Line(kind: LineKind, text: string, indent: string, keyword: string, separator: string,
                       arguments: seq<Argument>, trailing: string, ending: string)
  {
    function Content(): string {
      if kind != Directive then text
      else indent + keyword + separator + RenderArguments(arguments) + trailing
    }

    function Render(): string {
      Content() + ending
    }

    /** The unquoted values, up to the first comment token. */
    function Values(): seq<string> {
      if kind != Directive then [] else ArgumentValues(arguments)
    }
  }

  function TextLine(kind: LineKind, text: string, ending: string): Line {
    Line(kind, text, "", "", "", [], "", ending)
  }

  function DirectiveLine(indent: string, keyword: string, separator: string,
                         arguments: seq<Argument>, trailing: string, ending: string): Line {
    Line(Directive, "", indent, keyword, separator, arguments, trailing, ending)
  }

  function RenderArguments(arguments: seq<Argument>): string {
    if arguments == [] then ""
    else arguments[0].lead + arguments[0].raw + RenderArguments(arguments[1..])
  }

  function ArgumentValues(arguments: seq<Argument>): (values: seq<string>)
    ensures |values| <= |arguments|
    ensures forall i :: 0 <= i < |values| ==> values[i] == arguments[i].value && !StartsComment(arguments[i].raw)
    ensures |values| < |arguments| ==> StartsComment(arguments[|values|].raw)
  {
    if arguments == [] || StartsComment(arguments[0].raw) then []
    else [arguments[0].value] + ArgumentValues(arguments[1..])
  }

  predicate StartsComment(raw: string) {
    raw != "" && raw[0] == '#'
  }

  function RenderLines(lines: seq<Line>): string {
    if lines == [] then "" else lines[0].Render() + RenderLines(lines[1..])
  }

  // ---- what the parser computes ----

  predicate IsSpace(c: char) { c == ' ' || c == '\t' }

  predicate AllSpaces(text: string) {
    forall i :: 0 <= i < |text| ==> IsSpace(text[i])
  }

  /** How many leading bytes are blanks. */
  function SpaceRun(text: string): (n: nat)
    ensures n <= |text|
    ensures n < |text| ==> !IsSpace(text[n])
  {
    if text == "" || !IsSpace(text[0]) then 0 else SpaceRun(text[1..]) + 1
  }

  predicate WordByte(c: char) { !IsSpace(c) && c != '"' }

  function WordRun(text: string): (n: nat)
    ensures n <= |text|
    ensures n < |text| ==> !WordByte(text[n])
  {
    if text == "" || !WordByte(text[0]) then 0 else WordRun(text[1..]) + 1
  }

  predicate KeywordByte(c: char) { !IsSpace(c) && c != '=' && c != '"' }

  function KeywordRun(text: string): (n: nat)
    ensures n <= |text|
    ensures n < |text| ==> !KeywordByte(text[n])
  {
    if text == "" || !KeywordByte(text[0]) then 0 else KeywordRun(text[1..]) + 1
  }

  /** A token and what follows it. */
  datatype Token = Token(raw: string, value: string, rest: string)

  function FirstToken(text: string): (token: Option<Token>)
    requires text != ""
    ensures token.Some? ==> token.value.raw + token.value.rest == text
    ensures token.Some? && !IsSpace(text[0]) ==> token.value.raw != ""
    ensures token.Some? && token.value.rest != "" ==> IsSpace(token.value.rest[0])
  {
    if text[0] == '"' then
      var closing := IndexOf(text[1..], '"');
      if closing < 0 then None
      else
        var rest := text[closing + 2..];
        if rest != "" && !IsSpace(rest[0]) then None
        else Some(Token(text[..closing + 2], text[1..closing + 1], rest))
    else
      var n := WordRun(text);
      if n < |text| && text[n] == '"' then None else Some(Token(text[..n], text[..n], text[n..]))
  }

  datatype Split = Split(arguments: seq<Argument>, trailing: string)

  function SplitArguments(input: string): (split: Option<Split>)
    decreases |input|
  {
    var n := SpaceRun(input);
    var rest := input[n..];
    if rest == "" then Some(Split([], input))
    else
      var token := FirstToken(rest);
      if token.None? then None
      else WithFirst(Argument(input[..n], token.value.raw, token.value.value), SplitArguments(token.value.rest))
  }

  function WithFirst(first: Argument, tail: Option<Split>): Option<Split> {
    if tail.None? then None else Some(Split([first] + tail.value.arguments, tail.value.trailing))
  }

  /** Where the separator between the keyword and the arguments ends. */
  function SeparatorRun(text: string): (n: nat)
    ensures n <= |text|
  {
    var blanks := SpaceRun(text);
    if blanks < |text| && text[blanks] == '=' then blanks + 1 + SpaceRun(text[blanks + 1..]) else blanks
  }

  /** A line whose keyword is known: `after` is what follows the keyword. */
  function ParseAfterKeyword(content: string, indent: string, keyword: string, after: string, ending: string): (line: Line)
    ensures line.ending == ending
  {
    var s := SeparatorRun(after);
    var split := SplitArguments(after[s..]);
    if split.None? then TextLine(Unstructured, content, ending)
    else DirectiveLine(indent, keyword, after[..s], split.value.arguments, split.value.trailing, ending)
  }

  function ParseLine(content: string, ending: string): (line: Line)
    ensures line.ending == ending
  {
    var indent := SpaceRun(content);
    var body := content[indent..];
    if body == "" then TextLine(Blank, content, ending)
    else if body[0] == '#' then TextLine(Comment, content, ending)
    else
      var k := KeywordRun(body);
      if k == 0 then TextLine(Unstructured, content, ending)
      else ParseAfterKeyword(content, content[..indent], body[..k], body[k..], ending)
  }

  /** The first line of a text: its content, its ending, and what follows. */
  datatype FirstLine = FirstLine(content: string, ending: string, rest: string)

  function SplitLine(text: string): (first: FirstLine)
    ensures first.content + first.ending + first.rest == text
    ensures text != "" ==> |first.rest| < |text|
    ensures '\n' !in first.content
    ensures first.ending in {"", "\n", "\r\n"}
    ensures first.ending == "" ==> first.rest == ""
    ensures first.ending == "\n" ==> !HasSuffix(first.content, "\r")
  {
    var index := IndexOf(text, '\n');
    if index < 0 then FirstLine(text, "", "")
    else if HasSuffix(text[..index], "\r") then
      assert text[..index - 1] + "\r" == text[..index];
      assert text[..index] + "\n" + text[index + 1..] == text;
      assert forall c :: c in text[..index - 1] ==> c in text[..index];
      FirstLine(text[..index - 1], "\r\n", text[index + 1..])
    else
      assert text[..index] + "\n" + text[index + 1..] == text;
      FirstLine(text[..index], "\n", text[index + 1..])
  }

  function Parse(source: string): seq<Line>
    decreases |source|
  {
    if source == "" then []
    else
      var first := SplitLine(source);
      [ParseLine(first.content, first.ending)] + Parse(first.rest)
  }

  // ---- the parser's loops ----

  method SplitArgumentsLoop(input: string) returns (arguments: seq<Argument>, trailing: string, ok: bool)
    ensures ok == SplitArguments(input).Some?
    ensures ok ==> SplitArguments(input) == Some(Split(arguments, trailing))
  {
    hide SplitArguments, SpaceRun, FirstToken;
    arguments := [];
    var index := 0;
    WithAllNone(SplitArguments(input));
    assert input[0..] == input;
    while true
      invariant 0 <= index <= |input|
      invariant SplitArguments(input) == WithAll(arguments, SplitArguments(input[index..]))
      decreases |input| - index
    {
      var leadStart := index;
      SplitStep(input[index..]);
      index := SkipSpaces(input, index);
      Slice(input, leadStart, index - leadStart);
      var lead := input[leadStart..index];
      if index == |input| {
        assert input[leadStart..] == lead && arguments + [] == arguments;
        return arguments, lead, true;
      }
      var rawStart := index;
      var value;
      value, index, ok := ReadToken(input, rawStart);
      if !ok {
        return [], "", false;
      }
      var argument := Argument(lead, input[rawStart..index], value);
      WithAllSnoc(arguments, argument, SplitArguments(input[index..]));
      arguments := arguments + [argument];
    }
  }

  lemma SplitStep(input: string)
    ensures SpaceRun(input) == |input| ==> SplitArguments(input) == Some(Split([], input))
    ensures SpaceRun(input) < |input| ==>
              var token := FirstToken(input[SpaceRun(input)..]);
              SplitArguments(input) == if token.None? then None else
                WithFirst(Argument(input[..SpaceRun(input)], token.value.raw, token.value.value), SplitArguments(token.value.rest))
  {}

  /** One token, quoted or bare. */
  method ReadToken(input: string, rawStart: nat) returns (value: string, index: nat, ok: bool)
    requires rawStart < |input|
    ensures ok == FirstToken(input[rawStart..]).Some?
    ensures ok ==> rawStart < index <= |input| || IsSpace(input[rawStart])
    ensures ok ==> rawStart <= index <= |input|
    ensures ok ==> FirstToken(input[rawStart..]) == Some(Token(input[rawStart..index], value, input[index..]))
  {
    index := rawStart;
    if input[index] == '"' {
      index := index + 1;
      Slice(input, rawStart, 1);
      var closing := IndexOf(input[index..], '"');
      if closing < 0 {
        return "", index, false;
      }
      value := input[index..index + closing];
      index := index + closing + 1;
      Slice(input, rawStart, closing + 2);
      assert input[rawStart..][1..closing + 1] == value;
      if index < |input| && !IsSpace(input[index]) {
        return "", index, false;
      }
    } else {
      index := SkipWord(input, index);
      Slice(input, rawStart, index - rawStart);
      if index < |input| && input[index] == '"' {
        return "", index, false;
      }
      value := input[rawStart..index];
    }
    ok := true;
  }

  function WithAll(front: seq<Argument>, tail: Option<Split>): Option<Split> {
    if tail.None? then None else Some(Split(front + tail.value.arguments, tail.value.trailing))
  }

  lemma WithAllNone(tail: Option<Split>)
    ensures WithAll([], tail) == tail
  {
    if tail.Some? { assert [] + tail.value.arguments == tail.value.arguments; }
  }

  lemma WithAllSnoc(front: seq<Argument>, argument: Argument, tail: Option<Split>)
    ensures WithAll(front, WithFirst(argument, tail)) == WithAll(front + [argument], tail)
  {
    if tail.Some? {
      assert front + ([argument] + tail.value.arguments) == front + [argument] + tail.value.arguments;
    }
  }

  method SkipSpaces(text: string, from: nat) returns (index: nat)
    requires from <= |text|
    ensures index == from + SpaceRun(text[from..])
  {
    index := from;
    while index < |text| && IsSpace(text[index])
      invariant from <= index <= |text|
      invariant from + SpaceRun(text[from..]) == index + SpaceRun(text[index..])
    {
      Slice(text, index, 1);
      index := index + 1;
    }
  }

  method SkipWord(text: string, from: nat) returns (index: nat)
    requires from <= |text|
    ensures index == from + WordRun(text[from..])
  {
    index := from;
    while index < |text| && !IsSpace(text[index])
      invariant from <= index <= |text|
      invariant from + WordRun(text[from..]) == index + WordRun(text[index..])
    {
      if text[index] == '"' { return; }
      Slice(text, index, 1);
      index := index + 1;
    }
  }

  method SkipKeyword(text: string, from: nat) returns (index: nat)
    requires from <= |text|
    ensures index == from + KeywordRun(text[from..])
  {
    index := from;
    while index < |text| && !IsSpace(text[index]) && text[index] != '=' && text[index] != '"'
      invariant from <= index <= |text|
      invariant from + KeywordRun(text[from..]) == index + KeywordRun(text[index..])
    {
      Slice(text, index, 1);
      index := index + 1;
    }
  }

  method ParseLineLoop(content: string, ending: string) returns (line: Line)
    ensures line == ParseLine(content, ending)
  {
    hide ParseAfterKeyword, SplitArguments, SeparatorRun, SpaceRun, KeywordRun;
    assert content[0..] == content;
    var index := SkipSpaces(content, 0);
    if index == |content| {
      return TextLine(Blank, content, ending);
    }
    if content[index] == '#' {
      return TextLine(Comment, content, ending);
    }
    var indent := content[..index];
    var keywordStart := index;
    index := SkipKeyword(content, index);
    var keyword := content[keywordStart..index];
    Slice(content, keywordStart, index - keywordStart);
    if keyword == "" {
      return TextLine(Unstructured, content, ending);
    }
    line := ParseArgumentsLoop(content, index, indent, keyword, ending);
  }

  method SkipSeparator(content: string, from: nat) returns (index: nat)
    requires from <= |content|
    ensures index == from + SeparatorRun(content[from..])
  {
    index := SkipSpaces(content, from);
    Slice(content, from, index - from);
    if index < |content| && content[index] == '=' {
      Slice(content, from, index + 1 - from);
      index := SkipSpaces(content, index + 1);
    }
  }

  method ParseArgumentsLoop(content: string, separatorStart: nat, indent: string, keyword: string, ending: string)
      returns (line: Line)
    requires separatorStart <= |content|
    ensures line == ParseAfterKeyword(content, indent, keyword, content[separatorStart..], ending)
  {
    hide SplitArguments, SeparatorRun, SpaceRun;
    var index := SkipSeparator(content, separatorStart);
    var separator := content[separatorStart..index];
    Slice(content, separatorStart, index - separatorStart);
    var arguments, trailing, ok := SplitArgumentsLoop(content[index..]);
    if !ok {
      return TextLine(Unstructured, content, ending);
    }
    return DirectiveLine(indent, keyword, separator, arguments, trailing, ending);
  }

  /** The parser.  The file it builds renders back to the source, byte for byte. */
  method ParseFile(source: string) returns (lines: seq<Line>)
    ensures lines == Parse(source)
    ensures RenderLines(lines) == source
  {
    hide ParseLine, RenderLines, SplitLine;
    RenderParse(source);
    lines := [];
    var remaining := source;
    while |remaining| > 0
      invariant lines + Parse(remaining) == Parse(source)
      decreases |remaining|
    {
      var first := SplitLine(remaining);
      var line := ParseLineLoop(first.content, first.ending);
      assert Parse(remaining) == [line] + Parse(first.rest);
      assert lines + ([line] + Parse(first.rest)) == lines + [line] + Parse(first.rest);
      lines := lines + [line];
      remaining := first.rest;
    }
    assert lines + [] == lines;
  }

  // ---- rendering what was parsed ----

  lemma {:induction false} RenderSplit(input: string)
    requires SplitArguments(input).Some?
    ensures var split := SplitArguments(input).value; RenderArguments(split.arguments) + split.trailing == input
    decreases |input|
  {
    var lead := input[..SpaceRun(input)];
    var rest := input[SpaceRun(input)..];
    if rest != "" {
      var token := FirstToken(rest).value;
      RenderSplit(token.rest);
      var tail := SplitArguments(token.rest).value;
      var first := Argument(lead, token.raw, token.value);
      assert ([first] + tail.arguments)[1..] == tail.arguments;
      Regroup(lead + token.raw, RenderArguments(tail.arguments), tail.trailing);
      Regroup(lead, token.raw, token.rest);
      assert lead + rest == input;
    }
  }

  lemma RenderParseAfterKeyword(content: string, indent: string, keyword: string, after: string, ending: string)
    requires content == indent + keyword + after
    ensures ParseAfterKeyword(content, indent, keyword, after, ending).Content() == content
  {
    hide SplitArguments, SeparatorRun, RenderArguments;
    var s := SeparatorRun(after);
    var line := ParseAfterKeyword(content, indent, keyword, after, ending);
    if line.kind == Directive {
      RenderSplit(after[s..]);
      Regroup(indent + keyword + after[..s], RenderArguments(line.arguments), line.trailing);
      Regroup(indent + keyword, after[..s], after[s..]);
      assert after[..s] + after[s..] == after;
    }
  }

  lemma RenderParseLine(content: string, ending: string)
    ensures ParseLine(content, ending).Content() == content
  {
    var indent := content[..SpaceRun(content)];
    var body := content[SpaceRun(content)..];
    assert indent + body == content;
    var k := KeywordRun(body);
    if k > 0 {
      assert body[..k] + body[k..] == body;
      Regroup(indent, body[..k], body[k..]);
      RenderParseAfterKeyword(content, indent, body[..k], body[k..], ending);
    }
  }

  /** The file is lossless. */
  lemma {:induction false} RenderParse(source: string)
    ensures RenderLines(Parse(source)) == source
    decreases |source|
  {
    if source != "" {
      var first := SplitLine(source);
      RenderParse(first.rest);
      RenderParseLine(first.content, first.ending);
      var lines := Parse(source);
      assert lines[1..] == Parse(first.rest);
    }
  }
}
