/**
 Reading back what was written: arguments, lines and whole files.
 */
module Reparse {
  import opened Results
  import opened Text
  import opened Syntax

  // ---- writing a value ----

  predicate Unquotable(value: string) {
    exists i :: 0 <= i < |value| && value[i] in {'\n', '\r', '\0', '"'}
  }

  predicate NeedsQuotes(value: string) {
    value == "" || (exists i :: 0 <= i < |value| && IsSpace(value[i])) || value[0] == '#'
  }

  /** One value in OpenSSH quoting; refused when it has no spelling. */
  function RenderArgument(lead: string, value: string): Option<Argument> {
    if Unquotable(value) then None
    else Some(Argument(lead, if NeedsQuotes(value) then "\"" + value + "\"" else value, value))
  }

  // ---- tokens ----

  /** The raw bytes are one token with this value. */
  predicate IsToken(raw: string, value: string) {
    || (raw == "\"" + value + "\"" && '"' !in value)
    || (raw == value && raw != "" && forall i :: 0 <= i < |raw| ==> WordByte(raw[i]))
  }

  predicate Ends(rest: string) { rest == "" || IsSpace(rest[0]) }

  lemma {:induction false} IndexOfFirst(text: string, c: char, rest: string)
    requires c !in text
    ensures IndexOf(text + [c] + rest, c) == |text|
  {
    var whole := text + [c] + rest;
    if text != "" {
      assert whole[1..] == text[1..] + [c] + rest;
      IndexOfFirst(text[1..], c, rest);
    }
  }

  lemma {:induction false} WordRunOf(word: string, rest: string)
    requires (forall i :: 0 <= i < |word| ==> WordByte(word[i])) && Ends(rest)
    ensures WordRun(word + rest) == |word|
  {
    if word == "" {
      assert word + rest == rest;
    } else {
      assert (word + rest)[1..] == word[1..] + rest;
      WordRunOf(word[1..], rest);
    }
  }

  lemma FirstTokenOf(raw: string, value: string, rest: string)
    requires IsToken(raw, value) && Ends(rest)
    ensures raw != "" && FirstToken(raw + rest) == Some(Token(raw, value, rest))
    ensures !IsSpace(raw[0])
  {
    var text := raw + rest;
    if raw == "\"" + value + "\"" && '"' !in value {
      assert text[1..] == value + ['"'] + rest;
      IndexOfFirst(value, '"', rest);
      assert text[|value| + 2..] == rest && text[..|value| + 2] == raw && text[1..|value| + 1] == value;
    } else {
      WordRunOf(raw, rest);
      assert text[..|raw|] == raw && text[|raw|..] == rest;
    }
  }

  lemma {:induction false} SpaceRunOf(lead: string, rest: string)
    requires AllSpaces(lead) && (rest == "" || !IsSpace(rest[0]))
    ensures SpaceRun(lead + rest) == |lead|
  {
    if lead == "" {
      assert lead + rest == rest;
    } else {
      assert (lead + rest)[1..] == lead[1..] + rest;
      SpaceRunOf(lead[1..], rest);
    }
  }

  // ---- argument lists ----

  /** Arguments as the parser leaves them: blank leads, none missing between tokens. */
  predicate Chain(arguments: seq<Argument>) {
    forall i :: 0 <= i < |arguments| ==>
      && AllSpaces(arguments[i].lead) && IsToken(arguments[i].raw, arguments[i].value)
      && (i > 0 ==> arguments[i].lead != "")
  }

  lemma RenderedEnds(arguments: seq<Argument>, trailing: string)
    requires Chain(arguments) && AllSpaces(trailing) && (arguments != [] ==> arguments[0].lead != "")
    ensures Ends(RenderArguments(arguments) + trailing)
  {
    if arguments != [] {
      assert (RenderArguments(arguments) + trailing)[0] == arguments[0].lead[0];
    }
  }

  /** One token in front of a text that ends it. */
  lemma SplitHead(a: Argument, rest: string)
    requires AllSpaces(a.lead) && IsToken(a.raw, a.value) && Ends(rest)
    ensures SplitArguments(a.lead + (a.raw + rest)) == WithFirst(a, SplitArguments(rest))
  {
    hide IsToken, FirstToken, SpaceRun, SplitArguments;
    var text := a.lead + (a.raw + rest);
    FirstTokenOf(a.raw, a.value, rest);
    SpaceRunOf(a.lead, a.raw + rest);
    assert text[|a.lead|..] == a.raw + rest && text[..|a.lead|] == a.lead;
    SplitStep(text);
  }

  /** What was rendered is split back into the same arguments. */
  lemma {:induction false} SplitRendered(arguments: seq<Argument>, trailing: string)
    requires Chain(arguments) && AllSpaces(trailing)
    ensures SplitArguments(RenderArguments(arguments) + trailing) == Some(Split(arguments, trailing))
  {
    if arguments == [] {
      SpaceRunOf(trailing, "");
      assert "" + trailing == trailing == trailing + "";
    } else {
      var a, rest := arguments[0], RenderArguments(arguments[1..]) + trailing;
      SplitRendered(arguments[1..], trailing);
      RenderedEnds(arguments[1..], trailing);
      Regroup(a.lead + a.raw, RenderArguments(arguments[1..]), trailing);
      Regroup(a.lead, a.raw, rest);
      SplitHead(a, rest);
      assert [a] + arguments[1..] == arguments;
    }
  }

  lemma {:induction false} SpaceRunSpaces(text: string)
    ensures AllSpaces(text[..SpaceRun(text)])
  {
    if text != "" && IsSpace(text[0]) {
      SpaceRunSpaces(text[1..]);
      var n := SpaceRun(text[1..]);
      assert text[..n + 1] == [text[0]] + text[1..][..n];
    }
  }

  lemma {:induction false} WordRunWords(text: string)
    ensures forall i :: 0 <= i < WordRun(text) ==> WordByte(text[i])
  {
    if text != "" && WordByte(text[0]) {
      WordRunWords(text[1..]);
      forall i | 0 <= i < WordRun(text) ensures WordByte(text[i]) {
        assert i > 0 ==> text[i] == text[1..][i - 1];
      }
    }
  }

  lemma ParsedToken(text: string)
    requires text != "" && !IsSpace(text[0]) && FirstToken(text).Some?
    ensures var t := FirstToken(text).value; IsToken(t.raw, t.value)
  {
    var t := FirstToken(text).value;
    if text[0] == '"' {
      var closing := IndexOf(text[1..], '"');
      assert t.value == text[1..][..closing];
      assert t.raw == "\"" + t.value + "\"";
    } else {
      WordRunWords(text);
    }
  }

  /** What the splitter returns is always such a chain. */
  lemma {:induction false} ParsedChain(input: string)
    requires SplitArguments(input).Some?
    ensures var split := SplitArguments(input).value;
            && Chain(split.arguments) && AllSpaces(split.trailing)
            && (input != "" && !IsSpace(input[0]) && split.arguments != [] ==> split.arguments[0].lead == "")
            && (split.arguments != [] && IsSpace(input[0]) ==> split.arguments[0].lead != "")
    decreases |input|
  {
    SplitStep(input);
    SpaceRunSpaces(input);
    if SpaceRun(input) == |input| {
      assert input[..SpaceRun(input)] == input;
    } else {
      var rest := input[SpaceRun(input)..];
      var token := FirstToken(rest).value;
      ParsedToken(rest);
      ParsedChain(token.rest);
      assert SplitArguments("") == Some(Split([], ""));
    }
  }

  lemma {:induction false} RenderedWithout(arguments: seq<Argument>, c: char)
    requires c !in RenderArguments(arguments)
    ensures forall i :: 0 <= i < |arguments| ==> c !in arguments[i].lead && c !in arguments[i].raw
  {
    if arguments != [] {
      RenderedWithout(arguments[1..], c);
      forall i | 0 <= i < |arguments| ensures c !in arguments[i].lead && c !in arguments[i].raw {
        if i > 0 { assert arguments[i] == arguments[1..][i - 1]; }
      }
    }
  }

  // ---- lines ----

  predicate IsSeparator(separator: string) { separator != "" && SeparatorRun(separator) == |separator| }

  predicate IsKeyword(keyword: string) {
    keyword != "" && keyword[0] != '#' && forall i :: 0 <= i < |keyword| ==> KeywordByte(keyword[i])
  }

  lemma {:induction false} KeywordRunOf(keyword: string, rest: string)
    requires forall i :: 0 <= i < |keyword| ==> KeywordByte(keyword[i])
    requires rest == "" || !KeywordByte(rest[0])
    ensures KeywordRun(keyword + rest) == |keyword|
  {
    if keyword == "" {
      assert keyword + rest == rest;
    } else {
      assert (keyword + rest)[1..] == keyword[1..] + rest;
      KeywordRunOf(keyword[1..], rest);
    }
  }

  lemma {:induction false} AllSpacesRun(text: string)
    ensures (SpaceRun(text) == |text|) == AllSpaces(text)
    ensures AllSpaces(text[..SpaceRun(text)])
  {
    SpaceRunSpaces(text);
    assert text[..|text|] == text;
  }

  lemma SeparatorShape(separator: string)
    requires IsSeparator(separator)
    ensures AllSpaces(separator)
         || exists i :: 0 <= i < |separator| && separator[i] == '=' && AllSpaces(separator[..i]) && AllSpaces(separator[i + 1..])
    ensures !KeywordByte(separator[0])
  {
    var n := SpaceRun(separator);
    AllSpacesRun(separator);
    if n < |separator| {
      AllSpacesRun(separator[n + 1..]);
      assert separator[n] == '=' && AllSpaces(separator[..n]) && AllSpaces(separator[n + 1..]);
    }
  }

  lemma SpacesThenSpaces(front: string, back: string)
    requires AllSpaces(front) && AllSpaces(back)
    ensures AllSpaces(front + back)
  {}

  lemma SeparatorOfBlanks(blanks: string, rest: string)
    requires AllSpaces(blanks) && (rest == "" || (!IsSpace(rest[0]) && rest[0] != '='))
    ensures SeparatorRun(blanks + rest) == |blanks|
  {
    SpaceRunOf(blanks, rest);
  }

  lemma SeparatorOfEquals(left: string, right: string, rest: string)
    requires AllSpaces(left) && AllSpaces(right) && (rest == "" || !IsSpace(rest[0]))
    ensures SeparatorRun(left + ("=" + (right + rest))) == |left| + 1 + |right|
  {
    hide SpaceRun, AllSpaces;
    var whole := left + ("=" + (right + rest));
    SpaceRunOf(left, "=" + (right + rest));
    assert whole[|left| + 1..] == right + rest;
    SpaceRunOf(right, rest);
  }

  /** The separator takes the blanks that open the body, and nothing else. */
  lemma SeparatorRunOf(separator: string, body: string)
    requires IsSeparator(separator)
    requires SpaceRun(body) < |body| && body[SpaceRun(body)] == '=' ==> '=' in separator
    ensures SeparatorRun(separator + body) == |separator| + SpaceRun(body)
  {
    hide SpaceRun, SeparatorRun, AllSpaces, IsSeparator;
    var n := SpaceRun(body);
    var blanks, rest := body[..n], body[n..];
    assert blanks + rest == body;
    SeparatorShape(separator);
    AllSpacesRun(body);
    if AllSpaces(separator) {
      NoEqualsInBlanks(separator);
      SeparatorBlankThen(separator, blanks, rest);
    } else {
      var i :| 0 <= i < |separator| && separator[i] == '=' && AllSpaces(separator[..i]) && AllSpaces(separator[i + 1..]);
      SeparatorEqualsThen(separator, i, blanks, rest);
    }
  }

  lemma SeparatorBlankThen(separator: string, blanks: string, rest: string)
    requires AllSpaces(separator) && AllSpaces(blanks) && (rest == "" || (!IsSpace(rest[0]) && rest[0] != '='))
    ensures SeparatorRun(separator + (blanks + rest)) == |separator| + |blanks|
  {
    hide SeparatorRun;
    Regroup(separator, blanks, rest);
    SpacesThenSpaces(separator, blanks);
    SeparatorOfBlanks(separator + blanks, rest);
  }

  lemma SeparatorEqualsThen(separator: string, i: nat, blanks: string, rest: string)
    requires i < |separator| && separator[i] == '=' && AllSpaces(separator[..i]) && AllSpaces(separator[i + 1..])
    requires AllSpaces(blanks) && (rest == "" || !IsSpace(rest[0]))
    ensures SeparatorRun(separator + (blanks + rest)) == |separator| + |blanks|
  {
    hide SeparatorRun, AllSpaces;
    var left, right := separator[..i], separator[i + 1..];
    AroundEquals(left, right, blanks, rest);
    assert separator == left + "=" + right;
    SpacesThenSpaces(right, blanks);
    SeparatorOfEquals(left, right + blanks, rest);
  }

  lemma AroundEquals(left: string, right: string, blanks: string, rest: string)
    ensures left + "=" + right + (blanks + rest) == left + ("=" + (right + blanks + rest))
  {}

  lemma Cut(front: string, back: string, n: nat)
    requires n <= |back|
    ensures (front + back)[..|front| + n] == front + back[..n]
    ensures (front + back)[|front| + n..] == back[n..]
  {}

  lemma NoEqualsInBlanks(text: string)
    requires AllSpaces(text)
    ensures '=' !in text
  {}

  lemma ParseLineOf(indent: string, keyword: string, after: string, ending: string)
    requires AllSpaces(indent) && IsKeyword(keyword) && (after == "" || !KeywordByte(after[0]))
    ensures var content := indent + keyword + after;
            ParseLine(content, ending) == ParseAfterKeyword(content, indent, keyword, after, ending)
  {
    hide ParseAfterKeyword, SpaceRun, KeywordRun;
    var content := indent + keyword + after;
    Regroup(indent, keyword, after);
    SpaceRunOf(indent, keyword + after);
    assert content[|indent|..] == keyword + after && content[..|indent|] == indent;
    KeywordRunOf(keyword, after);
    assert (keyword + after)[|keyword|..] == after && (keyword + after)[..|keyword|] == keyword;
  }

  /** A directive line as the parser reads it, whatever its body is. */
  lemma ReadLine(indent: string, keyword: string, separator: string, body: string, ending: string)
    requires AllSpaces(indent) && IsKeyword(keyword) && IsSeparator(separator)
    requires SpaceRun(body) < |body| && body[SpaceRun(body)] == '=' ==> '=' in separator
    ensures var n := SpaceRun(body);
            var content := indent + keyword + separator + body;
            var split := SplitArguments(body[n..]);
            ParseLine(content, ending) ==
              if split.None? then TextLine(Unstructured, content, ending)
              else DirectiveLine(indent, keyword, separator + body[..n], split.value.arguments, split.value.trailing, ending)
  {
    hide *;
    var after := separator + body;
    SeparatorShape(separator);
    FirstOf(separator, body);
    Regroup(indent + keyword, separator, body);
    ParseLineOf(indent, keyword, after, ending);
    SeparatorRunOf(separator, body);
    AfterKeyword(indent + keyword + after, indent, keyword, separator, body, SpaceRun(body), ending);
  }

  lemma FirstOf(front: string, back: string)
    requires IsSeparator(front)
    ensures front != "" && (front + back)[0] == front[0]
  {}

  lemma AfterKeyword(content: string, indent: string, keyword: string, separator: string, body: string, n: nat, ending: string)
    requires n <= |body| && SeparatorRun(separator + body) == |separator| + n
    ensures var split := SplitArguments(body[n..]);
            ParseAfterKeyword(content, indent, keyword, separator + body, ending) ==
              if split.None? then TextLine(Unstructured, content, ending)
              else DirectiveLine(indent, keyword, separator + body[..n], split.value.arguments, split.value.trailing, ending)
  {
    hide SplitArguments, SeparatorRun;
    Cut(separator, body, n);
  }

  /** The arguments once the separator has taken the blanks before the first. */
  function Unled(arguments: seq<Argument>): seq<Argument> {
    if arguments == [] then [] else [arguments[0].(lead := "")] + arguments[1..]
  }

  lemma UnledValues(arguments: seq<Argument>)
    ensures ArgumentValues(Unled(arguments)) == ArgumentValues(arguments)
  {}

  /** The body of a rendered line, cut where its first token starts. */
  lemma BodyCut(arguments: seq<Argument>, trailing: string)
    requires Chain(arguments) && AllSpaces(trailing)
    ensures var body := RenderArguments(arguments) + trailing;
            var n := SpaceRun(body);
            && body[n..] == RenderArguments(Unled(arguments)) + (if arguments == [] then "" else trailing)
            && (n < |body| ==> arguments != [] && body[n] == arguments[0].raw[0])
  {
    var body := RenderArguments(arguments) + trailing;
    if arguments == [] {
      SpaceRunOf(trailing, "");
      assert trailing + "" == trailing == body;
    } else {
      var a := arguments[0];
      var rest := RenderArguments(arguments[1..]) + trailing;
      FirstTokenOf(a.raw, a.value, "");
      Regroup(a.lead + a.raw, RenderArguments(arguments[1..]), trailing);
      Regroup(a.lead, a.raw, rest);
      SpaceRunOf(a.lead, a.raw + rest);
      assert body[|a.lead|..] == a.raw + rest;
      assert Unled(arguments)[1..] == arguments[1..];
      assert "" + a.raw == a.raw;
      Regroup(a.raw, RenderArguments(arguments[1..]), trailing);
    }
  }

  /** A rendered line reads back, unless its first token is taken by the separator. */
  lemma ReadBack(indent: string, keyword: string, separator: string, arguments: seq<Argument>, trailing: string, ending: string)
    requires AllSpaces(indent) && IsKeyword(keyword) && IsSeparator(separator) && Chain(arguments) && AllSpaces(trailing)
    requires arguments != [] && arguments[0].raw != "" && arguments[0].raw[0] == '=' ==> '=' in separator
    ensures var line := ParseLine(indent + keyword + separator + (RenderArguments(arguments) + trailing), ending);
            && line.kind == Directive && line.keyword == keyword && line.indent == indent
            && line.Values() == ArgumentValues(arguments)
            && line.arguments == Unled(arguments)
  {
    hide SplitArguments, SpaceRun, RenderArguments, ArgumentValues;
    var body := RenderArguments(arguments) + trailing;
    BodyCut(arguments, trailing);
    ReadLine(indent, keyword, separator, body, ending);
    SplitRendered(Unled(arguments), if arguments == [] then "" else trailing);
    UnledValues(arguments);
  }

  /** And when the separator has nothing more to take, it reads back as the same line. */
  lemma ReadBackSame(indent: string, keyword: string, separator: string, arguments: seq<Argument>, trailing: string, ending: string)
    requires AllSpaces(indent) && IsKeyword(keyword) && IsSeparator(separator) && Chain(arguments) && AllSpaces(trailing)
    requires arguments != [] && arguments[0].lead == "" && arguments[0].raw != "" && (arguments[0].raw[0] == '=' ==> '=' in separator)
    ensures ParseLine(indent + keyword + separator + (RenderArguments(arguments) + trailing), ending)
         == DirectiveLine(indent, keyword, separator, arguments, trailing, ending)
  {
    hide SplitArguments, ParseLine, IsToken;
    var body := RenderArguments(arguments) + trailing;
    FirstTokenOf(arguments[0].raw, arguments[0].value, "");
    assert body[0] == arguments[0].raw[0];
    assert SpaceRun(body) == 0 && body[0..] == body && separator + body[..0] == separator;
    ReadLine(indent, keyword, separator, body, ending);
    SplitRendered(arguments, trailing);
  }

  // ---- files ----

  /** A line written alone on its line, so that the next one starts afresh. */
  predicate Writable(line: Line) {
    '\n' !in line.Content() && line.ending in {"", "\n", "\r\n"} && line.Render() != ""
  }

  predicate WritableFile(lines: seq<Line>) {
    forall i :: 0 <= i < |lines| ==> Writable(lines[i]) && (i + 1 < |lines| ==> lines[i].ending != "")
  }

  /** The line as the parser reads it: a carriage return before the newline joins the ending. */
  function Reread(line: Line): Line {
    if line.ending == "\n" && HasSuffix(line.Content(), "\r")
    then ParseLine(line.Content()[..|line.Content()| - 1], "\r\n")
    else ParseLine(line.Content(), line.ending)
  }

  lemma SplitRenderedLine(line: Line, rest: string)
    requires Writable(line) && (line.ending == "" ==> rest == "")
    ensures var first := SplitLine(line.Render() + rest);
            ParseLine(first.content, first.ending) == Reread(line) && first.rest == rest
  {
    hide ParseLine, Line.Content;
    var content := line.Content();
    var text := line.Render() + rest;
    if line.ending == "" {
      assert text == content;
    } else if line.ending == "\n" {
      assert text == content + ['\n'] + rest;
      IndexOfFirst(content, '\n', rest);
      assert HasSuffix(content, "\r") ==> text[..|content| - 1] == content[..|content| - 1];
      assert text[..|content|] == content && text[|content| + 1..] == rest;
    } else {
      var before := content + "\r";
      assert line.Render() == before + ['\n'] && HasSuffix(before, "\r") && '\n' !in before;
      assert text == before + ['\n'] + rest;
      IndexOfFirst(before, '\n', rest);
      assert text[..|before|] == before && text[|before| + 1..] == rest && text[..|before| - 1] == content;
    }
  }

  /** Reading back a whole file works line by line. */
  lemma {:induction false} ParseRendered(lines: seq<Line>)
    requires WritableFile(lines)
    ensures |Parse(RenderLines(lines))| == |lines|
    ensures forall i :: 0 <= i < |lines| ==> Parse(RenderLines(lines))[i] == Reread(lines[i])
  {
    hide SplitLine, ParseLine, Reread;
    if lines != [] {
      var rest := RenderLines(lines[1..]);
      assert Writable(lines[0]);
      assert WritableFile(lines[1..]) by {
        forall i | 0 <= i < |lines| - 1 ensures lines[1..][i] == lines[i + 1] {}
      }
      ParseRendered(lines[1..]);
      SplitRenderedLine(lines[0], rest);
    }
  }

  // ---- how any line is read ----

  /** The text is tokens with blanks between them, and perhaps around them. */
  ghost predicate IsSplit(input: string, arguments: seq<Argument>, trailing: string) {
    Chain(arguments) && AllSpaces(trailing) && RenderArguments(arguments) + trailing == input
  }

  /** A text splits into arguments exactly when it is tokens with blanks between them, and in one way only. */
  lemma SplitsIff(input: string)
    ensures SplitArguments(input).Some? <==> exists arguments, trailing :: IsSplit(input, arguments, trailing)
    ensures forall arguments, trailing :: IsSplit(input, arguments, trailing) ==> SplitArguments(input) == Some(Split(arguments, trailing))
  {
    hide SplitArguments, Chain, RenderArguments;
    if SplitArguments(input).Some? {
      ParsedChain(input);
      RenderSplit(input);
      assert IsSplit(input, SplitArguments(input).value.arguments, SplitArguments(input).value.trailing);
    }
    forall arguments, trailing | IsSplit(input, arguments, trailing) ensures SplitArguments(input) == Some(Split(arguments, trailing)) {
      SplitRendered(arguments, trailing);
    }
  }

  /** Blanks, then perhaps a '=' and blanks. */
  predicate SeparatorBytes(text: string) {
    exists n :: 0 <= n <= |text| && AllSpaces(text[..n]) && (n == |text| || (text[n] == '=' && AllSpaces(text[n + 1..])))
  }

  /** Where the parts of a line are: blanks up to i, the keyword up to k, the separator up to s, and each
      goes on as far as it can. */
  ghost predicate PartsAt(content: string, i: int, k: int, s: int) {
    && 0 <= i < |content| && AllSpaces(content[..i]) && content[i] != ' ' && content[i] != '\t'
    && i <= k <= s <= |content|
    && (forall m :: i <= m < k ==> content[m] !in {' ', '\t', '=', '"'})
    && (k < |content| ==> content[k] in {' ', '\t', '=', '"'})
    && SeparatorBytes(content[k..s])
    && (s < |content| ==> content[s] != ' ' && content[s] != '\t' && (content[s] == '=' ==> '=' in content[k..s]))
  }

  lemma {:induction false} RunIs(text: string, n: nat)
    requires n <= |text| && AllSpaces(text[..n]) && (n < |text| ==> !IsSpace(text[n]))
    ensures SpaceRun(text) == n
  {
    SpaceRunOf(text[..n], text[n..]);
    assert text[..n] + text[n..] == text;
  }

  lemma SeparatorIs(text: string, s: nat)
    requires s <= |text| && SeparatorBytes(text[..s])
    requires s < |text| ==> text[s] != ' ' && text[s] != '\t' && (text[s] == '=' ==> '=' in text[..s])
    ensures SeparatorRun(text) == s
  {
    hide SpaceRun;
    var head := text[..s];
    var n :| 0 <= n <= s && AllSpaces(head[..n]) && (n == s || (head[n] == '=' && AllSpaces(head[n + 1..])));
    assert text[..n] == head[..n];
    if n == s {
      assert '=' !in head by { assert head[..n] == head; }
      RunIs(text, n);
    } else {
      RunIs(text, n);
      var right := text[n + 1..];
      assert right[..s - n - 1] == head[n + 1..];
      RunIs(right, s - n - 1);
    }
  }

  lemma KeywordIs(body: string, k: nat)
    requires k <= |body| && (forall m :: 0 <= m < k ==> body[m] !in {' ', '\t', '=', '"'}) && (k < |body| ==> body[k] in {' ', '\t', '=', '"'})
    ensures KeywordRun(body) == k
  {
    forall m | 0 <= m < k ensures KeywordByte(body[..k][m]) { assert body[..k][m] == body[m]; }
    KeywordRunOf(body[..k], body[k..]);
    assert body[..k] + body[k..] == body;
  }

  /** A line of blanks is blank; any other is a comment when its first byte is '#', a directive with these
      parts when it has a keyword and what follows splits into arguments, and otherwise no structure is read into it. */
  lemma LineReads(content: string, ending: string, i: int, k: int, s: int)
    ensures AllSpaces(content) ==> ParseLine(content, ending) == TextLine(Blank, content, ending)
    ensures PartsAt(content, i, k, s) ==>
              ParseLine(content, ending) ==
                if content[i] == '#' then TextLine(Comment, content, ending)
                else if k == i || SplitArguments(content[s..]).None? then TextLine(Unstructured, content, ending)
                else DirectiveLine(content[..i], content[i..k], content[k..s], SplitArguments(content[s..]).value.arguments,
                                   SplitArguments(content[s..]).value.trailing, ending)
  {
    hide SpaceRun, KeywordRun, SeparatorRun, SplitArguments;
    if AllSpaces(content) { AllSpacesRun(content); }
    if PartsAt(content, i, k, s) {
      RunIs(content, i);
      var body := content[i..];
      KeywordIs(body, k - i);
      var after := body[k - i..];
      assert after == content[k..] && after[..s - k] == content[k..s] && after[s - k..] == content[s..];
      SeparatorIs(after, s - k);
      assert body[..k - i] == content[i..k];
    }
  }
}
