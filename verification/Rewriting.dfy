/** Rewriting one line and writing a new one. */
module Rewriting {
  // Rewriting the values of one line and writing a new one.  What is written reads back
  // as asked, except in two cases: a first value that opens with '=' is taken by a
  // separator without one, and values written before a comment that followed the keyword
  // directly run into it.  The theorem is that these are the only ones.

  import opened Results
  import opened Text
  import opened Syntax
  import opened Reparse

  predicate AllQuotable(values: seq<string>) {
    forall i :: 0 <= i < |values| ==> !Unquotable(values[i])
  }

  // ---- spelling, by the bytes ----

  /** A value that has a spelling. */
  predicate Spellable(value: string) { '\n' !in value && '\r' !in value && '\0' !in value && '"' !in value }

  lemma SpellableIff(value: string)
    ensures !Unquotable(value) <==> Spellable(value)
  {
    if !Spellable(value) {
      var c :| c in value && c in {'\n', '\r', '\0', '"'};
    }
  }

  lemma QuotableIff(values: seq<string>)
    ensures AllQuotable(values) <==> forall v :: v in values ==> Spellable(v)
  {
    hide Unquotable, Spellable;
    forall v ensures !Unquotable(v) <==> Spellable(v) { SpellableIff(v); }
    if AllQuotable(values) {
      forall v | v in values ensures Spellable(v) {
        var i :| 0 <= i < |values| && values[i] == v;
      }
    }
  }

  /** A value as it is written: in quotes when it is empty, holds a blank or opens with '#'. */
  function Spelling(value: string): string {
    if value == "" || ' ' in value || '\t' in value || value[0] == '#' then "\"" + value + "\"" else value
  }

  lemma QuotesIff(value: string)
    ensures NeedsQuotes(value) <==> value == "" || ' ' in value || '\t' in value || value[0] == '#'
  {
    if ' ' in value { var i :| 0 <= i < |value| && value[i] == ' '; assert IsSpace(value[i]); }
    if '\t' in value { var i :| 0 <= i < |value| && value[i] == '\t'; assert IsSpace(value[i]); }
  }

  // ---- what is written ----

  function LeadFor(existing: seq<Argument>, i: nat): string {
    if i < |existing| then existing[i].lead else if i == 0 then "" else " "
  }

  /** The values in quoting, spaced as the old ones were. */
  function Written(existing: seq<Argument>, values: seq<string>): (arguments: seq<Argument>)
    requires AllQuotable(values)
    ensures |arguments| == |values|
  {
    seq(|values|, i requires 0 <= i < |values| => RenderArgument(LeadFor(existing, i), values[i]).value)
  }

  function KeptComment(values: seq<string>, comment: seq<Argument>): seq<Argument> {
    if comment != [] && values == [] && comment[0].lead == "" then [comment[0].(lead := " ")] + comment[1..] else comment
  }

  function ValuePart(arguments: seq<Argument>): seq<Argument> { arguments[..|ArgumentValues(arguments)|] }
  function CommentPart(arguments: seq<Argument>): seq<Argument> { arguments[|ArgumentValues(arguments)|..] }

  function SeparatorOr(separator: string): string { if separator == "" then " " else separator }

  function Rebuilt(line: Line, keyword: string, values: seq<string>): Line
    requires AllQuotable(values)
  {
    line.(keyword := keyword, separator := SeparatorOr(line.separator),
          arguments := Written(ValuePart(line.arguments), values) + KeptComment(values, CommentPart(line.arguments)))
  }

  function Built(indent: string, keyword: string, values: seq<string>, ending: string): Line
    requires AllQuotable(values)
  {
    DirectiveLine(indent, keyword, " ", Written([], values), "", ending)
  }

  // ---- the loops ----

  method SplitCommentArguments(arguments: seq<Argument>) returns (values: seq<Argument>, comment: seq<Argument>)
    ensures values == ValuePart(arguments) && comment == CommentPart(arguments)
  {
    var n := |ArgumentValues(arguments)|;
    for index := 0 to |arguments|
      invariant index <= n
    {
      if StartsComment(arguments[index].raw) {
        return arguments[..index], arguments[index..];
      }
    }
    assert arguments[..|arguments|] == arguments;
    return arguments, [];
  }

  method WriteValues(existing: seq<Argument>, values: seq<string>) returns (arguments: seq<Argument>, ok: bool)
    ensures ok == AllQuotable(values)
    ensures ok ==> arguments == Written(existing, values)
  {
    arguments := [];
    for index := 0 to |values|
      invariant AllQuotable(values[..index])
      invariant arguments == Written(existing, values[..index])
    {
      var lead := " ";
      if index == 0 { lead := ""; }
      if index < |existing| { lead := existing[index].lead; }
      var argument := RenderArgument(lead, values[index]);
      if argument.None? { return [], false; }
      assert values[..index + 1] == values[..index] + [values[index]];
      arguments := arguments + [argument.value];
    }
    assert values[..|values|] == values;
    ok := true;
  }

  method RebuildLine(line: Line, keyword: string, values: seq<string>) returns (rebuilt: Line, ok: bool)
    ensures ok == AllQuotable(values)
    ensures ok ==> rebuilt == Rebuilt(line, keyword, values)
  {
    var existing, comment := SplitCommentArguments(line.arguments);
    rebuilt := line.(keyword := keyword);
    if rebuilt.separator == "" { rebuilt := rebuilt.(separator := " "); }
    var arguments;
    arguments, ok := WriteValues(existing, values);
    if !ok { return; }
    ghost var written := arguments;
    for index := 0 to |comment|
      invariant arguments == written + KeptComment(values, comment)[..index]
    {
      var copied := comment[index];
      if index == 0 && |arguments| == 0 && copied.lead == "" { copied := copied.(lead := " "); }
      arguments := arguments + [copied];
    }
    assert KeptComment(values, comment)[..|comment|] == KeptComment(values, comment);
    rebuilt := rebuilt.(arguments := arguments);
  }

  // ---- what a parsed directive looks like ----

  /** The parts of a directive as the parser leaves them. */
  predicate Shaped(line: Line) {
    && line.kind == Directive && AllSpaces(line.indent) && AllSpaces(line.trailing)
    && Chain(line.arguments) && (line.arguments != [] ==> line.arguments[0].lead == "")
    && (line.separator == "" || IsSeparator(line.separator))
  }

  lemma SeparatorTaken(after: string)
    ensures var s := SeparatorRun(after);
            && (s > 0 ==> IsSeparator(after[..s])) && (s < |after| ==> !IsSpace(after[s]))
  {
    hide SpaceRun;
    var n, s := SpaceRun(after), SeparatorRun(after);
    var taken := after[..s];
    AllSpacesRun(after);
    if s == n {
      SeparatorOfBlanks(taken, "");
      assert taken + "" == taken;
    } else {
      var right := after[n + 1..];
      AllSpacesRun(right);
      var m := SpaceRun(right);
      assert taken == after[..n] + ("=" + (right[..m] + ""));
      SeparatorOfEquals(after[..n], right[..m], "");
    }
  }

  lemma ParsedShaped(content: string, ending: string)
    requires ParseLine(content, ending).kind == Directive
    ensures Shaped(ParseLine(content, ending))
  {
    hide SplitArguments, SpaceRun, KeywordRun, SeparatorRun, Chain, IsSeparator;
    AllSpacesRun(content);
    var body := content[SpaceRun(content)..];
    var after := body[KeywordRun(body)..];
    SeparatorTaken(after);
    var input := after[SeparatorRun(after)..];
    assert SplitArguments("") == Some(Split([], "")) by { SplitStep(""); }
    assert input != "" ==> !IsSpace(input[0]);
    ParsedChain(input);
  }

  // ---- the two failures ----

  predicate TakenBySeparator(separator: string, values: seq<string>) {
    values != [] && values[0] != "" && values[0][0] == '=' && !NeedsQuotes(values[0]) && '=' !in SeparatorOr(separator)
  }

  predicate RunsIntoComment(arguments: seq<Argument>, values: seq<string>) {
    values != [] && arguments != [] && StartsComment(arguments[0].raw)
  }

  predicate Survives(line: Line, values: seq<string>) {
    !TakenBySeparator(line.separator, values) && !RunsIntoComment(line.arguments, values)
  }

  predicate Says(line: Line, keyword: string, values: seq<string>) {
    line.kind == Directive && line.keyword == keyword && line.Values() == values
  }

  // ---- values of argument lists ----

  function ValuesOf(arguments: seq<Argument>): seq<string> {
    seq(|arguments|, i requires 0 <= i < |arguments| => arguments[i].value)
  }

  predicate NoComment(arguments: seq<Argument>) {
    forall i :: 0 <= i < |arguments| ==> !StartsComment(arguments[i].raw)
  }

  lemma FirstValue(first: Argument, rest: seq<Argument>)
    requires !StartsComment(first.raw)
    ensures ArgumentValues([first] + rest) == [first.value] + ArgumentValues(rest)
    ensures ValuesOf([first] + rest) == [first.value] + ValuesOf(rest)
  {
    assert ([first] + rest)[1..] == rest;
  }

  lemma {:induction false} FrontValues(front: seq<Argument>, back: seq<Argument>)
    requires NoComment(front)
    ensures ArgumentValues(front + back) == ValuesOf(front) + ArgumentValues(back)
  {
    hide ArgumentValues, ValuesOf;
    if front == [] {
      assert front + back == back;
      assert ValuesOf(front) == [] by { NoValues(); }
    } else {
      var first, rest := front[0], front[1..];
      assert front == [first] + rest;
      Regroup([first], rest, back);
      FrontValues(rest, back);
      FirstValue(first, rest);
      FirstValue(first, rest + back);
      Regroup([first.value], ValuesOf(rest), ArgumentValues(back));
    }
  }

  lemma NoValues()
    ensures ValuesOf([]) == []
  {}

  lemma {:induction false} RenderAppend(front: seq<Argument>, back: seq<Argument>)
    ensures RenderArguments(front + back) == RenderArguments(front) + RenderArguments(back)
  {
    if front == [] {
      assert front + back == back;
    } else {
      assert (front + back)[1..] == front[1..] + back;
      RenderAppend(front[1..], back);
      Regroup(front[0].lead + front[0].raw, RenderArguments(front[1..]), RenderArguments(back));
    }
  }

  /** The written values are a chain that spells them. */
  lemma WrittenChain(existing: seq<Argument>, values: seq<string>)
    requires AllQuotable(values) && Chain(existing) && (existing != [] ==> existing[0].lead == "")
    ensures var written := Written(existing, values);
            && Chain(written) && NoComment(written) && ValuesOf(written) == values
            && (written != [] ==> written[0].lead == "")
  {
    var written := Written(existing, values);
    forall i | 0 <= i < |values|
      ensures var a := written[i];
              && AllSpaces(a.lead) && IsToken(a.raw, a.value) && (i > 0 ==> a.lead != "") && (i == 0 ==> a.lead == "")
              && !StartsComment(a.raw) && a.value == values[i]
    {}
  }

  // ---- first failure: the separator takes the '=' ----

  predicate BareEquals(a: Argument) { a.raw == a.value && a.raw != "" && a.raw[0] == '=' }

  /** What is left of the arguments once the separator has taken the leading '='. */
  function Taken(arguments: seq<Argument>): seq<Argument>
    requires arguments != [] && BareEquals(arguments[0])
  {
    var r := arguments[0].raw[1..];
    if r == "" then arguments[1..] else [Argument("", r, r)] + arguments[1..]
  }

  lemma ReadTaken(indent: string, keyword: string, separator: string, arguments: seq<Argument>, trailing: string, ending: string)
    requires AllSpaces(indent) && IsKeyword(keyword) && IsSeparator(separator) && Chain(arguments) && AllSpaces(trailing)
    requires arguments != [] && BareEquals(arguments[0]) && arguments[0].lead == "" && '=' !in separator
    requires IsToken(arguments[0].raw, arguments[0].value)
    ensures var line := ParseLine(indent + keyword + separator + (RenderArguments(arguments) + trailing), ending);
            line.kind == Directive && line.keyword == keyword && line.Values() == ArgumentValues(Taken(arguments))
  {
    hide ParseLine, SeparatorRun, ArgumentValues, Taken, Chain, IsToken, IsSeparator, AllSpaces, IsKeyword;
    var taken := Taken(arguments);
    TakenChain(arguments);
    BlanksThenEquals(separator);
    TakenRenders(arguments);
    Regroup("=", RenderArguments(taken), trailing);
    Regroup(indent + keyword + separator, "=", RenderArguments(taken) + trailing);
    Regroup(indent + keyword, separator, "=");
    ReadBack(indent, keyword, separator + "=", taken, trailing, ending);
  }

  lemma TakenRenders(arguments: seq<Argument>)
    requires arguments != [] && BareEquals(arguments[0]) && arguments[0].lead == ""
    ensures RenderArguments(arguments) == "=" + RenderArguments(Taken(arguments))
  {
    var r := arguments[0].raw[1..];
    assert arguments[0].lead + arguments[0].raw == "=" + r;
    Regroup("=", r, RenderArguments(arguments[1..]));
    if r == "" {
      assert "=" + r == "=";
    } else {
      assert Taken(arguments)[1..] == arguments[1..];
      assert "" + r == r;
    }
  }

  lemma TakenChain(arguments: seq<Argument>)
    requires Chain(arguments) && arguments != [] && BareEquals(arguments[0]) && IsToken(arguments[0].raw, arguments[0].value)
    ensures Chain(Taken(arguments))
  {
    var r := arguments[0].raw[1..];
    assert r != "" ==> IsToken(r, r);
  }

  lemma BlanksThenEquals(separator: string)
    requires IsSeparator(separator) && '=' !in separator
    ensures IsSeparator(separator + "=") && '=' in separator + "="
  {
    hide SeparatorRun;
    SeparatorShape(separator);
    SeparatorOfEquals(separator, "", "");
    assert separator + ("=" + ("" + "")) == separator + "=";
  }

  // ---- second failure: the last value runs into the comment ----

  /** The last value and the comment's first token as the one bare token they make. */
  function Joined(written: seq<Argument>, comment: seq<Argument>): seq<Argument>
    requires written != [] && comment != []
  {
    var last := written[|written| - 1];
    written[..|written| - 1] + [Argument(last.lead, last.raw + comment[0].raw, last.raw + comment[0].raw)] + comment[1..]
  }

  lemma JoinedRenders(written: seq<Argument>, comment: seq<Argument>)
    requires written != [] && comment != [] && comment[0].lead == ""
    ensures RenderArguments(Joined(written, comment)) == RenderArguments(written + comment)
  {
    hide RenderArguments;
    var n := |written| - 1;
    var last := written[n];
    var j := Argument(last.lead, last.raw + comment[0].raw, last.raw + comment[0].raw);
    RenderAppend(written[..n], [last] + ([comment[0]] + comment[1..]));
    assert written + comment == written[..n] + ([last] + ([comment[0]] + comment[1..]));
    RenderAppend(written[..n], [j] + comment[1..]);
    Regroup(written[..n], [j], comment[1..]);
    TwoThenJoined(last, comment[0], comment[1..]);
  }

  lemma TwoThenJoined(a: Argument, b: Argument, rest: seq<Argument>)
    requires b.lead == ""
    ensures RenderArguments([a] + ([b] + rest)) == RenderArguments([Argument(a.lead, a.raw + b.raw, a.raw + b.raw)] + rest)
  {
    assert ([a] + ([b] + rest))[1..] == [b] + rest;
    assert ([b] + rest)[1..] == rest;
    assert ([Argument(a.lead, a.raw + b.raw, a.raw + b.raw)] + rest)[1..] == rest;
    assert b.lead + b.raw == b.raw;
    Regroup(a.lead + a.raw, b.raw, RenderArguments(rest));
    Regroup(a.lead, a.raw, b.raw);
  }

  lemma JoinedChain(written: seq<Argument>, comment: seq<Argument>)
    requires Chain(written) && Chain(comment) && NoComment(written) && written != [] && comment != []
    requires StartsComment(comment[0].raw) && written[|written| - 1].raw == written[|written| - 1].value
    ensures Chain(Joined(written, comment)) && Joined(written, comment)[0].raw[0] == written[0].raw[0]
    ensures NoComment(Joined(written, comment)[..|written|])
  {
    var n := |written| - 1;
    var last, c := written[n], comment[0];

    var raw := last.raw + c.raw;
    assert IsToken(raw, raw);
    forall i | 0 <= i <= n ensures Joined(written, comment)[i].raw != "" && Joined(written, comment)[i].raw[0] == written[i].raw[0] {
      FirstTokenOf(written[i].raw, written[i].value, "");
    }
  }

  lemma QuotedAlone(lead: string, value: string, after: string)
    requires AllSpaces(lead) && '"' !in value && after != "" && !IsSpace(after[0])
    ensures SplitArguments(lead + ("\"" + value + "\"" + after)) == None
  {
    hide SpaceRun, SplitArguments;
    var rest := "\"" + value + "\"" + after;
    SpaceRunOf(lead, rest);
    assert (lead + rest)[|lead|..] == rest;
    assert rest[1..] == value + ['"'] + after;
    IndexOfFirst(value, '"', after);
    assert rest[|value| + 2..] == after;
    SplitStep(lead + rest);
  }

  /** A quoted last value against a comment is no token at all. */
  lemma {:induction false} QuotedJoin(front: seq<Argument>, lead: string, value: string, after: string)
    requires Chain(front) && AllSpaces(lead) && '"' !in value && after != "" && !IsSpace(after[0])
    requires front != [] ==> lead != ""
    ensures SplitArguments(RenderArguments(front) + (lead + ("\"" + value + "\"" + after))) == None
  {
    hide SplitArguments, IsToken, AllSpaces;
    var broken := lead + ("\"" + value + "\"" + after);
    if front == [] {
      assert RenderArguments(front) + broken == broken;
      QuotedAlone(lead, value, after);
    } else {
      var a, rest := front[0], RenderArguments(front[1..]) + broken;
      QuotedJoin(front[1..], lead, value, after);
      JoinEnds(front[1..], lead, "\"" + value + "\"" + after);
      Regroup(a.lead + a.raw, RenderArguments(front[1..]), broken);
      Regroup(a.lead, a.raw, rest);
      SplitHead(a, rest);
    }
  }

  lemma JoinEnds(front: seq<Argument>, lead: string, more: string)
    requires Chain(front) && AllSpaces(lead) && lead != "" && (front != [] ==> front[0].lead != "")
    ensures Ends(RenderArguments(front) + (lead + more))
  {
    var text := RenderArguments(front) + (lead + more);
    if front != [] { assert text[0] == front[0].lead[0]; } else { assert text[0] == lead[0]; }
  }
}
