/**
 Which rewritten lines read back as asked: exactly those that survive the two failures.
 */
module Surviving {
  import opened Results
  import opened Text
  import opened Syntax
  import opened Reparse
  import opened Rewriting

  // ---- the values the failures leave differ from those asked for ----

  lemma TakenFirst(arguments: seq<Argument>)
    requires arguments != [] && BareEquals(arguments[0])
    ensures var r := arguments[0].raw[1..];
            if r == "" then ArgumentValues(Taken(arguments)) == ArgumentValues(arguments[1..])
            else ArgumentValues(Taken(arguments)) == [] || ArgumentValues(Taken(arguments))[0] == r
  {}

  lemma JoinedDiffers(written: seq<Argument>, comment: seq<Argument>)
    requires written != [] && comment != [] && NoComment(Joined(written, comment)[..|written|])
    requires comment[0].raw != "" && written[|written| - 1].raw == written[|written| - 1].value
    ensures ArgumentValues(Joined(written, comment)) != ValuesOf(written)
  {
    hide ArgumentValues;
    var n := |written| - 1;

    var values := ArgumentValues(Joined(written, comment));
    assert values[n] == written[n].value + comment[0].raw;
    assert |values[n]| > |ValuesOf(written)[n]|;
  }

  lemma {:induction false} Rotation(v: string)
    requires v != "" && v[0] == '='
    ensures v[1..] + "#" != v
  {
    if v[1..] + "#" == v && |v| > 1 {
      assert v[1] == (v[1..] + "#")[0 + 1] || |v| == 2;
      assert v[0] == (v[1..] + "#")[0] == v[1];
      assert v[1..] == (v[1..] + "#")[1..] == v[1..][1..] + "#";
      Rotation(v[1..]);
    }
  }

  lemma RotationLonger(v: string, c: string)
    requires v != "" && v[0] == '=' && c != "" && c[0] == '#'
    ensures v[1..] + c != v
  {
    if |c| == 1 { assert c == "#"; Rotation(v); }
  }

  /** Equal neighbours all the way. */
  lemma {:induction false} Shifted(values: seq<string>, n: nat)
    requires n < |values| && forall i :: 0 <= i < n ==> values[i + 1] == values[i]
    ensures values[n] == values[0]
  {
    if n > 0 { Shifted(values, n - 1); }
  }

  lemma ShiftDiffers(values: seq<string>, joined: string, tail: seq<string>)
    requires |values| > 1 && |values[0]| == 1 && |joined| > 1
    ensures values[1..|values| - 1] + [joined] + tail != values
  {
    var n := |values| - 1;
    var left := values[1..n] + [joined] + tail;
    if left == values {
      forall i | 0 <= i < n - 1 ensures values[i + 1] == values[i] {
        assert left[i] == values[1..n][i];
      }
      assert left[n - 1] == joined;
      Shifted(values, n - 1);
    }
  }

  lemma JoinedTakenDiffers(written: seq<Argument>, comment: seq<Argument>)
    requires written != [] && comment != [] && BareEquals(written[0]) && BareEquals(Joined(written, comment)[0])
    requires NoComment(Joined(written, comment)[..|written|]) && StartsComment(comment[0].raw)
    requires written[|written| - 1].raw == written[|written| - 1].value && written[|written| - 1].raw != ""
    ensures ArgumentValues(Taken(Joined(written, comment))) != ValuesOf(written)
  {
    hide ArgumentValues, Taken, NoComment;
    var n, head, values := |written| - 1, Joined(written, comment)[0].raw, ValuesOf(written);
    TakenFirst(Joined(written, comment));
    assert head == if n == 0 then written[0].raw + comment[0].raw else written[0].raw;
    if n == 0 {
      RotationLonger(written[0].raw, comment[0].raw);
      assert head[1..] == written[0].raw[1..] + comment[0].raw;
    } else if head[1..] == "" {
      ShiftDiffers(values, written[n].value + comment[0].raw, ArgumentValues(comment[1..]));
    } else {
      assert values[0] == "=" + head[1..];
    }
  }

  // ---- unreadable lines ----

  lemma SplitStripped(body: string)
    ensures SplitArguments(body[SpaceRun(body)..]).None? <==> SplitArguments(body).None?
  {
    hide FirstToken;
    var rest := body[SpaceRun(body)..];
    SplitStep(body);
    SplitStep(rest);
    assert SpaceRun(rest) == 0 && rest[0..] == rest;
  }

  lemma ReadBroken(indent: string, keyword: string, separator: string, body: string, ending: string)
    requires AllSpaces(indent) && IsKeyword(keyword) && IsSeparator(separator) && SplitArguments(body).None?
    requires SpaceRun(body) < |body| && body[SpaceRun(body)] == '=' ==> '=' in separator
    ensures ParseLine(indent + keyword + separator + body, ending).kind == Unstructured
  {
    hide ParseLine, SplitArguments, SpaceRun;
    SplitStripped(body);
    ReadLine(indent, keyword, separator, body, ending);
  }

  lemma BrokenRest(front: seq<Argument>, last: Argument, comment: seq<Argument>, trailing: string)
    requires Chain(front) && AllSpaces(last.lead) && (front != [] ==> last.lead != "")
    requires last.raw == "\"" + last.value + "\"" && '"' !in last.value
    requires comment != [] && comment[0].lead == "" && StartsComment(comment[0].raw)
    ensures SplitArguments(RenderArguments(front + ([last] + comment)) + trailing) == None
  {
    hide SplitArguments;
    var after := RenderArguments(comment) + trailing;
    RenderAppend(front, [last] + comment);
    assert ([last] + comment)[1..] == comment;
    Regroup(RenderArguments(front), RenderArguments([last] + comment), trailing);
    Regroup(last.lead + last.raw, RenderArguments(comment), trailing);
    Regroup(last.lead, last.raw, after);
    assert after[0] == comment[0].raw[0];
    QuotedJoin(front, last.lead, last.value, after);
  }

  lemma FirstByte(arguments: seq<Argument>, trailing: string)
    requires arguments != [] && arguments[0].lead == "" && arguments[0].raw != "" && !IsSpace(arguments[0].raw[0])
    ensures var body := RenderArguments(arguments) + trailing; body != "" && body[0] == arguments[0].raw[0] && SpaceRun(body) == 0
  {}

  // ---- the line, whatever its parts ----

  /** A written line: values, then what is left of a comment. */
  datatype Parts = Parts(indent: string, keyword: string, separator: string, written: seq<Argument>,
                         comment: seq<Argument>, trailing: string)
  {
    predicate Valid() {
      && AllSpaces(indent) && IsKeyword(keyword) && IsSeparator(separator) && AllSpaces(trailing)
      && Chain(written) && NoComment(written) && (written != [] ==> written[0].lead == "")
      && Chain(comment) && (comment != [] ==> StartsComment(comment[0].raw))
    }

    function Content(): string {
      indent + keyword + separator + (RenderArguments(written + comment) + trailing)
    }

    predicate Joins() { written != [] && comment != [] && comment[0].lead == "" }

    predicate Swallows() { written != [] && written[0].raw != "" && written[0].raw[0] == '=' && '=' !in separator }

    predicate Reads(ending: string) { Says(ParseLine(Content(), ending), keyword, ValuesOf(written)) }
  }

  lemma EqualsIsBare(a: Argument)
    requires IsToken(a.raw, a.value) && a.raw != "" && a.raw[0] == '='
    ensures BareEquals(a)
  {}

  lemma ReadsApart(p: Parts, ending: string)
    requires p.Valid() && !p.Joins()
    ensures p.Reads(ending) <==> !p.Swallows()
  {
    hide ParseLine, ArgumentValues, RenderArguments, IsToken, IsSeparator, IsKeyword, AllSpaces;
    var arguments := p.written + p.comment;
    FrontValues(p.written, p.comment);
    if p.Swallows() {
      EqualsIsBare(p.written[0]);
      ReadTaken(p.indent, p.keyword, p.separator, arguments, p.trailing, ending);
    } else {
      ReadBack(p.indent, p.keyword, p.separator, arguments, p.trailing, ending);
    }
  }

  lemma NeverReadsJoinedBare(p: Parts, ending: string)
    requires p.Valid() && p.Joins() && p.written[|p.written| - 1].raw == p.written[|p.written| - 1].value
    ensures !p.Reads(ending)
  {
    hide ParseLine, ArgumentValues, RenderArguments, IsSeparator, IsKeyword, AllSpaces, Taken, ValuesOf, Joined;
    var joined := Joined(p.written, p.comment);
    JoinedRenders(p.written, p.comment);
    JoinedChain(p.written, p.comment);
    JoinedHead(p.written, p.comment);
    if p.Swallows() {
      EqualsIsBare(p.written[0]);
      EqualsIsBare(joined[0]);
      ReadTaken(p.indent, p.keyword, p.separator, joined, p.trailing, ending);
      JoinedTakenDiffers(p.written, p.comment);
    } else {
      ReadBack(p.indent, p.keyword, p.separator, joined, p.trailing, ending);
      JoinedDiffers(p.written, p.comment);
    }
  }

  lemma JoinedHead(written: seq<Argument>, comment: seq<Argument>)
    requires written != [] && comment != [] && Chain(written)
    ensures Joined(written, comment) != [] && Joined(written, comment)[0].lead == written[0].lead
    ensures forall i :: 0 <= i < |written| ==> written[i].raw != ""
  {
    forall i | 0 <= i < |written| ensures written[i].raw != "" {
      FirstTokenOf(written[i].raw, written[i].value, "");
    }
  }

  lemma NeverReadsJoinedQuoted(p: Parts, ending: string)
    requires p.Valid() && p.Joins() && p.written[|p.written| - 1].raw != p.written[|p.written| - 1].value
    ensures !p.Reads(ending)
  {
    hide ParseLine, SplitArguments, RenderArguments, SpaceRun, IsSeparator, IsKeyword, AllSpaces, Taken;
    var n, arguments := |p.written| - 1, p.written + p.comment;
    var front, last := p.written[..n], p.written[n];
    assert IsToken(last.raw, last.value);
    FirstTokenOf(p.written[0].raw, p.written[0].value, "");
    assert arguments == front + ([last] + p.comment);
    if p.Swallows() {
      EqualsIsBare(p.written[0]);
      TakenChain(front);
      TakenFront(front, [last] + p.comment);
      BrokenRest(Taken(front), last, p.comment, p.trailing);
      TakenRenders(arguments);
      var body := RenderArguments(Taken(arguments)) + p.trailing;
      BlanksThenEquals(p.separator);
      Regroup("=", RenderArguments(Taken(arguments)), p.trailing);
      Regroup(p.indent + p.keyword + p.separator, "=", body);
      Regroup(p.indent + p.keyword, p.separator, "=");
      ReadBroken(p.indent, p.keyword, p.separator + "=", body, ending);
    } else {
      FirstByte(arguments, p.trailing);
      BrokenRest(front, last, p.comment, p.trailing);
      ReadBroken(p.indent, p.keyword, p.separator, RenderArguments(arguments) + p.trailing, ending);
    }
  }

  lemma TakenFront(front: seq<Argument>, back: seq<Argument>)
    requires front != [] && BareEquals(front[0])
    ensures Taken(front + back) == Taken(front) + back
  {
    assert (front + back)[1..] == front[1..] + back;
  }

  /** The line reads back exactly when neither failure strikes. */
  lemma ReadsIff(p: Parts, ending: string)
    requires p.Valid()
    ensures p.Reads(ending) <==> !p.Joins() && !p.Swallows()
  {
    if !p.Joins() { ReadsApart(p, ending); }
    else if p.written[|p.written| - 1].raw == p.written[|p.written| - 1].value { NeverReadsJoinedBare(p, ending); }
    else { NeverReadsJoinedQuoted(p, ending); }
  }

  // ---- a rewritten line ----

  function RebuiltParts(line: Line, keyword: string, values: seq<string>): Parts
    requires AllQuotable(values)
  {
    Parts(line.indent, keyword, SeparatorOr(line.separator), Written(ValuePart(line.arguments), values),
          KeptComment(values, CommentPart(line.arguments)), line.trailing)
  }

  lemma KeptCommentChain(arguments: seq<Argument>, values: seq<string>)
    requires Chain(arguments) && (arguments != [] ==> arguments[0].lead == "")
    ensures var comment := KeptComment(values, CommentPart(arguments));
            && Chain(comment) && (comment != [] ==> StartsComment(comment[0].raw))
            && (comment != [] && comment[0].lead == "" ==> values != [] && StartsComment(arguments[0].raw))
            && (values != [] && arguments != [] && StartsComment(arguments[0].raw) ==> comment != [] && comment[0].lead == "")
  {}

  lemma BlankSeparates()
    ensures IsSeparator(" ")
  {
    SeparatorOfBlanks(" ", "");
    assert " " + "" == " ";
  }

  lemma RebuiltValid(line: Line, keyword: string, values: seq<string>)
    requires Shaped(line) && AllQuotable(values) && IsKeyword(keyword)
    ensures var p := RebuiltParts(line, keyword, values);
            && p.Valid() && ValuesOf(p.written) == values
            && Rebuilt(line, keyword, values).Content() == p.Content()
            && (p.Joins() <==> RunsIntoComment(line.arguments, values))
            && (p.Swallows() <==> TakenBySeparator(line.separator, values))
  {
    hide ArgumentValues, RenderArguments, AllSpaces, IsToken;
    var p := RebuiltParts(line, keyword, values);
    WrittenChain(ValuePart(line.arguments), values);
    KeptCommentChain(line.arguments, values);
    BlankSeparates();
    Regroup(p.indent + p.keyword + p.separator, RenderArguments(p.written + p.comment), p.trailing);
  }

  /** A rewritten directive reads back as asked if and only if it survives. */
  lemma RebuiltReadsIff(line: Line, keyword: string, values: seq<string>, ending: string)
    requires Shaped(line) && AllQuotable(values) && IsKeyword(keyword)
    ensures Says(ParseLine(Rebuilt(line, keyword, values).Content(), ending), keyword, values) <==> Survives(line, values)
  {
    hide ParseLine, Rebuilt;
    RebuiltValid(line, keyword, values);
    ReadsIff(RebuiltParts(line, keyword, values), ending);
  }

  // ---- a carriage return left at the end of the line joins its ending ----

  function Chopped(text: string): string
    requires text != ""
  {
    text[..|text| - 1]
  }

  /** The same line without the carriage return its last token ends in. */
  function ChopParts(p: Parts): Parts
    requires p.comment != []
  {
    var n := |p.comment| - 1;
    var last := p.comment[n];
    if |last.raw| < 2 then p.(comment := p.comment[..n], trailing := last.lead)
    else p.(comment := p.comment[n := Argument(last.lead, Chopped(last.raw), Chopped(last.raw))])
  }

  lemma ChopRendered(front: seq<Argument>, last: Argument)
    requires last.raw != ""
    ensures RenderArguments(front + [last]) != ""
    ensures Chopped(RenderArguments(front + [last])) == RenderArguments(front) + (last.lead + Chopped(last.raw))
    ensures RenderArguments(front + [last])[|RenderArguments(front + [last])| - 1] == last.raw[|last.raw| - 1]
  {
    RenderAppend(front, [last]);
    assert [last][1..] == [];
    assert last.lead + last.raw + "" == last.lead + last.raw;
  }

  lemma ChopContent(p: Parts)
    requires p.Valid() && p.comment != [] && p.trailing == "" && p.comment[|p.comment| - 1].raw != ""
    ensures p.Content() != "" && ChopParts(p).Content() == Chopped(p.Content())
    ensures p.Content()[|p.Content()| - 1] == p.comment[|p.comment| - 1].raw[|p.comment[|p.comment| - 1].raw| - 1]
  {
    hide RenderArguments, Chain;
    var n := |p.comment| - 1;
    var last, q := p.comment[n], ChopParts(p);
    var front := p.written + p.comment[..n];
    assert p.written + p.comment == front + [last];
    ChopRendered(front, last);
    if |last.raw| < 2 {
      assert last.lead + Chopped(last.raw) == last.lead;
    } else {
      assert q.written + q.comment == front + [q.comment[n]];
      OneRendered(front, q.comment[n]);
    }
  }

  lemma OneRendered(front: seq<Argument>, last: Argument)
    ensures RenderArguments(front + [last]) + "" == RenderArguments(front) + (last.lead + last.raw)
  {
    RenderAppend(front, [last]);
    assert [last][1..] == [];
  }

  lemma ChoppedToken(a: Argument)
    requires IsToken(a.raw, a.value) && HasSuffix(a.raw, "\r") && |a.raw| >= 2
    ensures IsToken(Chopped(a.raw), Chopped(a.raw)) && Chopped(a.raw)[0] == a.raw[0]
  {}

  lemma ChopChain(comment: seq<Argument>, last: Argument)
    requires comment != [] && Chain(comment) && IsToken(last.raw, last.value)
    requires last.lead == comment[|comment| - 1].lead
    ensures Chain(comment[..|comment| - 1]) && Chain(comment[|comment| - 1 := last])
  {
    hide IsToken, AllSpaces;
  }

  lemma ChopValid(p: Parts)
    requires p.Valid() && p.comment != [] && HasSuffix(p.comment[|p.comment| - 1].raw, "\r")
    ensures ChopParts(p).Valid() && (ChopParts(p).Joins() <==> p.Joins())
  {
    hide IsToken, AllSpaces, IsKeyword, IsSeparator, NoComment, Chain;
    var n := |p.comment| - 1;
    var last, q := p.comment[n], ChopParts(p);
    assert IsToken(last.raw, last.value) && AllSpaces(last.lead) by { ChainAt(p.comment, n); }
    if |last.raw| >= 2 {
      ChoppedToken(last);
      ChopChain(p.comment, q.comment[n]);
    } else {
      ChopChain(p.comment, last);
      assert n > 0;
    }
  }

  lemma ChainAt(arguments: seq<Argument>, i: nat)
    requires Chain(arguments) && i < |arguments|
    ensures IsToken(arguments[i].raw, arguments[i].value) && AllSpaces(arguments[i].lead)
  {}

  lemma LastByte(front: string, back: string)
    requires back != ""
    ensures HasSuffix(front + back, "\r") <==> HasSuffix(back, "\r")
  {
    var text := front + back;
    assert text[|text| - 1] == back[|back| - 1];
    assert HasSuffix(text, "\r") <==> text[|text| - 1] == '\r';
    assert HasSuffix(back, "\r") <==> back[|back| - 1] == '\r';
  }

  lemma NoReturn(text: string)
    requires text != ""
    ensures HasSuffix(text, "\r") ==> text[|text| - 1] == '\r'
  {
    assert text[|text| - 1..][0] == text[|text| - 1];
  }

  lemma BlanksEnd(text: string)
    requires AllSpaces(text) || IsSeparator(text)
    ensures !HasSuffix(text, "\r")
  {
    if text != "" { NoReturn(text); }
    if !AllSpaces(text) {
      SeparatorShape(text);
      var i :| 0 <= i < |text| && text[i] == '=' && AllSpaces(text[..i]) && AllSpaces(text[i + 1..]);
      assert i < |text| - 1 ==> text[|text| - 1] == text[i + 1..][|text| - i - 2];
    }
  }

  lemma SeparatorShown(separator: string)
    requires IsSeparator(separator)
    ensures separator != ""
  {}

  /** A line that ends in a carriage return ends in its comment. */
  lemma EndsInComment(p: Parts)
    requires p.Valid() && HasSuffix(p.Content(), "\r")
    requires forall i :: 0 <= i < |p.written| ==> !HasSuffix(p.written[i].raw, "\r")
    ensures p.comment != [] && p.trailing == "" && HasSuffix(p.comment[|p.comment| - 1].raw, "\r")
  {
    hide RenderArguments, IsKeyword, IsToken, HasSuffix, IsSeparator, AllSpaces;
    var front, arguments := p.indent + p.keyword, p.written + p.comment;
    BlanksEnd(p.trailing);
    BlanksEnd(p.separator);
    assert p.separator != "" by { SeparatorShown(p.separator); }
    var body := RenderArguments(arguments);
    Regroup(front + p.separator, body, p.trailing);
    if p.trailing != "" {
      LastByte(front + p.separator + body, p.trailing);
    } else if arguments == [] {
      NothingRendered();
      assert front + p.separator + ("" + "") == front + p.separator;
      LastByte(front, p.separator);
    } else {
      var n := |arguments| - 1;
      var last := arguments[n];
      assert arguments == arguments[..n] + [last];
      assert last.raw != "" by { FirstTokenOf(last.raw, last.value, ""); }
      OneRendered(arguments[..n], last);
      assert body + "" == body;
      Regroup(front + p.separator + RenderArguments(arguments[..n]), last.lead, last.raw);
      Regroup(front + p.separator, RenderArguments(arguments[..n]), last.lead + last.raw);
      LastByte(front + p.separator + RenderArguments(arguments[..n]) + last.lead, last.raw);
    }
  }

  lemma NothingRendered()
    ensures RenderArguments([]) == ""
  {}

  lemma WrittenEnds(existing: seq<Argument>, values: seq<string>)
    requires AllQuotable(values)
    ensures forall i :: 0 <= i < |values| ==> !HasSuffix(Written(existing, values)[i].raw, "\r")
  {
    forall i | 0 <= i < |values| ensures !HasSuffix(Written(existing, values)[i].raw, "\r") {
      var raw := Written(existing, values)[i].raw;
      if raw != "" { NoReturn(raw); }
    }
  }

  lemma RereadChopped(p: Parts)
    requires p.Valid() && HasSuffix(p.Content(), "\r")
    requires forall i :: 0 <= i < |p.written| ==> !HasSuffix(p.written[i].raw, "\r")
    ensures Says(ParseLine(Chopped(p.Content()), "\r\n"), p.keyword, ValuesOf(p.written)) <==> !p.Joins() && !p.Swallows()
  {
    hide ParseLine, Parts.Valid, Parts.Content, ValuesOf, Says, RenderArguments;
    EndsInComment(p);
    ChopValid(p);
    ChopContent(p);
    ReadsIff(ChopParts(p), "\r\n");
  }

  /** The theorem for a line of a file: whatever its ending. */
  lemma RebuiltRereadsIff(line: Line, keyword: string, values: seq<string>, ending: string)
    requires Shaped(line) && AllQuotable(values) && IsKeyword(keyword)
    ensures Says(Reread(Rebuilt(line, keyword, values).(ending := ending)), keyword, values) <==> Survives(line, values)
  {
    hide ParseLine, Says, Survives, Shaped, Parts.Valid, Parts.Content, IsKeyword, HasSuffix, TakenBySeparator, RunsIntoComment, Parts.Joins, Parts.Swallows;
    var p := RebuiltParts(line, keyword, values);
    RebuiltReadsIff(line, keyword, values, ending);
    RebuiltValid(line, keyword, values);
    ContentWithEnding(Rebuilt(line, keyword, values), ending);
    if ending == "\n" && HasSuffix(p.Content(), "\r") {
      WrittenEnds(ValuePart(line.arguments), values);
      RereadChopped(p);
      assert Survives(line, values) <==> !p.Joins() && !p.Swallows() by { SurvivesIff(line, values); }
    }
  }

  lemma SurvivesIff(line: Line, values: seq<string>)
    ensures Survives(line, values) <==> !RunsIntoComment(line.arguments, values) && !TakenBySeparator(line.separator, values)
  {}

  lemma ContentWithEnding(line: Line, ending: string)
    ensures line.(ending := ending).Content() == line.Content()
  {}

  /** A new line reads back unless its first value opens with a bare '='. */
  lemma BuiltRereadsIff(indent: string, keyword: string, values: seq<string>, ending: string)
    requires AllSpaces(indent) && AllQuotable(values) && IsKeyword(keyword)
    ensures Says(Reread(Built(indent, keyword, values, ending)), keyword, values) <==> !TakenBySeparator(" ", values)
  {
    var blank := DirectiveLine(indent, keyword, " ", [], "", ending);
    BlankSeparates();
    RebuiltRereadsIff(blank, keyword, values, ending);
    assert Written([], values) + [] == Written([], values);
  }

  /** What the values of a new line are read as: a bare '=' in front goes to the separator, and
      what is left of the first value may be nothing, or a comment. */
  function AsRead(values: seq<string>): seq<string> {
    if !TakenBySeparator(" ", values) then values
    else
      var rest := values[0][1..];
      if rest == "" then values[1..] else if rest[0] == '#' then [] else [rest] + values[1..]
  }

  lemma TakenValues(values: seq<string>)
    requires AllQuotable(values) && TakenBySeparator(" ", values)
    ensures var written := Written([], values);
            && written != [] && BareEquals(written[0]) && written[0].lead == "" && IsToken(written[0].raw, written[0].value)
            && ArgumentValues(Taken(written)) == AsRead(values)
  {
    hide ArgumentValues;
    var written := Written([], values);
    WrittenChain([], values);
    assert written[0].raw == values[0];
    var rest := written[1..];
    assert ValuesOf(rest) == values[1..];
    FrontValues(rest, []);
    assert rest + [] == rest && ValuesOf(rest) + ArgumentValues([]) == ValuesOf(rest) by { NoArgumentValues(); }
    var r := values[0][1..];
    if r != "" {
      if r[0] == '#' { CommentFirst(Argument("", r, r), rest); } else { FirstValue(Argument("", r, r), rest); }
    }
  }

  lemma NoArgumentValues()
    ensures ArgumentValues([]) == []
  {}

  lemma CommentFirst(first: Argument, rest: seq<Argument>)
    requires StartsComment(first.raw)
    ensures ArgumentValues([first] + rest) == []
  {}

  lemma BuiltNoReturn(indent: string, keyword: string, values: seq<string>, ending: string)
    requires AllQuotable(values) && values != []
    ensures !HasSuffix(Built(indent, keyword, values, ending).Content(), "\r")
  {
    hide RenderArguments, AllQuotable, HasSuffix;
    var written := Written([], values);
    var n := |written| - 1;
    assert written == written[..n] + [written[n]];
    OneRendered(written[..n], written[n]);
    WrittenEnds([], values);
    WrittenChain([], values);
    FirstTokenOf(written[n].raw, written[n].value, "");
    var front := indent + keyword + " " + RenderArguments(written[..n]) + written[n].lead;
    LastByte(front, written[n].raw);
    Regroup(indent + keyword + " ", RenderArguments(written), "");
    Regroup(indent + keyword + " ", RenderArguments(written[..n]), written[n].lead + written[n].raw);
    Regroup(indent + keyword + " " + RenderArguments(written[..n]), written[n].lead, written[n].raw);
  }

  /** What a new line says once it has been written and read. */
  lemma BuiltReads(indent: string, keyword: string, values: seq<string>, ending: string)
    requires AllSpaces(indent) && AllQuotable(values) && IsKeyword(keyword)
    ensures Says(Reread(Built(indent, keyword, values, ending)), keyword, AsRead(values))
  {
    hide ParseLine, AllQuotable, IsKeyword, AllSpaces, Taken, ArgumentValues, RenderArguments, HasSuffix;
    BuiltRereadsIff(indent, keyword, values, ending);
    if TakenBySeparator(" ", values) {
      var written := Written([], values);
      TakenValues(values);
      WrittenChain([], values);
      BlankSeparates();
      BuiltNoReturn(indent, keyword, values, ending);
      ReadTaken(indent, keyword, " ", written, "", ending);
      Regroup(indent + keyword + " ", RenderArguments(written), "");
    }
  }

  lemma AsReadSame(values: seq<string>)
    ensures AsRead(values) == values <==> !TakenBySeparator(" ", values)
  {}

  /** A new line says, as built, what it was built from. */
  lemma BuiltSays(indent: string, keyword: string, values: seq<string>, ending: string)
    requires AllQuotable(values)
    ensures Says(Built(indent, keyword, values, ending), keyword, values)
  {
    hide AllQuotable, Written, ArgumentValues;
    WrittenChain([], values);
    FrontValues(Written([], values), []);
    assert Written([], values) + [] == Written([], values);
  }
}
