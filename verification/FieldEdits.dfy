/** Editing the settings of a block, in terms of the lines. */
module FieldEdits {
  // When a list of edits is accepted and what it makes of the file, line by line: which
  // line goes where, what a set line and a new line look like, where the new lines stand,
  // and that there is nothing else.

  import opened Results
  import opened Text
  import opened Syntax
  import opened Blocks
  import opened Reparse
  import opened Rewriting
  import opened Edits
  import opened Appending
  import opened EditReads

  // ---- which edits are accepted ----

  predicate Opener(keyword: string) { EqualFold(keyword, "Host") || EqualFold(keyword, "Match") || EqualFold(keyword, "Include") }

  ghost predicate AllSpellable(values: seq<string>) { forall v :: v in values ==> Spellable(v) }

  /** Nothing is wrong with edit k: it is about a setting inside the block that no edit before it is about,
      and what it writes can be written. */
  ghost predicate Fits(lines: seq<Line>, block: Block, edits: seq<FieldEdit>, k: nat)
    requires k < |edits|
  {
    var edit := edits[k];
    match edit.action
    case OtherAction => false
    case Add => LegalKeyword(edit.keyword) && AllSpellable(edit.values)
    case _ =>
      && block.start < edit.line <= block.end && 0 < edit.line <= |lines|
      && lines[edit.line - 1].kind == Directive && !Opener(lines[edit.line - 1].keyword)
      && (forall j :: 0 <= j < k && (edits[j].action == Set || edits[j].action == Remove) ==> edits[j].line != edit.line)
      && (edit.action == Set ==>
            LegalKeyword(if edit.keyword == "" then lines[edit.line - 1].keyword else edit.keyword) && AllSpellable(edit.values))
  }

  lemma OpenerIff(keyword: string)
    ensures Structural(keyword) <==> Opener(keyword)
  {
    assert Lower("Host") == "host" && Lower("Match") == "match" && Lower("Include") == "include";
  }

  lemma TouchedIff(edits: seq<FieldEdit>, k: nat, line: int)
    requires k <= |edits|
    ensures line - 1 in Touched(edits[..k]) <==> exists j :: 0 <= j < k && (edits[j].action == Set || edits[j].action == Remove) && edits[j].line == line
  {
    if j :| 0 <= j < k && (edits[j].action == Set || edits[j].action == Remove) && edits[j].line == line {
      assert Targets(edits[..k][j]) && edits[..k][j].line - 1 == line - 1;
    }
  }

  lemma FitsIff(lines: seq<Line>, block: Block, edits: seq<FieldEdit>, k: nat)
    requires IsBlock(lines, block) && k < |edits|
    ensures Fits(lines, block, edits, k) <==>
              && Admitted(lines, block, edits, k) && SetError(lines, edits[k]) == None
              && (edits[k].action == Add ==> AllQuotable(edits[k].values))
  {
    hide LegalKeyword, KeywordError, Structural, Opener, AllQuotable, AllSpellable, Touched, NextHeader, IsHeader;
    var edit := edits[k];
    TouchedIff(edits, k, edit.line);
    KeywordIff(edit.keyword);
    assert AllQuotable(edit.values) <==> AllSpellable(edit.values) by { SpellIff(edit.values); }
    if 0 < edit.line <= |lines| {
      OpenerIff(lines[edit.line - 1].keyword);
      KeywordIff(lines[edit.line - 1].keyword);
    }
  }

  lemma SpellIff(values: seq<string>)
    ensures AllQuotable(values) <==> AllSpellable(values)
  {
    QuotableIff(values);
  }

  /** The edits are carried out exactly when nothing is wrong with any of them. */
  lemma AcceptedIff(lines: seq<Line>, block: Block, edits: seq<FieldEdit>)
    requires IsBlock(lines, block)
    ensures Acceptable(lines, block, edits) && Writes(lines, edits) <==> forall k :: 0 <= k < |edits| ==> Fits(lines, block, edits, k)
  {
    hide Admitted, SetError, AllQuotable, IsBlock, Fits;
    forall k | 0 <= k < |edits|
      ensures Fits(lines, block, edits, k) <==>
                && Admitted(lines, block, edits, k) && SetError(lines, edits[k]) == None
                && (edits[k].action == Add ==> AllQuotable(edits[k].values))
    {
      FitsIff(lines, block, edits, k);
    }
  }

  predicate IsTarget(edit: FieldEdit) { edit.action == Set || edit.action == Remove }

  /** The keyword an edit writes. */
  function WrittenKeyword(lines: seq<Line>, edit: FieldEdit): Option<string> {
    match edit.action
    case Add => Some(edit.keyword)
    case Set => if edit.keyword != "" then Some(edit.keyword) else if 0 < edit.line <= |lines| then Some(lines[edit.line - 1].keyword) else None
    case _ => None
  }

  /** The error is true of edit k. */
  ghost predicate Blamed(lines: seq<Line>, block: Block, edits: seq<FieldEdit>, k: nat, error: EditError)
    requires k < |edits|
  {
    var edit, keyword := edits[k], WrittenKeyword(lines, edits[k]);
    match error
    case OutsideBlock => IsTarget(edit) && !(block.start < edit.line <= block.end)
    case DuplicateLine => IsTarget(edit) && exists j :: 0 <= j < k && IsTarget(edits[j]) && edits[j].line == edit.line
    case NotDirective => IsTarget(edit) && 0 < edit.line <= |lines| && lines[edit.line - 1].kind != Directive
    case StructuralKeyword =>
      (IsTarget(edit) && 0 < edit.line <= |lines| && Opener(lines[edit.line - 1].keyword)) || (keyword.Some? && Opener(keyword.value))
    case EmptyKeyword => keyword == Some("")
    case InvalidKeyword => keyword.Some? && keyword.value != "" && !Opener(keyword.value) && !LegalKeyword(keyword.value)
    case UnknownAction => edit.action == OtherAction
    case UnquotableValue => (edit.action == Set || edit.action == Add) && !AllSpellable(edit.values)
  }

  lemma ProblemBlames(lines: seq<Line>, block: Block, edits: seq<FieldEdit>, k: nat, error: EditError)
    requires IsBlock(lines, block) && k < |edits|
    requires Problem(lines, block, Touched(edits[..k]), edits[k]) == Some(error)
    ensures Blamed(lines, block, edits, k, error)
  {
    hide LegalKeyword, Structural, Opener, AllSpellable, Touched, NextHeader, IsHeader, AllKeywordChars;
    var edit := edits[k];
    TouchedIff(edits, k, edit.line);
    KeywordIff(edit.keyword);
    OpenerIff(edit.keyword);
    if 0 < edit.line <= |lines| { OpenerIff(lines[edit.line - 1].keyword); }
  }

  lemma SetBlames(lines: seq<Line>, block: Block, edits: seq<FieldEdit>, k: nat, error: EditError)
    requires k < |edits| && SetError(lines, edits[k]) == Some(error)
    ensures Blamed(lines, block, edits, k, error)
  {
    hide LegalKeyword, Structural, Opener, AllSpellable, AllQuotable, AllKeywordChars;
    var keyword := NewKeyword(lines[edits[k].line - 1], edits[k]);
    KeywordIff(keyword);
    OpenerIff(keyword);
    assert AllQuotable(edits[k].values) <==> AllSpellable(edits[k].values) by { SpellIff(edits[k].values); }
  }

  /** Refused edits hear what is wrong with one of them. */
  lemma RefusalTells(lines: seq<Line>, block: Block, edits: seq<FieldEdit>, error: EditError) returns (k: nat)
    requires IsBlock(lines, block) && Refusal(lines, block, edits, error)
    ensures k < |edits| && Blamed(lines, block, edits, k, error)
  {
    hide Problem, SetError, IsBlock, AllQuotable, AllSpellable;
    if j :| 0 <= j < |edits| && FirstProblem(lines, block, edits, j) == Some(error) {
      k := j;
      ProblemBlames(lines, block, edits, k, error);
    } else if j :| 0 <= j < |edits| && SetError(lines, edits[j]) == Some(error) {
      k := j;
      SetBlames(lines, block, edits, k, error);
    } else {
      k :| 0 <= k < |edits| && edits[k].action == Add && !AllQuotable(edits[k].values);
      assert !AllSpellable(edits[k].values) by { SpellIff(edits[k].values); }
    }
  }

  // ---- what is written ----

  /** The first n arguments are values; what follows is a comment. */
  predicate ValuesEnd(arguments: seq<Argument>, n: int) {
    && 0 <= n <= |arguments|
    && (forall i :: 0 <= i < n ==> arguments[i].raw == "" || arguments[i].raw[0] != '#')
    && (n < |arguments| ==> arguments[n].raw != "" && arguments[n].raw[0] == '#')
  }

  /** The values stand where the old ones did, spaced as those were, and the comment is kept. */
  ghost predicate SetArguments(before: seq<Argument>, values: seq<string>, n: int, now: seq<Argument>) {
    && ValuesEnd(before, n) && |now| == |values| + |before| - n
    && (forall i :: 0 <= i < |values| ==> now[i] == Argument(if i < n then before[i].lead else if i == 0 then "" else " ", Spelling(values[i]), values[i]))
    && (forall i :: n <= i < |before| ==>
          now[i + |values| - n] == if i == n && values == [] && before[i].lead == "" then before[i].(lead := " ") else before[i])
  }

  /** The line with this keyword and these values; all else about it is kept. */
  ghost predicate SetLine(line: Line, keyword: string, values: seq<string>, now: Line) {
    && now == line.(keyword := keyword, separator := if line.separator == "" then " " else line.separator, arguments := now.arguments)
    && exists n :: SetArguments(line.arguments, values, n, now.arguments)
  }

  /** A new line: a directive with this keyword, these values and one blank between them. */
  predicate NewLine(keyword: string, values: seq<string>, indent: string, ending: string, now: Line) {
    && now == Line(Directive, "", indent, keyword, " ", now.arguments, "", ending)
    && |now.arguments| == |values|
    && forall i :: 0 <= i < |values| ==> now.arguments[i] == Argument(if i == 0 then "" else " ", Spelling(values[i]), values[i])
  }

  lemma ArgumentIs(lead: string, value: string)
    requires !Unquotable(value)
    ensures RenderArgument(lead, value) == Some(Argument(lead, Spelling(value), value))
  {
    hide Unquotable;
    QuotesIff(value);
  }

  lemma WrittenIs(existing: seq<Argument>, values: seq<string>, i: nat)
    requires AllQuotable(values) && i < |values|
    ensures Written(existing, values)[i] == Argument(if i < |existing| then existing[i].lead else if i == 0 then "" else " ", Spelling(values[i]), values[i])
  {
    hide Unquotable, RenderArgument, Spelling;
    ArgumentIs(LeadFor(existing, i), values[i]);
  }

  lemma CommentPlace(arguments: seq<Argument>, values: seq<string>, i: nat)
    requires |ArgumentValues(arguments)| <= i < |arguments|
    ensures var n, kept := |ArgumentValues(arguments)|, KeptComment(values, CommentPart(arguments));
            && |kept| == |arguments| - n
            && kept[i - n] == if i == n && values == [] && arguments[i].lead == "" then arguments[i].(lead := " ") else arguments[i]
  {
    hide ArgumentValues;
  }

  lemma KeptLength(arguments: seq<Argument>, values: seq<string>)
    ensures |KeptComment(values, CommentPart(arguments))| == |arguments| - |ArgumentValues(arguments)|
  {
    hide ArgumentValues;
  }

  lemma ValuesEndThere(arguments: seq<Argument>)
    ensures ValuesEnd(arguments, |ArgumentValues(arguments)|)
  {}

  lemma ArgumentsAre(before: seq<Argument>, values: seq<string>)
    requires AllQuotable(values)
    ensures SetArguments(before, values, |ArgumentValues(before)|, Written(ValuePart(before), values) + KeptComment(values, CommentPart(before)))
  {
    hide AllQuotable, Written, Spelling, KeptComment, ArgumentValues, ValuesEnd;
    var n, written, kept := |ArgumentValues(before)|, Written(ValuePart(before), values), KeptComment(values, CommentPart(before));
    ValuesEndThere(before);
    KeptLength(before, values);
    forall i | 0 <= i < |values|
      ensures (written + kept)[i] == Argument(if i < n then before[i].lead else if i == 0 then "" else " ", Spelling(values[i]), values[i])
    {
      WrittenIs(ValuePart(before), values, i);
    }
    forall i | n <= i < |before|
      ensures (written + kept)[i + |values| - n] == if i == n && values == [] && before[i].lead == "" then before[i].(lead := " ") else before[i]
    {
      CommentPlace(before, values, i);
      assert (written + kept)[i + |values| - n] == kept[i - n];
    }
  }

  lemma RebuiltIs(line: Line, keyword: string, values: seq<string>)
    requires AllQuotable(values)
    ensures SetLine(line, keyword, values, Rebuilt(line, keyword, values))
  {
    hide AllQuotable, Written, SetArguments, KeptComment, ValuePart, CommentPart;
    ArgumentsAre(line.arguments, values);
  }

  lemma BuiltIs(indent: string, keyword: string, values: seq<string>, ending: string)
    requires AllQuotable(values)
    ensures NewLine(keyword, values, indent, ending, Built(indent, keyword, values, ending))
  {
    hide AllQuotable, Written, Spelling;
    forall i | 0 <= i < |values|
      ensures Built(indent, keyword, values, ending).arguments[i] == Argument(if i == 0 then "" else " ", Spelling(values[i]), values[i])
    {
      WrittenIs([], values, i);
    }
  }

  // ---- which lines stay, and where ----

  ghost predicate Gone(edits: seq<FieldEdit>, i: int) { exists k :: 0 <= k < |edits| && edits[k].action == Remove && edits[k].line == i + 1 }

  ghost predicate SetBy(edits: seq<FieldEdit>, i: int, k: int) { 0 <= k < |edits| && edits[k].action == Set && edits[k].line == i + 1 }

  lemma GoneIff(edits: seq<FieldEdit>, i: int)
    ensures i in Removed(edits) <==> Gone(edits, i)
  {
    if k :| 0 <= k < |edits| && edits[k].action == Remove && edits[k].line == i + 1 { assert edits[k].line - 1 == i; }
  }

  /** Only one edit sets a line. */
  lemma SetByIs(lines: seq<Line>, block: Block, edits: seq<FieldEdit>, i: int)
    requires Acceptable(lines, block, edits)
    ensures SetEdit(edits, i) == None <==> forall k :: !SetBy(edits, i, k)
    ensures forall k :: SetBy(edits, i, k) ==> SetEdit(edits, i) == Some(edits[k])
  {
    hide Acceptable;
    if SetEdit(edits, i) != None {
      var m := SetEditFound(edits, i);
      assert SetBy(edits, i, m);
      forall k | SetBy(edits, i, k) ensures k == m { OneSet(lines, block, edits, i, k, m); }
    } else {
      forall k ensures !SetBy(edits, i, k) { NoneSets(edits, i, k); }
    }
  }

  lemma OneSet(lines: seq<Line>, block: Block, edits: seq<FieldEdit>, i: int, k: int, m: int)
    requires Acceptable(lines, block, edits) && SetBy(edits, i, k) && SetBy(edits, i, m)
    ensures k == m
  {
    hide Acceptable;
    LaterDiffers(lines, block, edits, i, k, m);
    LaterDiffers(lines, block, edits, i, m, k);
  }

  lemma LaterDiffers(lines: seq<Line>, block: Block, edits: seq<FieldEdit>, i: int, k: int, m: int)
    requires Acceptable(lines, block, edits) && SetBy(edits, i, k) && 0 <= m < |edits|
    ensures k < m ==> !SetBy(edits, i, m)
  {
    assert Admitted(lines, block, edits, m);
    if k < m { TouchedIff(edits, m, i + 1); }
  }

  lemma {:induction false} NoneSets(edits: seq<FieldEdit>, i: int, k: int)
    requires SetEdit(edits, i) == None
    ensures !SetBy(edits, i, k)
  {
    if 0 <= k < |edits| - 1 { NoneSets(edits[..|edits| - 1], i, k); }
  }

  /** What stays of a line: itself, rewritten if it was set, and with a newline if it had none and a new line follows. */
  ghost predicate Carried(lines: seq<Line>, edits: seq<FieldEdit>, i: nat, now: Line)
    requires i < |lines|
  {
    var back := now.(ending := lines[i].ending);
    && (lines[i].ending != "" ==> now.ending == lines[i].ending)
    && ((forall k :: !SetBy(edits, i, k)) ==> back == lines[i])
    && (forall k :: SetBy(edits, i, k) ==> SetLine(lines[i], if edits[k].keyword == "" then lines[i].keyword else edits[k].keyword, edits[k].values, back))
  }

  lemma LineCarried(lines: seq<Line>, block: Block, edits: seq<FieldEdit>, i: nat)
    requires IsBlock(lines, block) && Acceptable(lines, block, edits) && Writes(lines, edits) && i < |lines| && !Gone(edits, i)
    ensures i !in Removed(edits)
    ensures var at, edited := FinalIndex(lines, block, edits, i), Edited(lines, block, edits);
            at < |edited| && Carried(lines, edits, i, edited[at])
  {
    hide Acceptable, SetsWrite, AddsWrite, FinalIndex, Edited, SetLine, Rebuilt, AllQuotable, KeywordError, SetBy, Gone;
    GoneIff(edits, i);
    EditedAt(lines, block, edits, i);
    SetByIs(lines, block, edits, i);
    if SetEdit(edits, i) != None {
      SetFacts(lines, block, edits, i);
      var e := SetEdit(edits, i).value;
      RebuiltIs(lines[i], NewKeyword(lines[i], e), e.values);
      RebuiltEnding(lines[i], NewKeyword(lines[i], e), e.values);
    }
  }

  // ---- the new lines ----

  /** How many additions are asked for before edit k. */
  function Rank(edits: seq<FieldEdit>, k: nat): nat
    requires k <= |edits|
  {
    |AddsOf(edits[..k])|
  }

  lemma {:induction false} RankGrows(edits: seq<FieldEdit>, k: nat, n: nat)
    requires k <= n <= |edits|
    ensures Rank(edits, k) <= Rank(edits, n)
    ensures k < n && edits[k].action == Add ==> Rank(edits, k) < Rank(edits, n)
  {
    if k < n {
      RankGrows(edits, k, n - 1);
      AddsNext(edits, n - 1);
    }
  }

  lemma {:induction false} RankedAdd(edits: seq<FieldEdit>, k: nat, n: nat)
    requires k < n <= |edits| && edits[k].action == Add
    ensures Rank(edits, k) < |AddsOf(edits[..n])| && AddsOf(edits[..n])[Rank(edits, k)] == edits[k]
    decreases n
  {
    AddsNext(edits, n - 1);
    if k < n - 1 { RankedAdd(edits, k, n - 1); }
  }

  lemma {:induction false} EveryRank(edits: seq<FieldEdit>, n: nat, r: nat) returns (k: nat)
    requires n <= |edits| && r < Rank(edits, n)
    ensures k < n && edits[k].action == Add && Rank(edits, k) == r
  {
    AddsNext(edits, n - 1);
    if r < Rank(edits, n - 1) { k := EveryRank(edits, n - 1, r); } else { k := n - 1; }
  }

  // ---- the block among the lines that stay ----

  lemma {:induction false} IndexGrows(gone: set<int>, i: nat, j: nat)
    requires i <= j
    ensures KeptIndex(gone, i) <= KeptIndex(gone, j)
    decreases j
  {
    if i < j { IndexGrows(gone, i, j - 1); }
  }

  lemma {:induction false} IndexAbove(gone: set<int>, i: nat)
    requires forall g :: g in gone ==> g >= i
    ensures KeptIndex(gone, i) == i
  {
    if i > 0 { IndexAbove(gone, i - 1); }
  }

  /** A kept line, in the file with the removed lines taken out. */
  lemma KeptLine(lines: seq<Line>, block: Block, edits: seq<FieldEdit>, i: nat)
    requires IsBlock(lines, block) && Acceptable(lines, block, edits) && SetsWrite(lines, edits) && i < |lines| && i !in Removed(edits)
    ensures var kept, n := Kept(lines, edits), KeptIndex(Removed(edits), i);
            && n < |kept| && kept[n].kind == lines[i].kind && kept[n].indent == lines[i].indent && kept[n].ending == lines[i].ending
            && (IsHeader(kept[n]) <==> IsHeader(lines[i]))
  {
    hide Acceptable, SetsWrite, AfterSets, Rebuilt, AllQuotable, KeywordError, IsHeader;
    KeptAt(AfterSets(lines, edits), Removed(edits), i);
    if SetEdit(edits, i) != None {
      SetFacts(lines, block, edits, i);
      var e := SetEdit(edits, i).value;
      RebuiltEnding(lines[i], NewKeyword(lines[i], e), e.values);
      SetStaysPlain(lines, block, edits, i);
    } else {
      UnsetStays(lines, edits, i);
    }
  }

  lemma UnsetStays(lines: seq<Line>, edits: seq<FieldEdit>, i: nat)
    requires i < |lines| && SetEdit(edits, i) == None
    ensures AfterSets(lines, edits)[i] == lines[i]
  {}

  lemma SetStaysPlain(lines: seq<Line>, block: Block, edits: seq<FieldEdit>, i: nat)
    requires Acceptable(lines, block, edits) && SetsWrite(lines, edits) && i < |lines| && SetEdit(edits, i) != None
    ensures !IsHeader(lines[i]) && !IsHeader(AfterSets(lines, edits)[i])
  {
    hide Acceptable, SetsWrite, AfterSets, Rebuilt, AllQuotable, KeywordError, Structural;
    SetFacts(lines, block, edits, i);
    var e := SetEdit(edits, i).value;
    KeywordFits(NewKeyword(lines[i], e));
    RebuiltKeyword(lines[i], NewKeyword(lines[i], e), e.values);
    var k := SetEditFound(edits, i);
    SetNotOpener(lines, block, edits, k);
    OpenerIff(lines[i].keyword);
  }

  lemma RebuiltKeyword(line: Line, keyword: string, values: seq<string>)
    requires AllQuotable(values)
    ensures Rebuilt(line, keyword, values).keyword == keyword
  {}

  lemma SetNotOpener(lines: seq<Line>, block: Block, edits: seq<FieldEdit>, k: nat)
    requires Acceptable(lines, block, edits) && k < |edits| && edits[k].action == Set
    ensures 0 <= edits[k].line - 1 < |lines| ==> !Structural(lines[edits[k].line - 1].keyword)
  {
    hide Structural, KeywordError, Touched;
    assert Admitted(lines, block, edits, k);
  }

  /** The removed lines lie in the block, so it keeps its start, and its end moves up by as many. */
  lemma BlockKept(lines: seq<Line>, block: Block, edits: seq<FieldEdit>)
    requires IsBlock(lines, block) && Acceptable(lines, block, edits) && SetsWrite(lines, edits)
    ensures var kept, gone := Kept(lines, edits), Removed(edits);
            && KeptIndex(gone, block.start) == block.start <= |kept| && KeptIndex(gone, block.end) <= |kept|
            && NextHeader(kept, block.start) == KeptIndex(gone, block.end)
  {
    hide Acceptable, SetsWrite, Kept, Removed, IsHeader, KeptIndex, AfterSets;
    var kept, gone, end := Kept(lines, edits), Removed(edits), KeptIndex(Removed(edits), block.end);
    RemovedInside(lines, block, edits);
    IndexAbove(gone, block.start);
    IndexGrows(gone, block.start, block.end);
    KeptCount(lines, edits);
    IndexGrows(gone, block.end, |lines|);
    forall n | block.start <= n < end ensures !IsHeader(kept[n]) {
      var i := KeptBefore(lines, block, edits, n, block.end);
      IndexStrict(gone, i, block.start);
      assert NoHeader(lines, block.start, block.end);
      KeptLine(lines, block, edits, i);
    }
    if block.end < |lines| {
      assert block.end !in gone;
      KeptLine(lines, block, edits, block.end);
    }
    NextHeaderIs(kept, block.start, end);
  }

  lemma KeptCount(lines: seq<Line>, edits: seq<FieldEdit>)
    ensures KeptIndex(Removed(edits), |lines|) == |Kept(lines, edits)|
  {
    KeptAt(AfterSets(lines, edits), Removed(edits), |lines|);
  }

  lemma IndexStrict(gone: set<int>, i: nat, j: nat)
    ensures i < j && i !in gone ==> KeptIndex(gone, i) < KeptIndex(gone, j)
  {
    if i < j && i !in gone { KeptOrder(gone, i, j); }
  }

  /** The line that comes to stand at n. */
  lemma KeptBefore(lines: seq<Line>, block: Block, edits: seq<FieldEdit>, n: nat, bound: nat) returns (i: nat)
    requires IsBlock(lines, block) && Acceptable(lines, block, edits) && SetsWrite(lines, edits)
    requires n < |Kept(lines, edits)|
    ensures i < |lines| && i !in Removed(edits) && KeptIndex(Removed(edits), i) == n
    ensures n < KeptIndex(Removed(edits), bound) ==> i < bound
  {
    hide Acceptable, SetsWrite, Removed;
    i := KeptFrom(AfterSets(lines, edits), Removed(edits), n);
    if i >= bound { IndexGrows(Removed(edits), bound, i); }
  }

  // ---- where the new lines stand ----

  /** Line i stays below every setting of the block that stays. */
  ghost predicate Below(lines: seq<Line>, block: Block, edits: seq<FieldEdit>, i: nat) {
    && i >= block.start
    && forall j :: i <= j < block.end && j < |lines| && !Gone(edits, j) ==> lines[j].kind != Directive
  }

  lemma BelowIff(lines: seq<Line>, block: Block, edits: seq<FieldEdit>, i: nat)
    requires IsBlock(lines, block) && Acceptable(lines, block, edits) && SetsWrite(lines, edits) && i < |lines| && i !in Removed(edits)
    ensures KeptIndex(Removed(edits), i) >= AddPosition(lines, block, edits) <==> Below(lines, block, edits, i)
  {
    hide Acceptable, SetsWrite, Kept, Removed, IsHeader, KeptIndex, AfterSets, NextHeader, AppendAt, Gone;
    var kept, gone, p := Kept(lines, edits), Removed(edits), AddPosition(lines, block, edits);
    BlockKept(lines, block, edits);
    var end := KeptIndex(gone, block.end);
    NoDirectiveBelow(kept, block.start, end);
    assert p == AppendAt(kept, block.start, end);
    var n := KeptIndex(gone, i);
    if n >= p {
      IndexStrict(gone, i, block.start);
      forall j | i <= j < block.end && j < |lines| && !Gone(edits, j) ensures lines[j].kind != Directive {
        GoneIff(edits, j);
        IndexGrows(gone, i, j);
        IndexStrict(gone, j, block.end);
        KeptLine(lines, block, edits, j);
      }
    } else if i >= block.start {
      IndexGrows(gone, block.start, i);
      var j := KeptBefore(lines, block, edits, p - 1, block.end);
      GoneIff(edits, j);
      KeptLine(lines, block, edits, j);
      IndexStrict(gone, j, i);
    }
  }

  /** The last setting of the block that stays. */
  ghost predicate LastSetting(lines: seq<Line>, block: Block, edits: seq<FieldEdit>, j: int) {
    && block.start <= j < block.end && j < |lines| && !Gone(edits, j) && lines[j].kind == Directive
    && forall m :: j < m < block.end && m < |lines| && !Gone(edits, m) ==> lines[m].kind != Directive
  }

  /** The indentation of the last setting that stays, a tab when none does. */
  ghost predicate IndentIs(lines: seq<Line>, block: Block, edits: seq<FieldEdit>, indent: string) {
    if j :| LastSetting(lines, block, edits, j) then indent == lines[j].indent else indent == "\t"
  }

  lemma LastOnce(lines: seq<Line>, block: Block, edits: seq<FieldEdit>, i: int, j: int)
    requires LastSetting(lines, block, edits, i) && LastSetting(lines, block, edits, j)
    ensures i == j
  {}

  lemma IndentTrue(lines: seq<Line>, block: Block, edits: seq<FieldEdit>)
    requires IsBlock(lines, block) && Acceptable(lines, block, edits) && SetsWrite(lines, edits)
    requires block.start <= |Kept(lines, edits)|
    ensures IndentIs(lines, block, edits, IndentOf(Kept(lines, edits), block.start, NextHeader(Kept(lines, edits), block.start)))
  {
    hide Acceptable, SetsWrite, Kept, Removed, IsHeader, KeptIndex, AfterSets, NextHeader, AppendAt, Gone, LastSetting;
    var kept, gone := Kept(lines, edits), Removed(edits);
    BlockKept(lines, block, edits);
    var end := KeptIndex(gone, block.end);
    var p := AppendAt(kept, block.start, end);
    NoDirectiveBelow(kept, block.start, end);
    if p == block.start {
      forall j ensures !LastSetting(lines, block, edits, j) { NoneLast(lines, block, edits, j); }
    } else {
      var i := KeptBefore(lines, block, edits, p - 1, block.end);
      KeptLine(lines, block, edits, i);
      LastAt(lines, block, edits, i);
      forall j | LastSetting(lines, block, edits, j) ensures j == i { LastOnce(lines, block, edits, i, j); }
    }
  }

  lemma NoneLast(lines: seq<Line>, block: Block, edits: seq<FieldEdit>, j: int)
    requires IsBlock(lines, block) && Acceptable(lines, block, edits) && SetsWrite(lines, edits)
    requires AddPosition(lines, block, edits) == block.start
    ensures !LastSetting(lines, block, edits, j)
  {
    hide Acceptable, SetsWrite, Kept, Removed, KeptIndex, AfterSets, NextHeader, AppendAt, Gone, AddPosition, IsHeader;
    if block.start <= j < |lines| && !Gone(edits, j) {
      GoneIff(edits, j);
      BlockKept(lines, block, edits);
      IndexGrows(Removed(edits), block.start, j);
      BelowIff(lines, block, edits, j);
    }
  }

  lemma LastAt(lines: seq<Line>, block: Block, edits: seq<FieldEdit>, i: nat)
    requires IsBlock(lines, block) && Acceptable(lines, block, edits) && SetsWrite(lines, edits)
    requires i < |lines| && i < block.end && i !in Removed(edits) && lines[i].kind == Directive
    requires KeptIndex(Removed(edits), i) + 1 == AddPosition(lines, block, edits) && AddPosition(lines, block, edits) > block.start
    ensures LastSetting(lines, block, edits, i)
  {
    hide Acceptable, SetsWrite, Kept, KeptIndex, AfterSets, NextHeader, AppendAt, Gone, AddPosition, IsHeader, Removed;
    GoneIff(edits, i);
    BlockKept(lines, block, edits);
    IndexStrict(Removed(edits), i, block.start);
    forall m | i < m < block.end && m < |lines| && !Gone(edits, m) ensures lines[m].kind != Directive {
      GoneIff(edits, m);
      IndexStrict(Removed(edits), i, m);
      BelowIff(lines, block, edits, m);
    }
  }

  /** A setting of the block that stays and ends its line. */
  predicate EndsLine(line: Line) { line.kind == Directive && line.ending != "" }

  /** The last setting of the block that stays and whose line ends. */
  ghost predicate LastEnded(lines: seq<Line>, block: Block, edits: seq<FieldEdit>, j: int) {
    && block.start <= j < block.end && j < |lines| && !Gone(edits, j) && EndsLine(lines[j])
    && forall m :: j < m < block.end && m < |lines| && !Gone(edits, m) ==> !EndsLine(lines[m])
  }

  /** The first line of the file that stays and ends. */
  ghost predicate FirstEnded(lines: seq<Line>, edits: seq<FieldEdit>, j: int) {
    && 0 <= j < |lines| && !Gone(edits, j) && lines[j].ending != ""
    && forall m :: 0 <= m < j && !Gone(edits, m) ==> lines[m].ending == ""
  }

  /** How a new line ends: as the last such setting, else as the first such line, else with a newline. */
  ghost predicate EndingIs(lines: seq<Line>, block: Block, edits: seq<FieldEdit>, ending: string) {
    if j :| LastEnded(lines, block, edits, j) then ending == lines[j].ending
    else if j :| FirstEnded(lines, edits, j) then ending == lines[j].ending
    else ending == "\n"
  }

  predicate LastEndedIn(lines: seq<Line>, start: nat, end: nat, n: nat) {
    start <= n < end <= |lines| && EndsLine(lines[n]) && forall m :: n < m < end ==> !EndsLine(lines[m])
  }

  predicate FirstEndedIn(lines: seq<Line>, n: nat) {
    n < |lines| && lines[n].ending != "" && forall m :: 0 <= m < n ==> lines[m].ending == ""
  }

  lemma {:induction false} EndingFound(lines: seq<Line>, start: nat, end: nat)
    requires start <= end <= |lines|
    ensures (exists n: nat :: LastEndedIn(lines, start, end, n) && EndingOf(lines, start, end) == lines[n].ending)
            || (EndingOf(lines, start, end) == FirstEnding(lines) && forall n :: start <= n < end ==> !EndsLine(lines[n]))
    decreases end
  {
    if end > start {
      if EndsLine(lines[end - 1]) {
        assert LastEndedIn(lines, start, end, end - 1);
      } else {
        EndingFound(lines, start, end - 1);
        if n: nat :| LastEndedIn(lines, start, end - 1, n) && EndingOf(lines, start, end - 1) == lines[n].ending {
          assert LastEndedIn(lines, start, end, n);
        }
      }
    }
  }

  lemma {:induction false} FirstFound(lines: seq<Line>)
    ensures (exists n: nat :: FirstEndedIn(lines, n) && FirstEnding(lines) == lines[n].ending)
            || (FirstEnding(lines) == "\n" && forall n :: 0 <= n < |lines| ==> lines[n].ending == "")
  {
    if lines != [] {
      if lines[0].ending != "" {
        assert FirstEndedIn(lines, 0);
      } else {
        var rest := lines[1..];
        FirstFound(rest);
        assert forall n :: 0 < n < |lines| ==> lines[n] == rest[n - 1];
        if n: nat :| FirstEndedIn(rest, n) && FirstEnding(rest) == rest[n].ending { assert FirstEndedIn(lines, n + 1); }
      }
    }
  }

  lemma LastEndedOnce(lines: seq<Line>, block: Block, edits: seq<FieldEdit>, i: int, j: int)
    requires LastEnded(lines, block, edits, i) && LastEnded(lines, block, edits, j)
    ensures i == j
  {}

  lemma FirstEndedOnce(lines: seq<Line>, edits: seq<FieldEdit>, i: int, j: int)
    requires FirstEnded(lines, edits, i) && FirstEnded(lines, edits, j)
    ensures i == j
  {}

  lemma LastEndedThere(lines: seq<Line>, block: Block, edits: seq<FieldEdit>, n: nat) returns (i: nat)
    requires IsBlock(lines, block) && Acceptable(lines, block, edits) && SetsWrite(lines, edits)
    requires LastEndedIn(Kept(lines, edits), block.start, KeptIndex(Removed(edits), block.end), n)
    ensures LastEnded(lines, block, edits, i) && lines[i].ending == Kept(lines, edits)[n].ending
  {
    hide Acceptable, SetsWrite, Kept, KeptIndex, AfterSets, NextHeader, Gone, IsHeader, Removed;
    BlockKept(lines, block, edits);
    i := KeptBefore(lines, block, edits, n, block.end);
    GoneIff(edits, i);
    KeptLine(lines, block, edits, i);
    IndexStrict(Removed(edits), i, block.start);
    forall m | i < m < block.end && m < |lines| && !Gone(edits, m) ensures !EndsLine(lines[m]) {
      GoneIff(edits, m);
      IndexStrict(Removed(edits), i, m);
      IndexStrict(Removed(edits), m, block.end);
      KeptLine(lines, block, edits, m);
    }
  }

  lemma NoneEnded(lines: seq<Line>, block: Block, edits: seq<FieldEdit>, j: int)
    requires IsBlock(lines, block) && Acceptable(lines, block, edits) && SetsWrite(lines, edits)
    requires KeptIndex(Removed(edits), block.end) <= |Kept(lines, edits)|
    requires forall n :: block.start <= n < KeptIndex(Removed(edits), block.end) ==> !EndsLine(Kept(lines, edits)[n])
    ensures !LastEnded(lines, block, edits, j)
  {
    hide Acceptable, SetsWrite, Kept, KeptIndex, AfterSets, NextHeader, Gone, IsHeader, Removed;
    if block.start <= j < |lines| && j < block.end && !Gone(edits, j) {
      GoneIff(edits, j);
      BlockKept(lines, block, edits);
      IndexGrows(Removed(edits), block.start, j);
      IndexStrict(Removed(edits), j, block.end);
      KeptLine(lines, block, edits, j);
    }
  }

  lemma FirstEndedThere(lines: seq<Line>, block: Block, edits: seq<FieldEdit>, n: nat) returns (i: nat)
    requires IsBlock(lines, block) && Acceptable(lines, block, edits) && SetsWrite(lines, edits)
    requires FirstEndedIn(Kept(lines, edits), n)
    ensures FirstEnded(lines, edits, i) && lines[i].ending == Kept(lines, edits)[n].ending
  {
    hide Acceptable, SetsWrite, Kept, KeptIndex, AfterSets, NextHeader, Gone, IsHeader, Removed;
    i := KeptBefore(lines, block, edits, n, 0);
    GoneIff(edits, i);
    KeptLine(lines, block, edits, i);
    forall m | 0 <= m < i && !Gone(edits, m) ensures lines[m].ending == "" {
      GoneIff(edits, m);
      IndexStrict(Removed(edits), m, i);
      KeptLine(lines, block, edits, m);
    }
  }

  lemma NoneFirst(lines: seq<Line>, block: Block, edits: seq<FieldEdit>, j: int)
    requires IsBlock(lines, block) && Acceptable(lines, block, edits) && SetsWrite(lines, edits)
    requires forall n :: 0 <= n < |Kept(lines, edits)| ==> Kept(lines, edits)[n].ending == ""
    ensures !FirstEnded(lines, edits, j)
  {
    hide Acceptable, SetsWrite, Kept, KeptIndex, AfterSets, NextHeader, Gone, IsHeader, Removed;
    if 0 <= j < |lines| && !Gone(edits, j) {
      GoneIff(edits, j);
      KeptLine(lines, block, edits, j);
    }
  }

  lemma EndingTrue(lines: seq<Line>, block: Block, edits: seq<FieldEdit>)
    requires IsBlock(lines, block) && Acceptable(lines, block, edits) && SetsWrite(lines, edits)
    requires block.start <= |Kept(lines, edits)|
    ensures EndingIs(lines, block, edits, EndingOf(Kept(lines, edits), block.start, NextHeader(Kept(lines, edits), block.start)))
  {
    hide Acceptable, SetsWrite, Kept, Removed, IsHeader, KeptIndex, AfterSets, NextHeader, Gone, EndingOf, FirstEnding, LastEnded, FirstEnded, EndsLine;
    var kept := Kept(lines, edits);
    BlockKept(lines, block, edits);
    var end := KeptIndex(Removed(edits), block.end);
    EndingFound(kept, block.start, end);
    if n: nat :| LastEndedIn(kept, block.start, end, n) && EndingOf(kept, block.start, end) == kept[n].ending {
      var i := LastEndedThere(lines, block, edits, n);
      forall j | LastEnded(lines, block, edits, j) ensures j == i { LastEndedOnce(lines, block, edits, i, j); }
    } else {
      forall j ensures !LastEnded(lines, block, edits, j) { NoneEnded(lines, block, edits, j); }
      FirstFound(kept);
      if n: nat :| FirstEndedIn(kept, n) && FirstEnding(kept) == kept[n].ending {
        var i := FirstEndedThere(lines, block, edits, n);
        forall j | FirstEnded(lines, edits, j) ensures j == i { FirstEndedOnce(lines, edits, i, j); }
      } else {
        forall j ensures !FirstEnded(lines, edits, j) { NoneFirst(lines, block, edits, j); }
      }
    }
  }

  // ---- the edited file ----

  /** The edited file: line i stands at place[i] unless it is gone, the line that edit k adds at added[k];
      both in order, nothing else, and the new lines together below the last setting of the block that stays. */
  ghost predicate EditedAs(lines: seq<Line>, block: Block, edits: seq<FieldEdit>, edited: seq<Line>, place: seq<int>, added: seq<int>) {
    && |place| == |lines| && |added| == |edits|
    && (forall i :: 0 <= i < |lines| && !Gone(edits, i) ==> 0 <= place[i] < |edited| && Carried(lines, edits, i, edited[place[i]]))
    && (forall k :: 0 <= k < |edits| && edits[k].action == Add ==> 0 <= added[k] < |edited| && Appended(lines, block, edits, k, edited[added[k]]))
    && (forall i, j :: 0 <= i < j < |lines| && !Gone(edits, i) && !Gone(edits, j) ==> place[i] < place[j])
    && (forall k, m :: 0 <= k < m < |edits| && edits[k].action == Add && edits[m].action == Add ==> added[k] < added[m])
    && (forall i, k :: 0 <= i < |lines| && !Gone(edits, i) && 0 <= k < |edits| && edits[k].action == Add ==>
          (place[i] < added[k] || added[k] < place[i]) && (added[k] < place[i] <==> Below(lines, block, edits, i)))
    && (forall n :: 0 <= n < |edited| ==> Accounted(lines, edits, place, added, n))
  }

  /** A line that stayed or one that was added. */
  ghost predicate Accounted(lines: seq<Line>, edits: seq<FieldEdit>, place: seq<int>, added: seq<int>, n: nat)
    requires |place| == |lines| && |added| == |edits|
  {
    || (exists i :: 0 <= i < |lines| && !Gone(edits, i) && place[i] == n)
    || (exists k :: 0 <= k < |edits| && edits[k].action == Add && added[k] == n)
  }

  ghost predicate Appended(lines: seq<Line>, block: Block, edits: seq<FieldEdit>, k: nat, now: Line)
    requires k < |edits|
  {
    && IndentIs(lines, block, edits, now.indent) && EndingIs(lines, block, edits, now.ending)
    && NewLine(edits[k].keyword, edits[k].values, now.indent, now.ending, now)
  }

  lemma LineAppended(lines: seq<Line>, block: Block, edits: seq<FieldEdit>, k: nat)
    requires IsBlock(lines, block) && Acceptable(lines, block, edits) && Writes(lines, edits) && k < |edits| && edits[k].action == Add
    ensures var at, edited := AddPosition(lines, block, edits) + Rank(edits, k), Edited(lines, block, edits);
            Rank(edits, k) < |AddsOf(edits)| && at < |edited| && Appended(lines, block, edits, k, edited[at])
  {
    hide Acceptable, SetsWrite, AddsWrite, Kept, WithAdds, AppendAt, NextHeader, EndingOf, IndentOf, Built, NewLine, IndentIs, EndingIs, KeywordError, AllQuotable, AddsOf;
    KeptAbove(lines, block, edits);
    AddsAllGood(lines, block, edits);
    RankedAdd(edits, k, |edits|);
    assert edits[..|edits|] == edits;
    var kept := Kept(lines, edits);
    AddedAt(kept, block.start, AddsOf(edits), Rank(edits, k));
    var end := NextHeader(kept, block.start);
    IndentTrue(lines, block, edits);
    EndingTrue(lines, block, edits);
    BuiltIs(IndentOf(kept, block.start, end), edits[k].keyword, edits[k].values, EndingOf(kept, block.start, end));
    NewLineIs(edits[k].keyword, edits[k].values, IndentOf(kept, block.start, end), EndingOf(kept, block.start, end),
              Built(IndentOf(kept, block.start, end), edits[k].keyword, edits[k].values, EndingOf(kept, block.start, end)));
  }

  lemma NewLineIs(keyword: string, values: seq<string>, indent: string, ending: string, now: Line)
    requires NewLine(keyword, values, indent, ending, now)
    ensures now.indent == indent && now.ending == ending
  {}

  /** Where they all are. */
  function Place(lines: seq<Line>, block: Block, edits: seq<FieldEdit>): (place: seq<int>)
    requires Acceptable(lines, block, edits) && block.start <= |lines|
    ensures |place| == |lines| && forall i :: 0 <= i < |lines| ==> place[i] == FinalIndex(lines, block, edits, i)
  {
    seq(|lines|, i requires 0 <= i < |lines| => FinalIndex(lines, block, edits, i))
  }

  function AddedPlace(lines: seq<Line>, block: Block, edits: seq<FieldEdit>): (added: seq<int>)
    requires Acceptable(lines, block, edits) && block.start <= |lines|
    ensures |added| == |edits| && forall k :: 0 <= k < |edits| ==> added[k] == AddPosition(lines, block, edits) + Rank(edits, k)
  {
    seq(|edits|, k requires 0 <= k < |edits| => AddPosition(lines, block, edits) + Rank(edits, k))
  }

  lemma PlacesApart(lines: seq<Line>, block: Block, edits: seq<FieldEdit>, i: nat, k: nat)
    requires IsBlock(lines, block) && Acceptable(lines, block, edits) && Writes(lines, edits)
    requires i < |lines| && !Gone(edits, i) && k < |edits| && edits[k].action == Add
    ensures var at, added := FinalIndex(lines, block, edits, i), AddPosition(lines, block, edits) + Rank(edits, k);
            (at < added || added < at) && (added < at <==> Below(lines, block, edits, i))
  {
    hide Acceptable, SetsWrite, AddsWrite, AddPosition, KeptIndex, Below, Gone, AddsOf;
    GoneIff(edits, i);
    BelowIff(lines, block, edits, i);
    RankedAdd(edits, k, |edits|);
    assert edits[..|edits|] == edits;
  }

  lemma Covered(lines: seq<Line>, block: Block, edits: seq<FieldEdit>, n: nat)
    requires IsBlock(lines, block) && Acceptable(lines, block, edits) && Writes(lines, edits) && n < |Edited(lines, block, edits)|
    ensures (exists i :: 0 <= i < |lines| && !Gone(edits, i) && FinalIndex(lines, block, edits, i) == n)
            || exists k :: 0 <= k < |edits| && edits[k].action == Add && AddPosition(lines, block, edits) + Rank(edits, k) == n
  {
    hide Acceptable, SetsWrite, AddsWrite, AddPosition, FinalIndex, Edited, Gone, AddsOf;
    EditedFrom(lines, block, edits, n);
    var p := AddPosition(lines, block, edits);
    assert edits[..|edits|] == edits;
    if p <= n < p + |AddsOf(edits)| {
      var k := EveryRank(edits, |edits|, n - p);
    } else {
      var i :| 0 <= i < |lines| && i !in Removed(edits) && FinalIndex(lines, block, edits, i) == n;
      GoneIff(edits, i);
    }
  }

  /** Accepted edits make of the file exactly what they ask for. */
  lemma EditedTells(lines: seq<Line>, block: Block, edits: seq<FieldEdit>)
    requires IsBlock(lines, block) && Acceptable(lines, block, edits) && Writes(lines, edits)
    ensures EditedAs(lines, block, edits, Edited(lines, block, edits), Place(lines, block, edits), AddedPlace(lines, block, edits))
  {
    hide Acceptable, Writes, AddPosition, FinalIndex, Edited, Gone, AddsOf, Carried, Appended, Below, Removed, Rank;
    var edited, place, added := Edited(lines, block, edits), Place(lines, block, edits), AddedPlace(lines, block, edits);
    forall i | 0 <= i < |lines| && !Gone(edits, i) ensures 0 <= place[i] < |edited| && Carried(lines, edits, i, edited[place[i]]) {
      LineCarried(lines, block, edits, i);
    }
    forall k | 0 <= k < |edits| && edits[k].action == Add ensures 0 <= added[k] < |edited| && Appended(lines, block, edits, k, edited[added[k]]) {
      LineAppended(lines, block, edits, k);
    }
    forall i, j | 0 <= i < j < |lines| && !Gone(edits, i) && !Gone(edits, j) ensures place[i] < place[j] {
      GoneIff(edits, i);
      FinalOrder(lines, block, edits, i, j);
    }
    forall k, m | 0 <= k < m < |edits| && edits[k].action == Add && edits[m].action == Add ensures added[k] < added[m] {
      RankGrows(edits, k, m);
    }
    forall i, k | 0 <= i < |lines| && !Gone(edits, i) && 0 <= k < |edits| && edits[k].action == Add
      ensures (place[i] < added[k] || added[k] < place[i]) && (added[k] < place[i] <==> Below(lines, block, edits, i))
    {
      PlacesApart(lines, block, edits, i, k);
    }
    forall n | 0 <= n < |edited| ensures Accounted(lines, edits, place, added, n) {
      Covered(lines, block, edits, n);
      if i :| 0 <= i < |lines| && !Gone(edits, i) && FinalIndex(lines, block, edits, i) == n { assert place[i] == n; }
      if k :| 0 <= k < |edits| && edits[k].action == Add && AddPosition(lines, block, edits) + Rank(edits, k) == n { assert added[k] == n; }
    }
  }
}
