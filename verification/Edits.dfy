/** Field edits inside one block. */
module Edits {
  // Field edits inside one block: set and remove lines, add new ones after the block's
  // last directive.  The edited file is given in closed form, and the loops, which patch
  // a staged copy step by step, are proved to reach it or to leave the file alone.

  import opened Results
  import opened Text
  import opened Syntax
  import opened Blocks
  import opened Reparse
  import opened Rewriting

  datatype Action = Set | Add | Remove | OtherAction

  /** `line` counts from 1; an empty keyword keeps the one that is there. */
  datatype FieldEdit = FieldEdit(action: Action, line: int, keyword: string, values: seq<string>)

  datatype EditError = OutsideBlock | DuplicateLine | NotDirective | StructuralKeyword
                     | EmptyKeyword | InvalidKeyword | UnknownAction | UnquotableValue

  class File {
    var lines: seq<Line>
    constructor (source: seq<Line>)
      ensures lines == source
    {
      lines := source;
    }
  }

  // ---- keywords ----

  predicate Structural(keyword: string) { Lower(keyword) in {"host", "match", "include"} }

  predicate KeywordChar(keyword: string, i: nat)
    requires i < |keyword|
  {
    || 'a' <= keyword[i] <= 'z' || 'A' <= keyword[i] <= 'Z'
    || (i > 0 && ('0' <= keyword[i] <= '9' || keyword[i] == '-'))
  }

  predicate AllKeywordChars(keyword: string) { forall i :: 0 <= i < |keyword| ==> KeywordChar(keyword, i) }

  function KeywordError(keyword: string): Option<EditError> {
    if keyword == "" then Some(EmptyKeyword)
    else if Structural(keyword) then Some(StructuralKeyword)
    else if |keyword| > 64 || !AllKeywordChars(keyword) then Some(InvalidKeyword)
    else None
  }

  method ValidateKeyword(keyword: string) returns (error: Option<EditError>)
    ensures error == KeywordError(keyword)
  {
    if keyword == "" { return Some(EmptyKeyword); }
    if Structural(keyword) { return Some(StructuralKeyword); }
    if |keyword| > 64 { return Some(InvalidKeyword); }
    for index := 0 to |keyword|
      invariant forall i :: 0 <= i < index ==> KeywordChar(keyword, i)
    {
      if !KeywordChar(keyword, index) { return Some(InvalidKeyword); }
    }
    return None;
  }

  lemma KeywordFits(keyword: string)
    requires KeywordError(keyword) == None
    ensures IsKeyword(keyword) && '\n' !in keyword
    ensures !EqualFold(keyword, "Host") && !EqualFold(keyword, "Match")
  {
    forall i | 0 <= i < |keyword| ensures KeywordByte(keyword[i]) && keyword[i] != '\n' && keyword[i] != '#' {
      assert KeywordChar(keyword, i);
    }
    assert Lower("Host") == "host" && Lower("Match") == "match";
  }

  /** A keyword that may be written: letters, then digits and dashes too, and none that opens a block or reads a file. */
  predicate LegalKeyword(keyword: string) {
    && 0 < |keyword| <= 64
    && !EqualFold(keyword, "Host") && !EqualFold(keyword, "Match") && !EqualFold(keyword, "Include")
    && forall i :: 0 <= i < |keyword| ==>
         'a' <= keyword[i] <= 'z' || 'A' <= keyword[i] <= 'Z' || (i > 0 && ('0' <= keyword[i] <= '9' || keyword[i] == '-'))
  }

  lemma KeywordIff(keyword: string)
    ensures KeywordError(keyword) == None <==> LegalKeyword(keyword)
  {
    assert Lower("Host") == "host" && Lower("Match") == "match" && Lower("Include") == "include";
    forall i | 0 <= i < |keyword|
      ensures KeywordChar(keyword, i) <==>
                'a' <= keyword[i] <= 'z' || 'A' <= keyword[i] <= 'Z' || (i > 0 && ('0' <= keyword[i] <= '9' || keyword[i] == '-'))
    {}
  }

  // ---- which edits are admitted ----

  predicate Targets(edit: FieldEdit) { edit.action == Set || edit.action == Remove }

  function Touched(edits: seq<FieldEdit>): set<int> {
    set k | 0 <= k < |edits| && Targets(edits[k]) :: edits[k].line - 1
  }

  function Problem(lines: seq<Line>, block: Block, touched: set<int>, edit: FieldEdit): Option<EditError> {
    if Targets(edit) then
      var index := edit.line - 1;
      if index < block.start || index >= block.end || index >= |lines| then Some(OutsideBlock)
      else if index in touched then Some(DuplicateLine)
      else if lines[index].kind != Directive then Some(NotDirective)
      else if Structural(lines[index].keyword) then Some(StructuralKeyword)
      else if edit.action == Set && edit.keyword != "" then KeywordError(edit.keyword)
      else None
    else if edit.action == Add then KeywordError(edit.keyword)
    else Some(UnknownAction)
  }

  predicate Admitted(lines: seq<Line>, block: Block, edits: seq<FieldEdit>, k: nat)
    requires k < |edits|
  {
    Problem(lines, block, Touched(edits[..k]), edits[k]) == None
  }

  predicate Acceptable(lines: seq<Line>, block: Block, edits: seq<FieldEdit>) {
    forall k :: 0 <= k < |edits| ==> Admitted(lines, block, edits, k)
  }

  method ValidateFieldEdits(lines: seq<Line>, block: Block, edits: seq<FieldEdit>) returns (error: Option<EditError>)
    ensures error == None <==> Acceptable(lines, block, edits)
    ensures error.Some? ==> exists k :: 0 <= k < |edits| && FirstProblem(lines, block, edits, k) == error
  {
    var touched := {};
    for k := 0 to |edits|
      invariant touched == Touched(edits[..k])
      invariant forall j :: 0 <= j < k ==> Admitted(lines, block, edits, j)
    {
      var edit := edits[k];
      error := None;
      match edit.action {
        case Set | Remove =>
          var index := edit.line - 1;
          if index < block.start || index >= block.end || index >= |lines| { error := Some(OutsideBlock); }
          else if index in touched { error := Some(DuplicateLine); }
          else if lines[index].kind != Directive { error := Some(NotDirective); }
          else if Structural(lines[index].keyword) { error := Some(StructuralKeyword); }
          else if edit.action == Set && edit.keyword != "" { error := ValidateKeyword(edit.keyword); }
        case Add => error := ValidateKeyword(edit.keyword);
        case OtherAction => error := Some(UnknownAction);
      }
      assert error == Problem(lines, block, Touched(edits[..k]), edit);
      if error.Some? {
        assert FirstProblem(lines, block, edits, k) == error && !Admitted(lines, block, edits, k);
        return;
      }
      if Targets(edit) { touched := touched + {edit.line - 1}; }
    }
    error := None;
  }

  /** What is wrong with edit k, when nothing is wrong with those before it. */
  function FirstProblem(lines: seq<Line>, block: Block, edits: seq<FieldEdit>, k: nat): Option<EditError>
    requires k < |edits|
  {
    if forall j :: 0 <= j < k ==> Admitted(lines, block, edits, j) then Problem(lines, block, Touched(edits[..k]), edits[k])
    else None
  }

  // ---- setting lines ----

  function NewKeyword(line: Line, edit: FieldEdit): string { if edit.keyword == "" then line.keyword else edit.keyword }

  function Revised(line: Line, edit: FieldEdit): Line {
    if AllQuotable(edit.values) then Rebuilt(line, NewKeyword(line, edit), edit.values) else line
  }

  predicate SetsAt(edit: FieldEdit, i: int) { edit.action == Set && edit.line - 1 == i }

  /** The set edit of a line, if any. */
  function SetEdit(edits: seq<FieldEdit>, i: int): Option<FieldEdit> {
    if edits == [] then None
    else if SetsAt(edits[|edits| - 1], i) then Some(edits[|edits| - 1])
    else SetEdit(edits[..|edits| - 1], i)
  }

  function AfterSets(lines: seq<Line>, edits: seq<FieldEdit>): (staged: seq<Line>)
    ensures |staged| == |lines|
  {
    seq(|lines|, i requires 0 <= i < |lines| =>
      if SetEdit(edits, i) == None then lines[i] else Revised(lines[i], SetEdit(edits, i).value))
  }

  function SetError(lines: seq<Line>, edit: FieldEdit): Option<EditError> {
    if edit.action != Set || !(0 <= edit.line - 1 < |lines|) then None
    else if KeywordError(NewKeyword(lines[edit.line - 1], edit)).Some? then KeywordError(NewKeyword(lines[edit.line - 1], edit))
    else if AllQuotable(edit.values) then None
    else Some(UnquotableValue)
  }

  predicate SetsWrite(lines: seq<Line>, edits: seq<FieldEdit>) {
    forall k :: 0 <= k < |edits| ==> SetError(lines, edits[k]) == None
  }

  predicate AddsWrite(edits: seq<FieldEdit>) {
    forall k :: 0 <= k < |edits| && edits[k].action == Add ==> AllQuotable(edits[k].values)
  }

  lemma {:induction false} NotTouchedNotSet(edits: seq<FieldEdit>, i: int)
    requires i !in Touched(edits)
    ensures SetEdit(edits, i) == None
  {
    if edits != [] {
      var n := |edits| - 1;
      assert edits[..n + 1] == edits;
      NotTouchedNotSet(edits[..n], i);
    }
  }

  lemma SetNext(lines: seq<Line>, block: Block, edits: seq<FieldEdit>, k: nat)
    requires k < |edits| && Acceptable(lines, block, edits) && edits[k].action == Set
    ensures var i := edits[k].line - 1;
            && 0 <= i < |lines| && AfterSets(lines, edits[..k])[i] == lines[i]
            && AfterSets(lines, edits[..k + 1]) == AfterSets(lines, edits[..k])[i := Revised(lines[i], edits[k])]
  {
    hide Revised, KeywordError;
    assert Admitted(lines, block, edits, k);
    NotTouchedNotSet(edits[..k], edits[k].line - 1);
    assert edits[..k + 1][..k] == edits[..k];
  }

  lemma NotSetNext(lines: seq<Line>, edits: seq<FieldEdit>, k: nat)
    requires k < |edits| && edits[k].action != Set
    ensures AfterSets(lines, edits[..k + 1]) == AfterSets(lines, edits[..k])
  {
    hide Revised;
    assert edits[..k + 1][..k] == edits[..k];
  }

  method ApplySets(lines: seq<Line>, block: Block, edits: seq<FieldEdit>) returns (staged: seq<Line>, error: Option<EditError>)
    requires Acceptable(lines, block, edits)
    ensures error == None <==> SetsWrite(lines, edits)
    ensures error == None ==> staged == AfterSets(lines, edits)
    ensures error.Some? ==> exists k :: 0 <= k < |edits| && SetError(lines, edits[k]) == error
  {
    hide Acceptable, AfterSets, KeywordError, Rebuilt;
    staged := lines;
    assert AfterSets(lines, edits[..0]) == lines by { NothingSet(lines); }
    for k := 0 to |edits|
      invariant staged == AfterSets(lines, edits[..k])
      invariant forall j :: 0 <= j < k ==> SetError(lines, edits[j]) == None
    {
      var edit := edits[k];
      if edit.action == Set {
        SetNext(lines, block, edits, k);
        var index := edit.line - 1;
        var keyword := if edit.keyword != "" then edit.keyword else staged[index].keyword;
        error := ValidateKeyword(keyword);
        if error.Some? {
          assert SetError(lines, edits[k]) == error;
          return;
        }
        var rebuilt, ok := RebuildLine(staged[index], keyword, edit.values);
        if !ok {
          assert SetError(lines, edits[k]) == Some(UnquotableValue);
          return staged, Some(UnquotableValue);
        }
        staged := staged[index := rebuilt];
      } else {
        NotSetNext(lines, edits, k);
      }
    }
    assert edits[..|edits|] == edits;
    error := None;
  }

  lemma NothingSet(lines: seq<Line>)
    ensures AfterSets(lines, []) == lines
  {}

  // ---- removing lines ----

  function Removed(edits: seq<FieldEdit>): set<int> {
    set k | 0 <= k < |edits| && edits[k].action == Remove :: edits[k].line - 1
  }

  function Keep(lines: seq<Line>, gone: set<int>): (kept: seq<Line>)
    ensures |kept| <= |lines|
  {
    if lines == [] then []
    else
      var n := |lines| - 1;
      Keep(lines[..n], gone) + if n in gone then [] else [lines[n]]
  }

  /** Where a kept line moves to. */
  function KeptIndex(gone: set<int>, i: nat): (n: nat)
    ensures n <= i
  {
    if i == 0 then 0 else KeptIndex(gone, i - 1) + if i - 1 in gone then 0 else 1
  }

  lemma {:induction false} KeptAt(lines: seq<Line>, gone: set<int>, i: nat)
    requires i <= |lines|
    ensures KeptIndex(gone, |lines|) == |Keep(lines, gone)|
    ensures i < |lines| && i !in gone ==> KeptIndex(gone, i) < |Keep(lines, gone)| && Keep(lines, gone)[KeptIndex(gone, i)] == lines[i]
    decreases |lines|
  {
    if lines != [] {
      var n := |lines| - 1;
      KeptAt(lines[..n], gone, if i < n then i else n);
    }
  }

  lemma {:induction false} KeptOrder(gone: set<int>, i: nat, j: nat)
    requires i < j && i !in gone
    ensures KeptIndex(gone, i) < KeptIndex(gone, j)
    decreases j
  {
    if i < j - 1 { KeptOrder(gone, i, j - 1); }
  }

  /** Every line that is left comes from one that was kept. */
  lemma {:induction false} KeptFrom(lines: seq<Line>, gone: set<int>, n: nat) returns (i: nat)
    requires n < |Keep(lines, gone)|
    ensures i < |lines| && i !in gone && KeptIndex(gone, i) == n
  {
    var m := |lines| - 1;
    KeptAt(lines[..m], gone, m);
    if n < |Keep(lines[..m], gone)| { i := KeptFrom(lines[..m], gone, n); } else { i := m; }
  }

  lemma {:induction false} KeepPrefix(lines: seq<Line>, gone: set<int>, i: nat)
    requires i <= |lines| && forall g :: g in gone ==> g >= i
    ensures |Keep(lines, gone)| >= i && Keep(lines, gone)[..i] == lines[..i]
  {
    if i == |lines| {
      KeepAll(lines, gone);
    } else {
      KeepPrefix(lines[..|lines| - 1], gone, i);
    }
  }

  lemma {:induction false} DropOne(lines: seq<Line>, gone: set<int>, i: nat)
    requires i < |lines| && i !in gone && forall g :: g in gone ==> g > i
    ensures |Keep(lines, gone)| > i
    ensures Keep(lines, gone + {i}) == Keep(lines, gone)[..i] + Keep(lines, gone)[i + 1..]
  {
    var n := |lines| - 1;
    if i == n {
      KeepAll(lines[..n], gone);
      KeepAll(lines[..n], gone + {i});
    } else {
      DropOne(lines[..n], gone, i);
    }
  }

  lemma {:induction false} KeepAll(lines: seq<Line>, gone: set<int>)
    requires forall g :: g in gone ==> g >= |lines|
    ensures Keep(lines, gone) == lines
  {
    if lines != [] {
      KeepAll(lines[..|lines| - 1], gone);
    }
  }

  predicate Descending(indices: seq<int>) {
    forall i, j :: 0 <= i < j < |indices| ==> indices[i] > indices[j]
  }

  function SetOf(indices: seq<int>): set<int> { set i | 0 <= i < |indices| :: indices[i] }

  lemma SetOfNext(indices: seq<int>, more: int)
    ensures SetOf(indices + [more]) == SetOf(indices) + {more}
  {
    var all := indices + [more];
    assert all[|indices|] == more;
    forall x | x in SetOf(indices) ensures x in SetOf(all) {
      var i :| 0 <= i < |indices| && indices[i] == x;
      assert all[i] == x;
    }
  }

  lemma SetOfMember(indices: seq<int>, x: int)
    ensures x in indices <==> x in SetOf(indices)
  {}

  method InsertDescending(sorted: seq<int>, index: int) returns (r: seq<int>)
    requires Descending(sorted) && index !in sorted
    ensures Descending(r) && SetOf(r) == SetOf(sorted) + {index}
  {
    var i := 0;
    while i < |sorted| && sorted[i] > index
      invariant 0 <= i <= |sorted| && forall j :: 0 <= j < i ==> sorted[j] > index
    {
      i := i + 1;
    }
    r := sorted[..i] + [index] + sorted[i..];
    assert forall j :: i <= j < |sorted| ==> r[j + 1] == sorted[j];
    forall x | x in SetOf(sorted) + {index} ensures x in SetOf(r) {
      if x == index { assert r[i] == x; }
      else {
        var j :| 0 <= j < |sorted| && sorted[j] == x;
        assert r[if j < i then j else j + 1] == x;
      }
    }
  }

  method CollectRemovals(lines: seq<Line>, block: Block, edits: seq<FieldEdit>) returns (removals: seq<int>)
    requires Acceptable(lines, block, edits)
    ensures Descending(removals) && SetOf(removals) == Removed(edits)
  {
    removals := [];
    for k := 0 to |edits|
      invariant Descending(removals) && SetOf(removals) == Removed(edits[..k])
    {
      RemovedNext(lines, block, edits, k);
      if edits[k].action == Remove {
        SetOfMember(removals, edits[k].line - 1);
        removals := InsertDescending(removals, edits[k].line - 1);
      }
    }
    assert edits[..|edits|] == edits;
  }

  lemma RemovedNext(lines: seq<Line>, block: Block, edits: seq<FieldEdit>, k: nat)
    requires k < |edits| && Acceptable(lines, block, edits)
    ensures Removed(edits[..k + 1]) == Removed(edits[..k]) + (if edits[k].action == Remove then {edits[k].line - 1} else {})
    ensures edits[k].action == Remove ==> edits[k].line - 1 !in Removed(edits[..k])
  {
    assert Admitted(lines, block, edits, k);
    var before, next := Removed(edits[..k]), Removed(edits[..k + 1]);
    assert edits[k].action == Remove ==> edits[..k + 1][k].line - 1 in next;
    forall i | i in before ensures i in next && i in Touched(edits[..k]) {
      var j :| 0 <= j < k && edits[j].action == Remove && edits[j].line - 1 == i;
      assert edits[..k + 1][j] == edits[j] == edits[..k][j];
    }
  }

  method ApplyRemovals(lines: seq<Line>, removals: seq<int>) returns (staged: seq<Line>)
    requires Descending(removals) && forall i :: 0 <= i < |removals| ==> 0 <= removals[i] < |lines|
    ensures staged == Keep(lines, SetOf(removals))
  {
    staged := lines;
    KeepAll(lines, SetOf(removals[..0]));
    for k := 0 to |removals|
      invariant staged == Keep(lines, SetOf(removals[..k]))
    {
      var index := removals[k];
      DropOne(lines, SetOf(removals[..k]), index);
      SetOfNext(removals[..k], index);
      assert removals[..k + 1] == removals[..k] + [index];
      staged := staged[..index] + staged[index + 1..];
    }
    assert removals[..|removals|] == removals;
  }
}
