/** The line diff of a save preview. */
module Diff {
  // The line diff of a save preview: a longest-common-subsequence table filled from
  // the bottom right, then one walk over it.  A diff is any script whose kept and
  // deleted lines spell the old text and whose kept and inserted lines spell the new
  // one; the theorems compare the computed script with every other script.

  const MAX_DIFF_LINES: nat := 4000

  datatype Op = Context | Insert | Delete

  /** One displayed line; a line number is 1-based and 0 on the side that lacks the line. */
  datatype DiffLine = DiffLine(op: Op, text: string, oldLine: nat, newLine: nat)

  function Before(script: seq<DiffLine>): (lines: seq<string>)
    ensures |lines| <= |script|
  {
    if script == [] then []
    else
      var last := script[|script| - 1];
      Before(script[..|script| - 1]) + (if last.op == Insert then [] else [last.text])
  }

  function After(script: seq<DiffLine>): (lines: seq<string>)
    ensures |lines| <= |script|
  {
    if script == [] then []
    else
      var last := script[|script| - 1];
      After(script[..|script| - 1]) + (if last.op == Delete then [] else [last.text])
  }

  function Contexts(script: seq<DiffLine>): nat {
    if script == [] then 0
    else Contexts(script[..|script| - 1]) + (if script[|script| - 1].op == Context then 1 else 0)
  }

  /** Every line carries its true position on each side it belongs to. */
  ghost predicate Numbered(script: seq<DiffLine>) {
    script != [] ==>
      var line, shorter := script[|script| - 1], script[..|script| - 1];
      && Numbered(shorter)
      && line.oldLine == (if line.op == Insert then 0 else |Before(shorter)| + 1)
      && line.newLine == (if line.op == Delete then 0 else |After(shorter)| + 1)
  }

  ghost predicate IsDiff(script: seq<DiffLine>, before: seq<string>, after: seq<string>) {
    Before(script) == before && After(script) == after && Numbered(script)
  }

  /** The length of a longest common subsequence of before[i..] and after[j..]. */
  function Lcs(before: seq<string>, after: seq<string>, i: nat, j: nat): nat
    requires i <= |before| && j <= |after|
    decreases |before| - i + |after| - j
  {
    if i == |before| || j == |after| then 0
    else if before[i] == after[j] then Lcs(before, after, i + 1, j + 1) + 1
    else
      var skipOld, skipNew := Lcs(before, after, i + 1, j), Lcs(before, after, i, j + 1);
      if skipOld >= skipNew then skipOld else skipNew
  }

  /** Ties are settled the same way everywhere: equal lines are kept, and an old
      line is deleted before a new one is inserted unless that costs a kept line. */
  ghost predicate Eager(script: seq<DiffLine>, before: seq<string>, after: seq<string>) {
    script != [] ==>
      var shorter := script[..|script| - 1];
      && Eager(shorter, before, after)
      && EagerStep(script[|script| - 1].op, before, after, |Before(shorter)|, |After(shorter)|)
  }

  ghost predicate EagerStep(op: Op, before: seq<string>, after: seq<string>, i: nat, j: nat) {
    i < |before| && j < |after| ==>
      && (op == Context <==> before[i] == after[j])
      && (op == Insert ==> Lcs(before, after, i + 1, j) < Lcs(before, after, i, j + 1))
      && (op == Delete ==> Lcs(before, after, i + 1, j) >= Lcs(before, after, i, j + 1))
  }

  // ---- every diff against the table ----

  lemma {:induction false} LcsNeighbours(before: seq<string>, after: seq<string>, i: nat, j: nat)
    requires i <= |before| && j <= |after|
    ensures i < |before| ==> Lcs(before, after, i + 1, j) <= Lcs(before, after, i, j) <= Lcs(before, after, i + 1, j) + 1
    ensures j < |after| ==> Lcs(before, after, i, j + 1) <= Lcs(before, after, i, j) <= Lcs(before, after, i, j + 1) + 1
    decreases |before| - i + |after| - j
  {
    if i < |before| { LcsNeighbours(before, after, i + 1, j); }
    if j < |after| { LcsNeighbours(before, after, i, j + 1); }
    if i < |before| && j < |after| { LcsNeighbours(before, after, i + 1, j + 1); }
  }

  /** One step of a diff that still fits never gains on the table. */
  lemma StepBound(before: seq<string>, after: seq<string>, i: nat, j: nat, line: DiffLine)
    requires i <= |before| && j <= |after|
    requires line.op != Insert ==> i < |before| && before[i] == line.text
    requires line.op != Delete ==> j < |after| && after[j] == line.text
    ensures var i', j' := if line.op == Insert then i else i + 1, if line.op == Delete then j else j + 1;
            (if line.op == Context then 1 else 0) + Lcs(before, after, i', j') <= Lcs(before, after, i, j)
  {
    LcsNeighbours(before, after, i, j);
  }

  lemma {:induction false} PrefixBound(script: seq<DiffLine>, before: seq<string>, after: seq<string>)
    requires Before(script) <= before && After(script) <= after
    ensures Contexts(script) + Lcs(before, after, |Before(script)|, |After(script)|) <= Lcs(before, after, 0, 0)
  {
    if script != [] {
      var line, shorter := script[|script| - 1], script[..|script| - 1];
      PrefixBound(shorter, before, after);
      StepBound(before, after, |Before(shorter)|, |After(shorter)|, line);
    }
  }

  /** No diff of the two texts keeps more lines than the table says. */
  lemma NoDiffKeepsMore(script: seq<DiffLine>, before: seq<string>, after: seq<string>)
    requires Before(script) == before && After(script) == after
    ensures Contexts(script) <= Lcs(before, after, 0, 0)
  {
    PrefixBound(script, before, after);
  }

  lemma {:induction false} ScriptLength(script: seq<DiffLine>)
    ensures |script| + Contexts(script) == |Before(script)| + |After(script)|
  {
    if script != [] { ScriptLength(script[..|script| - 1]); }
  }

  /** So a diff that keeps as many lines as the table says is a shortest diff. */
  lemma MostKeptIsShortest(best: seq<DiffLine>, other: seq<DiffLine>, before: seq<string>, after: seq<string>)
    requires IsDiff(best, before, after) && Contexts(best) == Lcs(before, after, 0, 0)
    requires Before(other) == before && After(other) == after
    ensures |best| <= |other|
  {
    NoDiffKeepsMore(other, before, after);
    ScriptLength(best);
    ScriptLength(other);
  }

  // ---- the two ways of building a diff ----

  /** The script so far spells before[..i] and after[..j]. */
  ghost predicate Upto(script: seq<DiffLine>, before: seq<string>, after: seq<string>, i: nat, j: nat)
    requires i <= |before| && j <= |after|
  {
    Before(script) == before[..i] && After(script) == after[..j] && Numbered(script)
  }

  lemma Append(script: seq<DiffLine>, line: DiffLine, before: seq<string>, after: seq<string>, i: nat, j: nat)
    requires i <= |before| && j <= |after| && Upto(script, before, after, i, j)
    requires line.op != Insert ==> i < |before| && before[i] == line.text
    requires line.op != Delete ==> j < |after| && after[j] == line.text
    requires line.oldLine == (if line.op == Insert then 0 else i + 1)
    requires line.newLine == (if line.op == Delete then 0 else j + 1)
    ensures Upto(script + [line], before, after,
                 if line.op == Insert then i else i + 1, if line.op == Delete then j else j + 1)
    ensures Contexts(script + [line]) == Contexts(script) + (if line.op == Context then 1 else 0)
    ensures Eager(script, before, after) && EagerStep(line.op, before, after, i, j)
            ==> Eager(script + [line], before, after)
  {
    hide Before, After, Contexts, Numbered, Eager, EagerStep;
    Unfold(script, line);
    assert |Before(script)| == i && |After(script)| == j;
    if line.op != Insert { assert before[..i + 1] == before[..i] + [line.text]; }
    if line.op != Delete { assert after[..j + 1] == after[..j] + [line.text]; }
    EagerUnfold(script, line, before, after);
  }

  lemma Unfold(script: seq<DiffLine>, line: DiffLine)
    ensures Before(script + [line]) == Before(script) + (if line.op == Insert then [] else [line.text])
    ensures After(script + [line]) == After(script) + (if line.op == Delete then [] else [line.text])
    ensures Contexts(script + [line]) == Contexts(script) + (if line.op == Context then 1 else 0)
    ensures Numbered(script + [line]) <==>
            && Numbered(script)
            && line.oldLine == (if line.op == Insert then 0 else |Before(script)| + 1)
            && line.newLine == (if line.op == Delete then 0 else |After(script)| + 1)
  {
    assert (script + [line])[..|script|] == script;
  }

  lemma EagerUnfold(script: seq<DiffLine>, line: DiffLine, before: seq<string>, after: seq<string>)
    ensures Eager(script + [line], before, after) <==>
            Eager(script, before, after) && EagerStep(line.op, before, after, |Before(script)|, |After(script)|)
  {
    assert (script + [line])[..|script|] == script;
  }

  ghost predicate RowFilled(table: array2<nat>, before: seq<string>, after: seq<string>, i: nat)
    requires table.Length0 == |before| + 1 && table.Length1 == |after| + 1 && i <= |before|
    reads table
  {
    forall j :: 0 <= j <= |after| ==> table[i, j] == Lcs(before, after, i, j)
  }

  method FillRow(table: array2<nat>, before: seq<string>, after: seq<string>, beforeIndex: nat)
    requires table.Length0 == |before| + 1 && table.Length1 == |after| + 1 && beforeIndex < |before|
    requires RowFilled(table, before, after, beforeIndex + 1) && table[beforeIndex, |after|] == 0
    modifies table
    ensures RowFilled(table, before, after, beforeIndex)
    ensures forall i, j :: 0 <= i <= |before| && i != beforeIndex && 0 <= j <= |after| ==> table[i, j] == old(table[i, j])
  {
    var afterIndex := |after|;
    while afterIndex > 0
      invariant 0 <= afterIndex <= |after|
      invariant forall i, j :: 0 <= i <= |before| && i != beforeIndex && 0 <= j <= |after| ==> table[i, j] == old(table[i, j])
      invariant forall j :: afterIndex <= j <= |after| ==> table[beforeIndex, j] == Lcs(before, after, beforeIndex, j)
    {
      afterIndex := afterIndex - 1;
      assert table[beforeIndex + 1, afterIndex] == Lcs(before, after, beforeIndex + 1, afterIndex);
      assert table[beforeIndex + 1, afterIndex + 1] == Lcs(before, after, beforeIndex + 1, afterIndex + 1);
      if before[beforeIndex] == after[afterIndex] {
        table[beforeIndex, afterIndex] := table[beforeIndex + 1, afterIndex + 1] + 1;
      } else if table[beforeIndex + 1, afterIndex] >= table[beforeIndex, afterIndex + 1] {
        table[beforeIndex, afterIndex] := table[beforeIndex + 1, afterIndex];
      } else {
        table[beforeIndex, afterIndex] := table[beforeIndex, afterIndex + 1];
      }
    }
  }

  method FillTable(before: seq<string>, after: seq<string>) returns (table: array2<nat>)
    ensures fresh(table) && table.Length0 == |before| + 1 && table.Length1 == |after| + 1
    ensures forall i :: 0 <= i <= |before| ==> RowFilled(table, before, after, i)
  {
    table := new nat[|before| + 1, |after| + 1]((i, j) => 0);
    var beforeIndex := |before|;
    while beforeIndex > 0
      invariant 0 <= beforeIndex <= |before|
      invariant forall i :: 0 <= i < beforeIndex ==> table[i, |after|] == 0
      invariant forall i :: beforeIndex <= i <= |before| ==> RowFilled(table, before, after, i)
    {
      beforeIndex := beforeIndex - 1;
      label Above:
      FillRow(table, before, after, beforeIndex);
      forall i | beforeIndex < i <= |before| ensures RowFilled(table, before, after, i) {
        assert old@Above(RowFilled(table, before, after, i));
      }
    }
  }

  /** Within the size limit the script is a shortest diff; past it, a whole
      replacement, which is a diff too but keeps nothing. */
  method DiffLines(before: seq<string>, after: seq<string>) returns (lines: seq<DiffLine>)
    ensures IsDiff(lines, before, after)
    ensures |before| <= MAX_DIFF_LINES && |after| <= MAX_DIFF_LINES ==>
              Contexts(lines) == Lcs(before, after, 0, 0) && Eager(lines, before, after)
    ensures |before| > MAX_DIFF_LINES || |after| > MAX_DIFF_LINES ==> Contexts(lines) == 0
  {
    if |before| > MAX_DIFF_LINES || |after| > MAX_DIFF_LINES {
      lines := ReplacementDiff(before, after);
      return;
    }
    var table := FillTable(before, after);
    hide Before, After, Numbered, EagerStep;
    lines := [];
    var beforeIndex, afterIndex := 0, 0;
    while beforeIndex < |before| && afterIndex < |after|
      invariant 0 <= beforeIndex <= |before| && 0 <= afterIndex <= |after|
      invariant Upto(lines, before, after, beforeIndex, afterIndex) && Eager(lines, before, after)
      invariant Contexts(lines) + Lcs(before, after, beforeIndex, afterIndex) == Lcs(before, after, 0, 0)
      decreases |before| - beforeIndex + |after| - afterIndex
      modifies {}
    {
      assert RowFilled(table, before, after, beforeIndex) && RowFilled(table, before, after, beforeIndex + 1);
      var skipOld, skipNew := table[beforeIndex + 1, afterIndex], table[beforeIndex, afterIndex + 1];
      var line := if before[beforeIndex] == after[afterIndex] then
                    DiffLine(Context, before[beforeIndex], beforeIndex + 1, afterIndex + 1)
                  else if skipOld >= skipNew then DiffLine(Delete, before[beforeIndex], beforeIndex + 1, 0)
                  else DiffLine(Insert, after[afterIndex], 0, afterIndex + 1);
      Append(lines, line, before, after, beforeIndex, afterIndex);
      lines := lines + [line];
      if line.op != Insert { beforeIndex := beforeIndex + 1; }
      if line.op != Delete { afterIndex := afterIndex + 1; }
    }
    lines := DeleteRest(lines, before, after, beforeIndex, afterIndex);
    lines := InsertRest(lines, before, after, |before|, afterIndex);
  }

  method DeleteRest(start: seq<DiffLine>, before: seq<string>, after: seq<string>, i: nat, j: nat)
      returns (lines: seq<DiffLine>)
    requires i <= |before| && j <= |after| && Upto(start, before, after, i, j)
    ensures Upto(lines, before, after, |before|, j) && Contexts(lines) == Contexts(start)
    ensures (i == |before| || j == |after|) && Eager(start, before, after) ==> Eager(lines, before, after)
    ensures forall k :: |start| <= k < |lines| ==> lines[k].op == Delete
    ensures start <= lines
  {
    lines := start;
    var beforeIndex := i;
    while beforeIndex < |before|
      invariant i <= beforeIndex <= |before|
      invariant Upto(lines, before, after, beforeIndex, j) && Contexts(lines) == Contexts(start)
      invariant (i == |before| || j == |after|) && Eager(start, before, after) ==> Eager(lines, before, after)
      invariant start <= lines && forall k :: |start| <= k < |lines| ==> lines[k].op == Delete
    {
      var line := DiffLine(Delete, before[beforeIndex], beforeIndex + 1, 0);
      Append(lines, line, before, after, beforeIndex, j);
      lines := lines + [line];
      beforeIndex := beforeIndex + 1;
    }
  }

  method InsertRest(start: seq<DiffLine>, before: seq<string>, after: seq<string>, i: nat, j: nat)
      returns (lines: seq<DiffLine>)
    requires i <= |before| && j <= |after| && Upto(start, before, after, i, j)
    ensures Upto(lines, before, after, i, |after|) && Contexts(lines) == Contexts(start)
    ensures i == |before| && Eager(start, before, after) ==> Eager(lines, before, after)
    ensures i == |before| ==> IsDiff(lines, before, after)
    ensures forall k :: |start| <= k < |lines| ==> lines[k].op == Insert
    ensures start <= lines
  {
    lines := start;
    var afterIndex := j;
    while afterIndex < |after|
      invariant j <= afterIndex <= |after|
      invariant Upto(lines, before, after, i, afterIndex) && Contexts(lines) == Contexts(start)
      invariant i == |before| && Eager(start, before, after) ==> Eager(lines, before, after)
      invariant start <= lines && forall k :: |start| <= k < |lines| ==> lines[k].op == Insert
    {
      var line := DiffLine(Insert, after[afterIndex], 0, afterIndex + 1);
      Append(lines, line, before, after, i, afterIndex);
      lines := lines + [line];
      afterIndex := afterIndex + 1;
    }
    assert before[..|before|] == before && after[..|after|] == after;
  }

  /** Every old line out, then every new line in. */
  method ReplacementDiff(before: seq<string>, after: seq<string>) returns (lines: seq<DiffLine>)
    ensures IsDiff(lines, before, after) && Contexts(lines) == 0
    ensures |lines| == |before| + |after|
    ensures forall k :: 0 <= k < |lines| ==> lines[k].op == if k < |before| then Delete else Insert
  {
    var deletes := DeleteRest([], before, after, 0, 0);
    lines := InsertRest(deletes, before, after, |before|, 0);
    ScriptLength(deletes);
    ScriptLength(lines);
    assert forall k :: 0 <= k < |deletes| ==> lines[k] == deletes[k];
  }

  /** The whole replacement is a shortest diff exactly when the texts share no line. */
  lemma ReplacementShortestIffNothingShared(before: seq<string>, after: seq<string>)
    ensures Lcs(before, after, 0, 0) == 0 <==> forall line :: line in before ==> line !in after
  {
    if exists line :: line in before && line in after {
      var line :| line in before && line in after;
      var i :| 0 <= i < |before| && before[i] == line;
      var j :| 0 <= j < |after| && after[j] == line;
      LcsFromCorner(before, after, i, j);
    }
    NothingShared(before, after, 0, 0);
  }

  lemma {:induction false} LcsFromCorner(before: seq<string>, after: seq<string>, i: nat, j: nat)
    requires i <= |before| && j <= |after|
    ensures Lcs(before, after, 0, 0) >= Lcs(before, after, i, j)
    decreases i + j
  {
    if i > 0 {
      LcsNeighbours(before, after, i - 1, j);
      LcsFromCorner(before, after, i - 1, j);
    } else if j > 0 {
      LcsNeighbours(before, after, i, j - 1);
      LcsFromCorner(before, after, i, j - 1);
    }
  }

  lemma {:induction false} NothingShared(before: seq<string>, after: seq<string>, i: nat, j: nat)
    requires i <= |before| && j <= |after|
    ensures (forall line :: line in before ==> line !in after) ==> Lcs(before, after, i, j) == 0
    decreases |before| - i + |after| - j
  {
    if i < |before| && j < |after| {
      NothingShared(before, after, i + 1, j);
      NothingShared(before, after, i, j + 1);
      assert before[i] in before && after[j] in after;
    }
  }
}
