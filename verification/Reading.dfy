/** What a file gives an alias. */
module Reading {
  // What a file gives an alias: the settings of the blocks that match it, in file order.
  // The first value of a keyword wins; a few keywords accumulate.

  import opened Results
  import opened Text
  import opened Syntax
  import opened Matcher
  import opened Blocks

  datatype Entry = Entry(keyword: string, values: seq<string>)

  predicate IsInclude(line: Line) { IsKeywordLine(line, "Include") }

  /** The entries of the lines below a header that matches (`applies`) or does not. */
  ghost function Entries(lines: seq<Line>, alias: string, applies: bool): seq<Entry> {
    if lines == [] then []
    else
      var line, rest := lines[0], lines[1..];
      if IsHeader(line) then Entries(rest, alias, IsHost(line) && HostLineMatches(ParsePatterns(line.Values()), alias))
      else if applies && line.kind == Directive && !IsInclude(line) then
        [Entry(Lower(line.keyword), line.Values())] + Entries(rest, alias, applies)
      else Entries(rest, alias, applies)
  }

  /** Two lines that say the same. */
  predicate Agrees(a: Line, b: Line) {
    a.kind == b.kind && (a.kind == Directive ==> a.keyword == b.keyword && a.Values() == b.Values())
  }

  lemma {:induction false} AgreeingEntries(a: seq<Line>, b: seq<Line>, alias: string, applies: bool)
    requires |a| == |b| && forall i :: 0 <= i < |a| ==> Agrees(a[i], b[i])
    ensures Entries(a, alias, applies) == Entries(b, alias, applies)
  {
    hide EqualFold, HostLineMatches, ParsePatterns;
    if a != [] {
      assert Agrees(a[0], b[0]);
      forall i | 0 <= i < |a| - 1 ensures Agrees(a[1..][i], b[1..][i]) {
        assert Agrees(a[i + 1], b[i + 1]);
      }
      AgreeingEntries(a[1..], b[1..], alias, true);
      AgreeingEntries(a[1..], b[1..], alias, false);
    }
  }

  function FirstFor(entries: seq<Entry>, keyword: string): Option<seq<string>> {
    if entries == [] then None
    else if entries[0].keyword == keyword then Some(entries[0].values)
    else FirstFor(entries[1..], keyword)
  }

  function AllFor(entries: seq<Entry>, keyword: string): seq<seq<string>> {
    if entries == [] then []
    else (if entries[0].keyword == keyword then [entries[0].values] else []) + AllFor(entries[1..], keyword)
  }

  lemma {:induction false} ForAppend(front: seq<Entry>, back: seq<Entry>, keyword: string)
    ensures FirstFor(front + back, keyword) == if FirstFor(front, keyword) == None then FirstFor(back, keyword) else FirstFor(front, keyword)
    ensures AllFor(front + back, keyword) == AllFor(front, keyword) + AllFor(back, keyword)
  {
    if front == [] {
      assert front + back == back;
    } else {
      assert (front + back)[1..] == front[1..] + back;
      ForAppend(front[1..], back, keyword);
    }
  }

  // ---- Host lines that name aliases outright ----

  /** An alias with no pattern byte: it is read as itself. */
  predicate Literal(alias: string) {
    alias != "" && alias[0] != '!' && '*' !in alias && '?' !in alias
  }

  lemma {:induction false} LiteralScan(pattern: string, value: string, p: nat, v: nat)
    requires p <= |pattern| && v <= |value| && '*' !in pattern && '?' !in pattern
    ensures Scan(pattern, value, p, v, -1, 0) <==> pattern[p..] == value[v..]
    decreases |value| - v
  {
    if v == |value| {
      if p < |pattern| { assert pattern[p..][0] != '*'; }
    } else if p < |pattern| && pattern[p] == value[v] {
      LiteralScan(pattern, value, p + 1, v + 1);
      assert pattern[p..] == [pattern[p]] + pattern[p + 1..] && value[v..] == [value[v]] + value[v + 1..];
    } else {
      assert value[v..][0] == value[v];
      assert p < |pattern| ==> pattern[p..][0] == pattern[p];
    }
  }

  lemma LiteralHostLine(members: seq<string>, alias: string)
    requires forall i :: 0 <= i < |members| ==> Literal(members[i])
    ensures HostLineMatches(ParsePatterns(members), alias) <==> alias in members
  {
    var patterns := ParsePatterns(members);
    forall i | 0 <= i < |patterns| ensures !patterns[i].negated && (Matches(patterns[i], alias) <==> members[i] == alias) {
      LiteralScan(members[i], alias, 0, 0);
      assert members[i][0..] == members[i] && alias[0..] == alias;
    }
  }
}
