/** The explained values, line by line. */
module Explained {
  // Which lines the explanation of an alias lists, in terms of the lines themselves: no
  // parsed pattern, no kept hit.  A block's values are explained for exactly the aliases
  // that its header's values match and none of its negated values excludes.

  import opened Results
  import opened Text
  import opened Syntax
  import opened Matcher
  import opened Blocks
  import opened Reading
  import opened Names
  import opened Includes
  import opened Walks
  import opened Attribution

  /** The visited line gives the alias a value: it is a setting, in the file's first block or below a
      Host line whose values match. */
  ghost predicate Gives(nodes: Nodes, v: Visit, alias: string) {
    var lines := LinesOf(nodes, v.path);
    && v.index < |lines| && lines[v.index].kind == Directive
    && !EqualFold(lines[v.index].keyword, "Host") && !EqualFold(lines[v.index].keyword, "Match") && !EqualFold(lines[v.index].keyword, "Include")
    && (v.header == -1
        || (0 <= v.header < |lines| && lines[v.header].kind == Directive && EqualFold(lines[v.header].keyword, "Host")
            && ValuesMatch(lines[v.header].Values(), alias)))
  }

  lemma GivesIff(nodes: Nodes, v: Visit, alias: string)
    requires '*' !in alias
    ensures Gives(nodes, v, alias) <==> IsPlain(nodes, v) && HeaderApplies(nodes, v.path, v.header, alias)
  {
    hide HostLineMatches, ValuesMatch, NextHeader, Line.Values;
    var lines := LinesOf(nodes, v.path);
    if 0 <= v.header < |lines| { HostLineIff(lines[v.header].Values(), alias); }
    assert Lower("Host") == "host" && Lower("Match") == "match";
  }

  ghost predicate Hits(nodes: Nodes, v: Visit, alias: string, hit: Hit) {
    Gives(nodes, v, alias) && hit.path == v.path && hit.index == v.index && hit.keyword == Lower(LinesOf(nodes, v.path)[v.index].keyword)
  }

  /** Line k of the walk gives this hit, and no line before it gives the keyword a value. */
  ghost predicate FirstGiving(nodes: Nodes, visits: seq<Visit>, alias: string, k: int, hit: Hit) {
    && 0 <= k < |visits| && Hits(nodes, visits[k], alias, hit)
    && forall j :: 0 <= j < k && Gives(nodes, visits[j], alias) ==> KeywordAt(nodes, visits[j].path, visits[j].index) != hit.keyword
  }

  lemma HeadHit(nodes: Nodes, visits: seq<Visit>, alias: string, hit: Hit)
    requires '*' !in alias && visits != []
    ensures var v := visits[0];
            EffectiveHits(nodes, visits, alias) ==
              (if Gives(nodes, v, alias) then [Hit(KeywordAt(nodes, v.path, v.index), v.path, v.index)] else []) + EffectiveHits(nodes, visits[1..], alias)
    ensures Hits(nodes, visits[0], alias, hit) <==>
              Gives(nodes, visits[0], alias) && hit == Hit(KeywordAt(nodes, visits[0].path, visits[0].index), visits[0].path, visits[0].index)
  {
    hide IsPlain, HeaderApplies, ValuesMatch, EqualFold;
    GivesIff(nodes, visits[0], alias);
  }

  lemma {:induction false} FoundIff(nodes: Nodes, visits: seq<Visit>, alias: string, hit: Hit)
    requires '*' !in alias
    ensures hit in EffectiveHits(nodes, visits, alias) <==> exists k :: 0 <= k < |visits| && Hits(nodes, visits[k], alias, hit)
  {
    hide EffectiveHits, Hits, Gives, KeywordAt;
    if visits == [] {
      assert EffectiveHits(nodes, visits, alias) == [] by { NoneVisited(nodes, visits, alias); }
    } else {
      HeadHit(nodes, visits, alias, hit);
      FoundIff(nodes, visits[1..], alias, hit);
      if k :| 0 <= k < |visits| && Hits(nodes, visits[k], alias, hit) { assert k > 0 ==> visits[1..][k - 1] == visits[k]; }
      if k :| 0 <= k < |visits[1..]| && Hits(nodes, visits[1..][k], alias, hit) { assert visits[k + 1] == visits[1..][k]; }
    }
  }

  lemma NoneVisited(nodes: Nodes, visits: seq<Visit>, alias: string)
    requires visits == []
    ensures EffectiveHits(nodes, visits, alias) == []
  {}

  lemma {:induction false} FirstFoundIff(nodes: Nodes, visits: seq<Visit>, alias: string, hit: Hit)
    requires '*' !in alias
    ensures var found := HitsFor(EffectiveHits(nodes, visits, alias), hit.keyword);
            found != [] && found[0] == hit <==> exists k :: FirstGiving(nodes, visits, alias, k, hit)
  {
    hide EffectiveHits, Hits, Gives, KeywordAt;
    if visits == [] {
      NoneVisited(nodes, visits, alias);
    } else {
      var rest, v := visits[1..], visits[0];
      HeadHit(nodes, visits, alias, hit);
      FirstFoundIff(nodes, rest, alias, hit);
      var head := if Gives(nodes, v, alias) then [Hit(KeywordAt(nodes, v.path, v.index), v.path, v.index)] else [];
      HitsForAppend(head, EffectiveHits(nodes, rest, alias), hit.keyword);
      assert head != [] ==> head[1..] == [] && HitsFor(head[1..], hit.keyword) == [];
      if Gives(nodes, v, alias) && KeywordAt(nodes, v.path, v.index) == hit.keyword {
        if head[0] == hit { assert FirstGiving(nodes, visits, alias, 0, hit); }
        if k :| FirstGiving(nodes, visits, alias, k, hit) { assert k == 0; }
      } else {
        if k :| FirstGiving(nodes, rest, alias, k, hit) { GivingLater(nodes, visits, alias, k, hit); }
        if k :| FirstGiving(nodes, visits, alias, k, hit) { GivingEarlier(nodes, visits, alias, k, hit); }
      }
    }
  }

  lemma GivingLater(nodes: Nodes, visits: seq<Visit>, alias: string, k: int, hit: Hit)
    requires visits != [] && FirstGiving(nodes, visits[1..], alias, k, hit)
    requires Gives(nodes, visits[0], alias) ==> KeywordAt(nodes, visits[0].path, visits[0].index) != hit.keyword
    ensures FirstGiving(nodes, visits, alias, k + 1, hit)
  {
    hide Hits, Gives, KeywordAt;
    forall j | 0 <= j < k + 1 && Gives(nodes, visits[j], alias) ensures KeywordAt(nodes, visits[j].path, visits[j].index) != hit.keyword {
      assert j > 0 ==> visits[1..][j - 1] == visits[j];
    }
  }

  lemma GivingEarlier(nodes: Nodes, visits: seq<Visit>, alias: string, k: int, hit: Hit)
    requires FirstGiving(nodes, visits, alias, k, hit) && k > 0
    ensures FirstGiving(nodes, visits[1..], alias, k - 1, hit)
  {
    hide Hits, Gives, KeywordAt;
    assert forall j :: 0 <= j < k - 1 ==> visits[1..][j] == visits[j + 1];
  }

  lemma {:induction false} InHitsFor(hits: seq<Hit>, hit: Hit)
    ensures hit in HitsFor(hits, hit.keyword) <==> hit in hits
  {
    if hits != [] { InHitsFor(hits[1..], hit); }
  }

  /** The order of the explanation: by keyword. */
  lemma {:induction false} ByKeyword(hits: seq<Hit>)
    ensures forall i, j :: 0 <= i < j < |SortHits(hits)| ==> !LexLess(SortHits(hits)[j].keyword, SortHits(hits)[i].keyword)
  {
    hide LexLess;
    if hits != [] {
      ByKeyword(hits[1..]);
      InsertedByKeyword(hits[0], SortHits(hits[1..]));
    }
  }

  predicate KeywordOrder(hits: seq<Hit>) { forall i, j :: 0 <= i < j < |hits| ==> !LexLess(hits[j].keyword, hits[i].keyword) }

  lemma {:induction false} InsertedByKeyword(hit: Hit, sorted: seq<Hit>)
    requires KeywordOrder(sorted)
    ensures KeywordOrder(InsertHit(hit, sorted))
    ensures forall x :: x in InsertHit(hit, sorted) <==> x == hit || x in sorted
  {
    hide LexLess;
    if sorted != [] && LexLess(sorted[0].keyword, hit.keyword) {
      var rest := sorted[1..];
      InsertedByKeyword(hit, rest);
      var more := InsertHit(hit, rest);
      forall j | 0 <= j < |more| ensures !LexLess(more[j].keyword, sorted[0].keyword) {
        assert more[j] in more;
        LexTotal(sorted[0].keyword, hit.keyword);
        if more[j] != hit {
          assert more[j] in rest;
          var m :| 0 <= m < |rest| && rest[m] == more[j];
          assert sorted[m + 1] == rest[m];
        }
      }
    } else {
      forall j | 0 <= j < |sorted| ensures !LexLess(sorted[j].keyword, hit.keyword) {
        if LexLess(sorted[j].keyword, hit.keyword) {
          LexTotal(sorted[0].keyword, hit.keyword);
          if sorted[0].keyword != hit.keyword { LexTransitive(sorted[j].keyword, hit.keyword, sorted[0].keyword); }
        }
      }
    }
  }

  /** An alias is explained by exactly these lines, in the order of their keywords: each that gives it
      a value, and of a keyword that does not accumulate only the first on the walk. */
  lemma ExplainedIff(nodes: Nodes, root: string, alias: string, hit: Hit)
    requires '*' !in alias
    ensures var visits := Visits(nodes, root, {});
            var explained := SortHits(Kept(EffectiveHits(nodes, visits, alias)));
            && (hit in explained <==>
                  if hit.keyword in {"identityfile", "certificatefile", "localforward", "remoteforward", "dynamicforward", "sendenv", "setenv"}
                  then exists k :: 0 <= k < |visits| && Hits(nodes, visits[k], alias, hit)
                  else exists k :: FirstGiving(nodes, visits, alias, k, hit))
            && KeywordOrder(explained)
  {
    hide Visits, EffectiveHits, Kept, SortHits, Hits, FirstGiving, HitsFor;
    var visits := Visits(nodes, root, {});
    var all := EffectiveHits(nodes, visits, alias);
    ByKeyword(Kept(all));
    InHitsFor(SortHits(Kept(all)), hit);
    SortHitsFor(Kept(all), hit.keyword);
    KeptFor(all, hit.keyword);
    InHitsFor(all, hit);
    FoundIff(nodes, visits, alias, hit);
    FirstFoundIff(nodes, visits, alias, hit);
  }
}
