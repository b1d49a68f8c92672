/** Which lines give an alias its values. */
module Attribution {
  // Which lines give an alias its values, by both readings, and when they agree.

  import opened Results
  import opened Text
  import opened Syntax
  import opened Matcher
  import opened Blocks
  import opened Reading
  import opened Names
  import opened Includes
  import opened Walks
  import opened Provenance

  /** A setting that reaches the alias: its keyword in lower case, and where it is written. */
  datatype Hit = Hit(keyword: string, path: string, index: nat)

  function KeywordAt(nodes: Nodes, path: string, index: nat): string {
    if index < |LinesOf(nodes, path)| then Lower(LinesOf(nodes, path)[index].keyword) else ""
  }

  ghost predicate HeaderApplies(nodes: Nodes, path: string, header: int, alias: string) {
    var lines := LinesOf(nodes, path);
    OpensBlock(lines, header) && BlockMatches(BlockOf(lines, header), alias)
  }

  /** By the block last entered. */
  ghost function Attributed(nodes: Nodes, events: seq<Event>, alias: string, applies: bool): seq<Hit> {
    if events == [] then []
    else
      match events[0]
      case Enter(path, header) => Attributed(nodes, events[1..], alias, HeaderApplies(nodes, path, header, alias))
      case Plain(path, index) =>
        (if applies then [Hit(KeywordAt(nodes, path, index), path, index)] else []) + Attributed(nodes, events[1..], alias, applies)
  }

  ghost function AppliesAfter(nodes: Nodes, events: seq<Event>, alias: string, applies: bool): bool {
    if events == [] then applies
    else AppliesAfter(nodes, events[1..], alias,
      if events[0].Enter? then HeaderApplies(nodes, events[0].path, events[0].header, alias) else applies)
  }

  /** By every line's own block. */
  ghost function EffectiveHits(nodes: Nodes, visits: seq<Visit>, alias: string): seq<Hit> {
    if visits == [] then []
    else (if IsPlain(nodes, visits[0]) && HeaderApplies(nodes, visits[0].path, visits[0].header, alias)
          then [Hit(KeywordAt(nodes, visits[0].path, visits[0].index), visits[0].path, visits[0].index)] else [])
         + EffectiveHits(nodes, visits[1..], alias)
  }

  function FirstHit(hits: seq<Hit>, keyword: string): Option<Hit> {
    if hits == [] then None else if hits[0].keyword == keyword then Some(hits[0]) else FirstHit(hits[1..], keyword)
  }

  function HitsFor(hits: seq<Hit>, keyword: string): seq<Hit> {
    if hits == [] then [] else (if hits[0].keyword == keyword then [hits[0]] else []) + HitsFor(hits[1..], keyword)
  }

  lemma {:induction false} HitsForAppend(front: seq<Hit>, back: seq<Hit>, keyword: string)
    ensures HitsFor(front + back, keyword) == HitsFor(front, keyword) + HitsFor(back, keyword)
  {
    if front == [] {
      assert front + back == back;
    } else {
      var all := front + back;
      assert all[0] == front[0] && all[1..] == front[1..] + back;
      HitsForAppend(front[1..], back, keyword);
      Regroup(if front[0].keyword == keyword then [front[0]] else [], HitsFor(front[1..], keyword), HitsFor(back, keyword));
    }
  }

  lemma {:induction false} FirstOfHits(hits: seq<Hit>, keyword: string)
    ensures FirstHit(hits, keyword) == if HitsFor(hits, keyword) == [] then None else Some(HitsFor(hits, keyword)[0])
  {
    if hits != [] { FirstOfHits(hits[1..], keyword); }
  }

  // ---- the projection ----

  datatype Source = Source(hit: Hit, winner: bool)

  function HitsOf(sources: seq<Source>): (hits: seq<Hit>)
    ensures |hits| == |sources| && forall i :: 0 <= i < |sources| ==> hits[i] == sources[i].hit
  {
    seq(|sources|, i requires 0 <= i < |sources| => sources[i].hit)
  }

  predicate ClaimedBefore(hits: seq<Hit>, i: nat)
    requires i < |hits|
  {
    exists j :: 0 <= j < i && hits[j].keyword == hits[i].keyword
  }

  lemma EventNext(nodes: Nodes, events: seq<Event>, k: nat, alias: string, applies: bool)
    requires k < |events|
    ensures Attributed(nodes, events[k..], alias, applies) ==
      (if events[k].Enter? then Attributed(nodes, events[k + 1..], alias, HeaderApplies(nodes, events[k].path, events[k].header, alias))
       else (if applies then [Hit(KeywordAt(nodes, events[k].path, events[k].index), events[k].path, events[k].index)] else [])
            + Attributed(nodes, events[k + 1..], alias, applies))
  {
    hide HeaderApplies, KeywordAt;
    assert events[k..][1..] == events[k + 1..];
  }

  /** A source wins when none before it set the keyword. */
  predicate WinnersRight(sources: seq<Source>) {
    forall i :: 0 <= i < |sources| ==> (sources[i].winner <==> !ClaimedBefore(HitsOf(sources), i))
  }

  ghost predicate ClaimedAre(claimed: set<string>, sources: seq<Source>) {
    forall keyword :: keyword in claimed <==> exists j :: 0 <= j < |sources| && sources[j].hit.keyword == keyword
  }

  method Project(nodes: Nodes, root: string, alias: string) returns (sources: seq<Source>)
    ensures HitsOf(sources) == Attributed(nodes, Loading(nodes, root, {}), alias, true)
    ensures WinnersRight(sources)
  {
    hide Loading, HeaderApplies, KeywordAt, Attributed, BlockMatches, NextHeader, HeaderOver, WinnersRight, ClaimedAre, HitsOf;
    var walker := new Walker();
    var events := walker.WalkLoadOrder(nodes, root);
    var claimed: set<string> := {};
    var applies := true;
    sources := [];
    assert events[0..] == events;
    NoSources(Attributed(nodes, events, alias, true));
    for k := 0 to |events|
      invariant Attributed(nodes, events, alias, true) == HitsOf(sources) + Attributed(nodes, events[k..], alias, applies)
      invariant ClaimedAre(claimed, sources) && WinnersRight(sources)
    {
      EventNext(nodes, events, k, alias, applies);
      ghost var rest := Attributed(nodes, events[k + 1..], alias, applies);
      assert HitsOf(sources) + ([] + rest) == HitsOf(sources) + rest;
      match events[k] {
        case Enter(path, header) =>
          applies := EnterBlock(nodes, path, header, alias);
        case Plain(path, index) =>
          if applies {
            var hit := Hit(KeywordAt(nodes, path, index), path, index);
            ClaimedNext(claimed, sources, hit);
            Regroup(HitsOf(sources), [hit], rest);
            sources := sources + [Source(hit, hit.keyword !in claimed)];
            claimed := claimed + {hit.keyword};
          }
      }
    }
    NoEventsLeft(nodes, events, alias, applies, HitsOf(sources));
  }

  lemma NoSources(hits: seq<Hit>)
    ensures hits == HitsOf([]) + hits && ClaimedAre({}, []) && WinnersRight([])
  {}

  lemma NoEventsLeft(nodes: Nodes, events: seq<Event>, alias: string, applies: bool, hits: seq<Hit>)
    ensures hits + Attributed(nodes, events[|events|..], alias, applies) == hits
  {}

  lemma ClaimedNext(claimed: set<string>, sources: seq<Source>, hit: Hit)
    requires WinnersRight(sources) && ClaimedAre(claimed, sources)
    ensures var next := sources + [Source(hit, hit.keyword !in claimed)];
            HitsOf(next) == HitsOf(sources) + [hit] && WinnersRight(next) && ClaimedAre(claimed + {hit.keyword}, next)
  {
    var next := sources + [Source(hit, hit.keyword !in claimed)];
    var before, after := HitsOf(sources), HitsOf(next);
    assert after == before + [hit];
    assert next[|sources|].hit == hit;
    forall i | 0 <= i < |sources| ensures ClaimedBefore(after, i) <==> ClaimedBefore(before, i) {
      assert forall j :: 0 <= j < |sources| ==> after[j] == before[j];
    }
    assert forall j :: 0 <= j < |sources| ==> after[j].keyword == sources[j].hit.keyword == next[j].hit.keyword;
  }

  method EnterBlock(nodes: Nodes, path: string, header: int, alias: string) returns (applies: bool)
    ensures applies == HeaderApplies(nodes, path, header, alias)
  {
    hide BlockMatches, NextHeader;
    var lines := LinesOf(nodes, path);
    if !OpensBlock(lines, header) { return false; }
    var block := BlockAt(lines, header);
    assert block == BlockOf(lines, header);
    var exact;
    exact, applies := BlockApplies(block, alias);
  }

  // ---- the explained values ----

  const Cumulative: set<string> := {"identityfile", "certificatefile", "localforward", "remoteforward", "dynamicforward", "sendenv", "setenv"}

  predicate Accumulates(keyword: string) { keyword in Cumulative }

  /** The hits that are kept: the first of a keyword, and all of those that accumulate. */
  function Kept(hits: seq<Hit>): seq<Hit> {
    if hits == [] then []
    else
      var last := hits[|hits| - 1];
      var before := Kept(hits[..|hits| - 1]);
      if HitsFor(hits[..|hits| - 1], last.keyword) != [] && !Accumulates(last.keyword) then before else before + [last]
  }

  lemma OneFor(hit: Hit, keyword: string)
    ensures HitsFor([hit], keyword) == if hit.keyword == keyword then [hit] else []
  {
    assert [hit][1..] == [];
  }

  lemma KeptLast(hits: seq<Hit>)
    requires hits != []
    ensures var front, last := hits[..|hits| - 1], hits[|hits| - 1];
            Kept(hits) == if HitsFor(front, last.keyword) != [] && !Accumulates(last.keyword) then Kept(front) else Kept(front) + [last]
  {}

  lemma KeptMore(found: seq<Hit>, kept: seq<Hit>, more: seq<Hit>, cumulative: bool)
    requires kept == (if cumulative then found else if found == [] then [] else [found[0]]) && |more| <= 1
    ensures (if cumulative || found == [] then kept + more else kept)
         == (if cumulative then found + more else if found + more == [] then [] else [(found + more)[0]])
  {}

  /** What is kept of a keyword: all of it when it accumulates, else the first. */
  predicate KeepsRight(hits: seq<Hit>, keyword: string) {
    HitsFor(Kept(hits), keyword) ==
      if Accumulates(keyword) then HitsFor(hits, keyword) else if HitsFor(hits, keyword) == [] then [] else [HitsFor(hits, keyword)[0]]
  }

  lemma KeepsNext(front: seq<Hit>, last: Hit, keyword: string)
    requires KeepsRight(front, keyword)
    ensures KeepsRight(front + [last], keyword)
  {
    hide HitsFor, Kept, Accumulates;
    var hits := front + [last];
    assert hits[..|hits| - 1] == front;
    KeptLast(hits);
    OneFor(last, keyword);
    HitsForAppend(front, [last], keyword);
    HitsForAppend(Kept(front), [last], keyword);
    KeptMore(HitsFor(front, keyword), HitsFor(Kept(front), keyword), HitsFor([last], keyword), Accumulates(keyword));
  }

  lemma {:induction false} KeepsAll(hits: seq<Hit>, keyword: string)
    ensures KeepsRight(hits, keyword)
  {
    if hits != [] {
      hide KeepsRight;
      KeepsAll(hits[..|hits| - 1], keyword);
      KeepsNext(hits[..|hits| - 1], hits[|hits| - 1], keyword);
      assert hits == hits[..|hits| - 1] + [hits[|hits| - 1]];
    }
  }

  lemma KeptFor(hits: seq<Hit>, keyword: string)
    ensures HitsFor(Kept(hits), keyword) ==
      (if Accumulates(keyword) then HitsFor(hits, keyword) else if HitsFor(hits, keyword) == [] then [] else [HitsFor(hits, keyword)[0]])
  {
    hide HitsFor, Kept, Accumulates;
    KeepsAll(hits, keyword);
  }

  function InsertHit(hit: Hit, sorted: seq<Hit>): seq<Hit> {
    if sorted != [] && LexLess(sorted[0].keyword, hit.keyword) then [sorted[0]] + InsertHit(hit, sorted[1..]) else [hit] + sorted
  }

  /** The stable sort by keyword. */
  function SortHits(hits: seq<Hit>): seq<Hit> {
    if hits == [] then [] else InsertHit(hits[0], SortHits(hits[1..]))
  }

  lemma {:induction false} InsertHitFor(hit: Hit, sorted: seq<Hit>, keyword: string)
    ensures HitsFor(InsertHit(hit, sorted), keyword) == HitsFor([hit] + sorted, keyword)
  {
    hide LexLess;
    HitsForAppend([hit], sorted, keyword);
    if sorted != [] && LexLess(sorted[0].keyword, hit.keyword) {
      LexTotal(hit.keyword, hit.keyword);
      assert sorted[0].keyword != hit.keyword;
      InsertHitFor(hit, sorted[1..], keyword);
      HitsForAppend([hit], sorted[1..], keyword);
      HitsForAppend([sorted[0]], InsertHit(hit, sorted[1..]), keyword);
    }
  }

  lemma {:induction false} SortHitsFor(hits: seq<Hit>, keyword: string)
    ensures HitsFor(SortHits(hits), keyword) == HitsFor(hits, keyword)
  {
    if hits != [] {
      SortHitsFor(hits[1..], keyword);
      InsertHitFor(hits[0], SortHits(hits[1..]), keyword);
      HitsForAppend([hits[0]], SortHits(hits[1..]), keyword);
      HitsForAppend([hits[0]], hits[1..], keyword);
      assert hits == [hits[0]] + hits[1..];
    }
  }

  method ComputeEffective(nodes: Nodes, root: string, alias: string) returns (entries: seq<Hit>)
    ensures entries == SortHits(Kept(EffectiveHits(nodes, Visits(nodes, root, {}), alias)))
  {
    hide Visits, HeaderApplies, KeywordAt, IsPlain, EffectiveHits, Kept;
    var walker := new Walker();
    var visits := walker.WalkNode(nodes, root);
    var seen: set<string> := {};
    entries := [];
    ghost var hits: seq<Hit> := [];
    assert visits[0..] == visits;
    assert Kept([]) == [] by { NothingKept(); }
    for k := 0 to |visits|
      invariant EffectiveHits(nodes, visits, alias) == hits + EffectiveHits(nodes, visits[k..], alias)
      invariant entries == Kept(hits)
      invariant forall keyword :: keyword in seen <==> HitsFor(hits, keyword) != []
    {
      var v := visits[k];
      VisitNext(nodes, visits, k, alias);
      ghost var rest := EffectiveHits(nodes, visits[k + 1..], alias);
      assert hits + ([] + rest) == hits + rest;
      if IsPlain(nodes, v) {
        var applies := EnterBlock(nodes, v.path, v.header, alias);
        if applies {
          var hit := Hit(KeywordAt(nodes, v.path, v.index), v.path, v.index);
          KeptNext(hits, hit);
          Regroup(hits, [hit], rest);
          if !(hit.keyword in seen && !Accumulates(hit.keyword)) { entries := entries + [hit]; }
          hits := hits + [hit];
          seen := seen + {hit.keyword};
        }
      }
    }
    NoVisitsLeft(nodes, visits, alias, hits);
    entries := SortHits(entries);
  }

  lemma NothingKept()
    ensures Kept([]) == []
  {}

  lemma KeptNext(hits: seq<Hit>, hit: Hit)
    ensures Kept(hits + [hit]) == if HitsFor(hits, hit.keyword) != [] && !Accumulates(hit.keyword) then Kept(hits) else Kept(hits) + [hit]
    ensures forall keyword :: HitsFor(hits + [hit], keyword) == HitsFor(hits, keyword) + if hit.keyword == keyword then [hit] else []
  {
    assert (hits + [hit])[..|hits|] == hits;
    forall keyword ensures HitsFor(hits + [hit], keyword) == HitsFor(hits, keyword) + if hit.keyword == keyword then [hit] else [] {
      HitsForAppend(hits, [hit], keyword);
    }
  }

  lemma VisitNext(nodes: Nodes, visits: seq<Visit>, k: nat, alias: string)
    requires k < |visits|
    ensures var v := visits[k];
            EffectiveHits(nodes, visits[k..], alias) ==
            (if IsPlain(nodes, v) && HeaderApplies(nodes, v.path, v.header, alias) then [Hit(KeywordAt(nodes, v.path, v.index), v.path, v.index)] else [])
            + EffectiveHits(nodes, visits[k + 1..], alias)
  {
    hide HeaderApplies, KeywordAt, IsPlain;
    assert visits[k..][1..] == visits[k + 1..];
  }

  lemma NoVisitsLeft(nodes: Nodes, visits: seq<Visit>, alias: string, hits: seq<Hit>)
    ensures hits + EffectiveHits(nodes, visits[|visits|..], alias) == hits
  {}

  // ---- when they agree ----

  predicate PlainLine(line: Line) { line.kind == Directive && !IsHeader(line) && !IsInclude(line) }

  /** Below this line no plain directive comes before the next header. */
  predicate SilentFrom(lines: seq<Line>, from: nat) {
    forall j :: from <= j < |lines| && NoHeader(lines, from, j + 1) ==> !PlainLine(lines[j])
  }

  /** No plain directive follows, inside its block, an Include that matched something. */
  predicate IncludesLast(node: Node) {
    node.file.Some? ==>
      forall i :: 0 <= i < |node.file.value| && IsInclude(node.file.value[i]) && Targets(node.includes, i + 1) != []
                  ==> SilentFrom(node.file.value, i + 1)
  }

  predicate Tidy(nodes: Nodes) { Stands(nodes) && forall p :: p in nodes ==> IncludesLast(nodes[p]) }

  lemma {:induction false} AttributedAppend(nodes: Nodes, front: seq<Event>, back: seq<Event>, alias: string, applies: bool)
    ensures Attributed(nodes, front + back, alias, applies)
         == Attributed(nodes, front, alias, applies) + Attributed(nodes, back, alias, AppliesAfter(nodes, front, alias, applies))
  {
    hide HeaderApplies, KeywordAt;
    if front == [] {
      assert front + back == back;
    } else {
      assert (front + back)[1..] == front[1..] + back;
      AttributedAppend(nodes, front[1..], back, alias,
        if front[0].Enter? then HeaderApplies(nodes, front[0].path, front[0].header, alias) else applies);
    }
  }

  lemma {:induction false} EffectiveAppend(nodes: Nodes, front: seq<Visit>, back: seq<Visit>, alias: string)
    ensures EffectiveHits(nodes, front + back, alias) == EffectiveHits(nodes, front, alias) + EffectiveHits(nodes, back, alias)
  {
    hide HeaderApplies, KeywordAt, IsPlain;
    if front == [] {
      assert front + back == back;
    } else {
      assert (front + back)[1..] == front[1..] + back;
      EffectiveAppend(nodes, front[1..], back, alias);
    }
  }

  lemma OnePlain(nodes: Nodes, path: string, index: nat, alias: string, applies: bool)
    ensures Attributed(nodes, [Plain(path, index)], alias, applies) == if applies then [Hit(KeywordAt(nodes, path, index), path, index)] else []
    ensures AppliesAfter(nodes, [Plain(path, index)], alias, applies) == applies
  {
    hide KeywordAt;
    var one := [Plain(path, index)];
    assert one[1..] == [];
  }

  lemma OneVisit(nodes: Nodes, v: Visit, alias: string)
    ensures EffectiveHits(nodes, [v], alias)
         == if IsPlain(nodes, v) && HeaderApplies(nodes, v.path, v.header, alias) then [Hit(KeywordAt(nodes, v.path, v.index), v.path, v.index)] else []
  {
    hide HeaderApplies, KeywordAt, IsPlain;
    assert [v][1..] == [];
  }

  /** At every plain directive the flag the projection keeps is that of the line's own block. */
  ghost predicate Tracks(nodes: Nodes, events: seq<Event>, alias: string, applies: bool) {
    events == []
    || match events[0]
       case Enter(path, header) => Tracks(nodes, events[1..], alias, HeaderApplies(nodes, path, header, alias))
       case Plain(path, index) => (applies <==> OwnApplies(nodes, path, index, alias)) && Tracks(nodes, events[1..], alias, applies)
  }

  ghost predicate OwnApplies(nodes: Nodes, path: string, index: nat, alias: string) {
    index < |LinesOf(nodes, path)| && HeaderApplies(nodes, path, HeaderOver(LinesOf(nodes, path), index), alias)
  }

  /** An Include line that loads something. */
  predicate Loads(nodes: Nodes, path: string, chain: set<string>, index: nat)
    requires Readable(nodes, path) && index < |LinesOf(nodes, path)|
  {
    IsInclude(LinesOf(nodes, path)[index]) && LineEvents(nodes, path, chain, index) != []
  }

  /** The next thing here, before any header or Include that loads something, is a plain directive. */
  predicate PlainNext(nodes: Nodes, path: string, chain: set<string>, from: nat)
    requires Readable(nodes, path) && from <= |LinesOf(nodes, path)|
    decreases |LinesOf(nodes, path)| - from
  {
    var lines := LinesOf(nodes, path);
    from < |lines| && !IsHeader(lines[from])
    && (PlainLine(lines[from]) || (!Loads(nodes, path, chain, from) && PlainNext(nodes, path, chain, from + 1)))
  }

  /** After every Include that loads something and that a plain directive follows in its block,
      what was loaded leaves the flag as the block it returns to has it. */
  ghost predicate Resumes(nodes: Nodes, path: string, chain: set<string>, alias: string)
    decreases Open(nodes, chain), 2, 0
  {
    if !Readable(nodes, path) || path in chain then true
    else
      OpenShrinks(nodes, chain, path);
      LinesResume(nodes, path, chain + {path}, 0, alias)
  }

  ghost predicate LinesResume(nodes: Nodes, path: string, chain: set<string>, index: nat, alias: string)
    requires Readable(nodes, path) && index <= |LinesOf(nodes, path)|
    decreases Open(nodes, chain), 4, |LinesOf(nodes, path)| - index
  {
    var lines := LinesOf(nodes, path);
    index < |lines| ==>
      && (IsInclude(lines[index]) ==> TargetsResume(nodes, Targets(nodes[path].includes, index + 1), chain, alias))
      && (Loads(nodes, path, chain, index) && PlainNext(nodes, path, chain, index + 1) ==>
            (AppliesAfter(nodes, LineEvents(nodes, path, chain, index), alias, true)
             <==> HeaderApplies(nodes, path, HeaderOver(lines, index), alias)))
      && LinesResume(nodes, path, chain, index + 1, alias)
  }

  ghost predicate TargetsResume(nodes: Nodes, targets: seq<string>, chain: set<string>, alias: string)
    decreases Open(nodes, chain), 3, |targets|
  {
    targets != [] ==> Resumes(nodes, targets[0], chain, alias) && TargetsResume(nodes, targets[1..], chain, alias)
  }

  lemma {:induction false} TracksAppend(nodes: Nodes, front: seq<Event>, back: seq<Event>, alias: string, applies: bool)
    ensures Tracks(nodes, front + back, alias, applies) <==>
              Tracks(nodes, front, alias, applies) && Tracks(nodes, back, alias, AppliesAfter(nodes, front, alias, applies))
  {
    hide HeaderApplies, OwnApplies;
    if front == [] {
      assert front + back == back;
    } else {
      assert (front + back)[1..] == front[1..] + back;
      TracksAppend(nodes, front[1..], back, alias,
        if front[0].Enter? then HeaderApplies(nodes, front[0].path, front[0].header, alias) else applies);
    }
  }

  /** Whatever was loaded has entered a block. */
  lemma {:induction false} LoadedEnters(nodes: Nodes, targets: seq<string>, chain: set<string>)
    ensures var events := TargetLoading(nodes, targets, chain); events != [] ==> events[0].Enter?
    decreases |targets|
  {
    hide LineLoading, Loading;
    if targets != [] {
      LoadedEnters(nodes, targets[1..], chain);
      LoadingEnters(nodes, targets[0], chain);
    }
  }

  lemma LoadingEnters(nodes: Nodes, path: string, chain: set<string>)
    ensures var events := Loading(nodes, path, chain); events != [] ==> events[0].Enter?
  {
    hide LineLoading;
  }

  lemma EnteredForgets(nodes: Nodes, events: seq<Event>, alias: string, applies: bool)
    requires events != [] && events[0].Enter?
    ensures AppliesAfter(nodes, events, alias, applies) == AppliesAfter(nodes, events, alias, true)
  {}

  lemma {:induction false} TracksFile(nodes: Nodes, path: string, chain: set<string>, alias: string, applies: bool)
    ensures Tracks(nodes, Loading(nodes, path, chain), alias, applies) <==> Resumes(nodes, path, chain, alias)
    decreases Open(nodes, chain), 2, 0
  {
    hide LineLoading, LinesResume, HeaderApplies, OwnApplies, PlainNext;
    if Readable(nodes, path) && path !in chain {
      OpenShrinks(nodes, chain, path);
      TracksLines(nodes, path, chain + {path}, 0, alias, HeaderApplies(nodes, path, -1, alias));
      var rest := LineLoading(nodes, path, chain + {path}, 0);
      assert ([Enter(path, -1)] + rest)[1..] == rest;
      assert HeaderOver(LinesOf(nodes, path), -1) == -1;
    }
  }

  lemma {:induction false} TracksTargets(nodes: Nodes, targets: seq<string>, chain: set<string>, alias: string, applies: bool)
    ensures Tracks(nodes, TargetLoading(nodes, targets, chain), alias, applies) <==> TargetsResume(nodes, targets, chain, alias)
    decreases Open(nodes, chain), 3, |targets|
  {
    hide Loading, Resumes, HeaderApplies, OwnApplies;
    if targets != [] {
      TracksFile(nodes, targets[0], chain, alias, applies);
      TracksTargets(nodes, targets[1..], chain, alias, AppliesAfter(nodes, Loading(nodes, targets[0], chain), alias, applies));
      TracksAppend(nodes, Loading(nodes, targets[0], chain), TargetLoading(nodes, targets[1..], chain), alias, applies);
    }
  }

  /** From here on the flags agree exactly when they do below and, if a plain directive is next,
      the flag is right now. */
  lemma {:induction false} TracksLines(nodes: Nodes, path: string, chain: set<string>, index: nat, alias: string, applies: bool)
    requires Readable(nodes, path) && index <= |LinesOf(nodes, path)|
    ensures Tracks(nodes, LineLoading(nodes, path, chain, index), alias, applies) <==>
              && LinesResume(nodes, path, chain, index, alias)
              && (PlainNext(nodes, path, chain, index) ==>
                    (applies <==> HeaderApplies(nodes, path, HeaderOver(LinesOf(nodes, path), index - 1), alias)))
    decreases Open(nodes, chain), 4, |LinesOf(nodes, path)| - index
  {
    hide LineEvents, TargetsResume, Targets, HeaderOver, HeaderApplies, OwnApplies, Tracks, AppliesAfter;
    var lines := LinesOf(nodes, path);
    if index == |lines| {
      NothingTracks(nodes, alias, applies);
    } else {
      var events := LineEvents(nodes, path, chain, index);
      var after := AppliesAfter(nodes, events, alias, applies);
      TracksLines(nodes, path, chain, index + 1, alias, after);
      TracksAppend(nodes, events, LineLoading(nodes, path, chain, index + 1), alias, applies);
      TracksLine(nodes, path, chain, index, alias, applies);
    }
  }

  lemma NothingTracks(nodes: Nodes, alias: string, applies: bool)
    ensures Tracks(nodes, [], alias, applies) && AppliesAfter(nodes, [], alias, applies) == applies
  {}

  /** What one line does to the flag, and when it tracks. */
  lemma TracksLine(nodes: Nodes, path: string, chain: set<string>, index: nat, alias: string, applies: bool)
    requires Readable(nodes, path) && index < |LinesOf(nodes, path)|
    ensures var lines := LinesOf(nodes, path);
            var events := LineEvents(nodes, path, chain, index);
            var after := AppliesAfter(nodes, events, alias, applies);
            var own := HeaderApplies(nodes, path, HeaderOver(lines, index), alias);
            && (IsHeader(lines[index]) ==> Tracks(nodes, events, alias, applies) && after == own && !Loads(nodes, path, chain, index) && !IsInclude(lines[index]))
            && (!IsHeader(lines[index]) ==> HeaderOver(lines, index) == HeaderOver(lines, index - 1))
            && (PlainLine(lines[index]) ==> (Tracks(nodes, events, alias, applies) <==> (applies <==> own)) && after == applies && !IsInclude(lines[index]))
            && (IsInclude(lines[index]) ==>
                  && (Tracks(nodes, events, alias, applies) <==> TargetsResume(nodes, Targets(nodes[path].includes, index + 1), chain, alias))
                  && after == if Loads(nodes, path, chain, index) then AppliesAfter(nodes, events, alias, true) else applies)
            && (!IsHeader(lines[index]) && !PlainLine(lines[index]) && !IsInclude(lines[index]) ==>
                  Tracks(nodes, events, alias, applies) && after == applies)
    decreases Open(nodes, chain), 4, 0
  {
    hide Tracks, AppliesAfter, TargetLoading, TargetsResume, Targets, HeaderApplies, IsHeader, IsInclude;
    var lines := LinesOf(nodes, path);
    HeaderIsDirective(lines[index]);
    NotBoth(lines[index]);
    NothingTracks(nodes, alias, applies);
    if IsHeader(lines[index]) {
      OneTracks(nodes, Enter(path, index), alias, applies);
    } else if IsInclude(lines[index]) {
      var targets := Targets(nodes[path].includes, index + 1);
      TracksTargets(nodes, targets, chain, alias, applies);
      LoadedEnters(nodes, targets, chain);
      if TargetLoading(nodes, targets, chain) != [] { EnteredForgets(nodes, TargetLoading(nodes, targets, chain), alias, applies); }
    } else if lines[index].kind == Directive {
      OneTracks(nodes, Plain(path, index), alias, applies);
    }
  }

  lemma OneTracks(nodes: Nodes, event: Event, alias: string, applies: bool)
    ensures event.Enter? ==> Tracks(nodes, [event], alias, applies)
                             && AppliesAfter(nodes, [event], alias, applies) == HeaderApplies(nodes, event.path, event.header, alias)
    ensures event.Plain? ==> (Tracks(nodes, [event], alias, applies) <==> (applies <==> OwnApplies(nodes, event.path, event.index, alias)))
                             && AppliesAfter(nodes, [event], alias, applies) == applies
  {
    hide HeaderApplies, OwnApplies;
    assert [event][1..] == [];
    NothingTracks(nodes, alias, applies);
    if event.Enter? { NothingTracks(nodes, alias, HeaderApplies(nodes, event.path, event.header, alias)); }
  }

  /** Both readings keep the same flag at every plain directive exactly when the walk resumes. */
  lemma TracksIff(nodes: Nodes, root: string, alias: string)
    ensures Tracks(nodes, Loading(nodes, root, {}), alias, true) <==> Resumes(nodes, root, {}, alias)
  {
    hide *;
    TracksFile(nodes, root, {}, alias, true);
  }

  // ---- the same hits ----

  /** The hits among plain directives, by each one's own block. */
  ghost function OwnHits(nodes: Nodes, plain: seq<(string, nat)>, alias: string): seq<Hit> {
    if plain == [] then []
    else (if OwnApplies(nodes, plain[0].0, plain[0].1, alias) then [Hit(KeywordAt(nodes, plain[0].0, plain[0].1), plain[0].0, plain[0].1)] else [])
         + OwnHits(nodes, plain[1..], alias)
  }

  lemma OwnStep(nodes: Nodes, plain: (string, nat), rest: seq<(string, nat)>, alias: string)
    ensures OwnHits(nodes, [plain] + rest, alias) ==
      (if OwnApplies(nodes, plain.0, plain.1, alias) then [Hit(KeywordAt(nodes, plain.0, plain.1), plain.0, plain.1)] else [])
      + OwnHits(nodes, rest, alias)
  {
    hide OwnApplies, KeywordAt;
    assert ([plain] + rest)[1..] == rest;
  }

  lemma {:induction false} TrackedHits(nodes: Nodes, events: seq<Event>, alias: string, applies: bool)
    requires Tracks(nodes, events, alias, applies)
    ensures Attributed(nodes, events, alias, applies) == OwnHits(nodes, PlainEvents(events), alias)
  {
    hide HeaderApplies, OwnApplies, KeywordAt;
    if events != [] {
      TrackedHits(nodes, events[1..], alias,
        if events[0].Enter? then HeaderApplies(nodes, events[0].path, events[0].header, alias) else applies);
      assert [] + PlainEvents(events[1..]) == PlainEvents(events[1..]);
      if events[0].Plain? { OwnStep(nodes, (events[0].path, events[0].index), PlainEvents(events[1..]), alias); }
    }
  }

  predicate OwnHeader(nodes: Nodes, v: Visit) {
    v.index < |LinesOf(nodes, v.path)| && v.header == HeaderOver(LinesOf(nodes, v.path), v.index)
  }

  lemma {:induction false} VisitsOwn(nodes: Nodes, path: string, chain: set<string>)
    ensures forall k :: 0 <= k < |Visits(nodes, path, chain)| ==> OwnHeader(nodes, Visits(nodes, path, chain)[k])
    decreases Open(nodes, chain), 2, 0
  {
    hide LineVisits, OwnHeader;
    if Readable(nodes, path) && path !in chain {
      OpenShrinks(nodes, chain, path);
      LineVisitsOwn(nodes, path, chain + {path}, 0);
    }
  }

  lemma {:induction false} TargetVisitsOwn(nodes: Nodes, targets: seq<string>, chain: set<string>)
    ensures forall k :: 0 <= k < |TargetVisits(nodes, targets, chain)| ==> OwnHeader(nodes, TargetVisits(nodes, targets, chain)[k])
    decreases Open(nodes, chain), 3, |targets|
  {
    hide Visits, OwnHeader;
    if targets != [] {
      VisitsOwn(nodes, targets[0], chain);
      TargetVisitsOwn(nodes, targets[1..], chain);
    }
  }

  lemma {:induction false} LineVisitsOwn(nodes: Nodes, path: string, chain: set<string>, index: nat)
    requires Readable(nodes, path) && index <= |LinesOf(nodes, path)|
    ensures forall k :: 0 <= k < |LineVisits(nodes, path, chain, index)| ==> OwnHeader(nodes, LineVisits(nodes, path, chain, index)[k])
    decreases Open(nodes, chain), 4, |LinesOf(nodes, path)| - index
  {
    hide TargetVisits, HeaderOver, Targets;
    if index < |LinesOf(nodes, path)| {
      TargetVisitsOwn(nodes, Targets(nodes[path].includes, index + 1), chain);
      LineVisitsOwn(nodes, path, chain, index + 1);
    }
  }

  lemma {:induction false} VisitedHits(nodes: Nodes, visits: seq<Visit>, alias: string)
    requires forall k :: 0 <= k < |visits| ==> OwnHeader(nodes, visits[k])
    ensures EffectiveHits(nodes, visits, alias) == OwnHits(nodes, PlainVisits(nodes, visits), alias)
  {
    hide HeaderApplies, KeywordAt, IsPlain, HeaderOver;
    if visits != [] {
      var v, rest := visits[0], visits[1..];
      assert forall k :: 0 <= k < |rest| ==> rest[k] == visits[k + 1];
      VisitedHits(nodes, rest, alias);
      assert OwnHeader(nodes, v);
      assert [] + PlainVisits(nodes, rest) == PlainVisits(nodes, rest);
      if IsPlain(nodes, v) { OwnStep(nodes, (v.path, v.index), PlainVisits(nodes, rest), alias); }
    }
  }

  // ---- a condition on the files alone ----

  /** In a tidy graph every walk resumes. */
  lemma {:induction false} TidyResumes(nodes: Nodes, path: string, chain: set<string>, alias: string)
    requires Tidy(nodes)
    ensures Resumes(nodes, path, chain, alias)
    decreases Open(nodes, chain), 2, 0
  {
    hide LinesResume, Tidy;
    if Readable(nodes, path) && path !in chain {
      OpenShrinks(nodes, chain, path);
      TidyLines(nodes, path, chain + {path}, 0, alias);
    }
  }

  lemma {:induction false} TidyTargets(nodes: Nodes, targets: seq<string>, chain: set<string>, alias: string)
    requires Tidy(nodes)
    ensures TargetsResume(nodes, targets, chain, alias)
    decreases Open(nodes, chain), 3, |targets|
  {
    hide Resumes, Tidy;
    if targets != [] {
      TidyResumes(nodes, targets[0], chain, alias);
      TidyTargets(nodes, targets[1..], chain, alias);
    }
  }

  lemma {:induction false} TidyLines(nodes: Nodes, path: string, chain: set<string>, index: nat, alias: string)
    requires Tidy(nodes) && Readable(nodes, path) && index <= |LinesOf(nodes, path)|
    ensures LinesResume(nodes, path, chain, index, alias)
    decreases Open(nodes, chain), 4, |LinesOf(nodes, path)| - index
  {
    hide TargetsResume, Tidy, PlainNext, Loads, AppliesAfter, HeaderApplies, HeaderOver, IsInclude;
    if index < |LinesOf(nodes, path)| {
      if IsInclude(LinesOf(nodes, path)[index]) { TidyTargets(nodes, Targets(nodes[path].includes, index + 1), chain, alias); }
      TidyLines(nodes, path, chain, index + 1, alias);
      TidyNothingNext(nodes, path, chain, index);
    }
  }

  lemma TidyNothingNext(nodes: Nodes, path: string, chain: set<string>, index: nat)
    requires Tidy(nodes) && Readable(nodes, path) && index < |LinesOf(nodes, path)|
    ensures Loads(nodes, path, chain, index) ==> !PlainNext(nodes, path, chain, index + 1)
  {
    hide PlainNext, IsHeader;
    if Loads(nodes, path, chain, index) {
      NotBoth(LinesOf(nodes, path)[index]);
      HeaderIsDirective(LinesOf(nodes, path)[index]);
      assert IncludesLast(nodes[path]);
      assert TargetLoading(nodes, [], chain) == [];
      assert Targets(nodes[path].includes, index + 1) != [];
      SilentNext(nodes, path, chain, index + 1);
    }
  }

  lemma {:induction false} SilentNext(nodes: Nodes, path: string, chain: set<string>, from: nat)
    requires Readable(nodes, path) && from <= |LinesOf(nodes, path)| && SilentFrom(LinesOf(nodes, path), from)
    ensures !PlainNext(nodes, path, chain, from)
    decreases |LinesOf(nodes, path)| - from
  {
    hide PlainLine, IsHeader, Loads;
    var lines := LinesOf(nodes, path);
    if from < |lines| && !IsHeader(lines[from]) {
      assert NoHeader(lines, from, from + 1);
      forall j | from + 1 <= j < |lines| && NoHeader(lines, from + 1, j + 1) ensures !PlainLine(lines[j]) {
        assert NoHeader(lines, from, j + 1);
      }
      SilentNext(nodes, path, chain, from + 1);
    }
  }

  lemma NothingAtAll(nodes: Nodes, alias: string, applies: bool)
    ensures Attributed(nodes, [], alias, applies) == [] && AppliesAfter(nodes, [], alias, applies) == applies && EffectiveHits(nodes, [], alias) == []
  {}

  /** Where the walk resumes, both readings name the same line for the alias and every keyword:
      the projection's winner is the first explained entry. */
  lemma SameWinner(nodes: Nodes, root: string, alias: string, keyword: string)
    requires Stands(nodes) && Resumes(nodes, root, {}, alias)
    ensures var hits := EffectiveHits(nodes, Visits(nodes, root, {}), alias);
            && Attributed(nodes, Loading(nodes, root, {}), alias, true) == hits
            && FirstHit(SortHits(Kept(hits)), keyword) == FirstHit(hits, keyword)
  {
    hide Visits, Loading, Attributed, EffectiveHits, Kept, SortHits, Tracks, Resumes, Stands, OwnHeader, PlainEvents, PlainVisits, OwnHits;
    var hits := EffectiveHits(nodes, Visits(nodes, root, {}), alias);
    TracksIff(nodes, root, alias);
    TrackedHits(nodes, Loading(nodes, root, {}), alias, true);
    VisitsOwn(nodes, root, {});
    VisitedHits(nodes, Visits(nodes, root, {}), alias);
    SamePlain(nodes, root, {});
    KeptFor(hits, keyword);
    SortHitsFor(Kept(hits), keyword);
    FirstOfHits(hits, keyword);
    FirstOfHits(SortHits(Kept(hits)), keyword);
  }

  /** In particular, for every alias, where no plain directive follows an Include in its block. */
  lemma TidySameWinner(nodes: Nodes, root: string, alias: string, keyword: string)
    requires Tidy(nodes)
    ensures var hits := EffectiveHits(nodes, Visits(nodes, root, {}), alias);
            && Attributed(nodes, Loading(nodes, root, {}), alias, true) == hits
            && FirstHit(SortHits(Kept(hits)), keyword) == FirstHit(hits, keyword)
  {
    hide Visits, Loading, Attributed, EffectiveHits, Kept, SortHits, Resumes, IncludesLast, Stands;
    TidyResumes(nodes, root, {}, alias);
    SameWinner(nodes, root, alias, keyword);
  }

  /** The projection's winner of a keyword is its first source. */
  lemma {:induction false} WinnerIsFirst(sources: seq<Source>, keyword: string, i: nat)
    requires WinnersRight(sources)
    requires i < |sources| && sources[i].winner && sources[i].hit.keyword == keyword
    ensures FirstHit(HitsOf(sources), keyword) == Some(sources[i].hit)
  {
    FirstAt(HitsOf(sources), keyword, i);
  }

  lemma {:induction false} FirstAt(hits: seq<Hit>, keyword: string, i: nat)
    requires i < |hits| && hits[i].keyword == keyword && forall j :: 0 <= j < i ==> hits[j].keyword != keyword
    ensures FirstHit(hits, keyword) == Some(hits[i])
  {
    if i > 0 { FirstAt(hits[1..], keyword, i - 1); }
  }

  // ---- and when they do not ----

  function Word(keyword: string, value: string): Line {
    DirectiveLine("", keyword, " ", [Argument("", value, value)], "", "\n")
  }

  /** A file that includes another and then sets Port; the other ends in a block for one host. */
  function IncludeThenPort(): Nodes {
    map["a" := Node("a", true, false, Some([Word("Include", "b"), Word("Port", "22")]), [Edge(1, "b", "b", "", ["b"])], 1),
        "b" := Node("b", true, false, Some([Word("Host", "other")]), [], 1)]
  }

  lemma KeywordsApart()
    ensures IsInclude(Word("Include", "b")) && !IsHeader(Word("Include", "b"))
    ensures !IsInclude(Word("Port", "22")) && !IsHeader(Word("Port", "22"))
    ensures IsHost(Word("Host", "other")) && Word("Host", "other").Values() == ["other"]
  {
    NotBoth(Word("Include", "b"));
    assert |Lower("Port")| == 4 && Lower("Port")[0] == 'p' && |Lower("Include")| == 7 && Lower("Host")[0] == 'h' && |Lower("Match")| == 5;
    assert ArgumentValues([Argument("", "other", "other")][1..]) == [];
  }

  /** For any alias but that host's, the projection has lost the Port that the file sets for all. */
  lemma ProjectionMissesPort(alias: string)
    requires alias != "other"
    ensures var nodes := IncludeThenPort();
            && !Resumes(nodes, "a", {}, alias)
            && Attributed(nodes, Loading(nodes, "a", {}), alias, true) == []
            && EffectiveHits(nodes, Visits(nodes, "a", {}), alias) == [Hit(Lower("Port"), "a", 1)]
  {
    hide Attributed, EffectiveHits, Loading, Visits, HeaderApplies, Tracks, Resumes;
    var nodes := IncludeThenPort();
    PortEvents();
    PortVisits();
    OtherApplies(alias);
    var enters := [Enter("a", -1), Enter("b", -1), Enter("b", 0)];
    EnterOnly(nodes, enters, alias, true);
    TracksIff(nodes, "a", alias);
    TracksAppend(nodes, enters, [Plain("a", 1)], alias, true);
    OneTracks(nodes, Plain("a", 1), alias, false);
    PortOwn(alias);
    OnePlain(nodes, "a", 1, alias, false);
    AttributedAppend(nodes, enters, [Plain("a", 1)], alias, true);
    PortHits(alias);
  }

  lemma EnterOnly(nodes: Nodes, events: seq<Event>, alias: string, applies: bool)
    requires events != [] && forall i :: 0 <= i < |events| ==> events[i].Enter?
    ensures Attributed(nodes, events, alias, applies) == []
    ensures var last := events[|events| - 1]; AppliesAfter(nodes, events, alias, applies) == HeaderApplies(nodes, last.path, last.header, alias)
    decreases |events|
  {
    hide HeaderApplies;
    if |events| > 1 { EnterOnly(nodes, events[1..], alias, HeaderApplies(nodes, events[0].path, events[0].header, alias)); }
  }

  lemma OtherApplies(alias: string)
    requires alias != "other"
    ensures !HeaderApplies(IncludeThenPort(), "b", 0, alias)
  {
    hide HostLineMatches, ParsePatterns;
    KeywordsApart();
    LiteralHostLine(["other"], alias);
    var lines := LinesOf(IncludeThenPort(), "b");
    assert BlockOf(lines, 0).patterns == ParsePatterns(["other"]);
  }

  lemma PortEvents()
    ensures Loading(IncludeThenPort(), "a", {}) == [Enter("a", -1), Enter("b", -1), Enter("b", 0)] + [Plain("a", 1)]
  {
    hide IsInclude, IsHeader;
    var nodes := IncludeThenPort();
    KeywordsApart();
    HostIsHeader();
    var a, ab := {"a"}, {"a", "b"};
    assert {} + {"a"} == a && a + {"b"} == ab;
    var edge := Edge(1, "b", "b", "", ["b"]);
    assert [edge][..0] == [] && Targets([], 1) == [] && Targets([edge], 1) == ["b"];
    assert LineLoading(nodes, "b", ab, 1) == [];
    assert LineLoading(nodes, "b", ab, 0) == [Enter("b", 0)];
    assert Loading(nodes, "b", a) == [Enter("b", -1), Enter("b", 0)];
    assert ["b"][1..] == [] && TargetLoading(nodes, [], a) == [];
    assert TargetLoading(nodes, ["b"], a) == [Enter("b", -1), Enter("b", 0)];
    assert LineLoading(nodes, "a", a, 2) == [];
    assert LineEvents(nodes, "a", a, 1) == [Plain("a", 1)];
    assert LineLoading(nodes, "a", a, 1) == [Plain("a", 1)];
    assert LineLoading(nodes, "a", a, 0) == [Enter("b", -1), Enter("b", 0)] + [Plain("a", 1)];
  }

  lemma HostIsHeader()
    ensures IsHeader(Word("Host", "other"))
  {}

  lemma PortVisits()
    ensures Visits(IncludeThenPort(), "a", {}) == [Visit("a", 0, -1), Visit("b", 0, 0), Visit("a", 1, -1)]
  {
    hide IsInclude, IsHeader;
    var nodes := IncludeThenPort();
    KeywordsApart();
    HostIsHeader();
    var a, ab := {"a"}, {"a", "b"};
    assert {} + {"a"} == a && a + {"b"} == ab;
    var edge := Edge(1, "b", "b", "", ["b"]);
    assert [edge][..0] == [] && Targets([], 1) == [] && Targets([edge], 1) == ["b"] && Targets([], 2) == [] && Targets([edge], 2) == [];
    var la := LinesOf(nodes, "a");
    assert HeaderOver(la, -1) == -1 && HeaderOver(la, 0) == -1 && HeaderOver(la, 1) == -1 && HeaderOver(LinesOf(nodes, "b"), 0) == 0;
    assert TargetVisits(nodes, [], a) == [] && TargetVisits(nodes, [], ab) == [];
    assert LineVisits(nodes, "b", ab, 1) == [];
    assert LineVisits(nodes, "b", ab, 0) == [Visit("b", 0, 0)];
    assert Visits(nodes, "b", a) == [Visit("b", 0, 0)];
    assert ["b"][1..] == [] && TargetVisits(nodes, ["b"], a) == [Visit("b", 0, 0)];
    assert LineVisits(nodes, "a", a, 2) == [];
    assert LineVisits(nodes, "a", a, 1) == [Visit("a", 1, -1)];
    assert LineVisits(nodes, "a", a, 0) == [Visit("a", 0, -1)] + [Visit("b", 0, 0)] + [Visit("a", 1, -1)];
  }

  lemma PortHits(alias: string)
    ensures EffectiveHits(IncludeThenPort(), [Visit("a", 0, -1), Visit("b", 0, 0), Visit("a", 1, -1)], alias) == [Hit(Lower("Port"), "a", 1)]
  {
    hide HeaderApplies, IsInclude, IsHeader;
    var nodes := IncludeThenPort();
    KeywordsApart();
    HostIsHeader();
    GlobalApplies(nodes, "a", alias);
    var x, y, z := Visit("a", 0, -1), Visit("b", 0, 0), Visit("a", 1, -1);
    OneVisit(nodes, x, alias);
    OneVisit(nodes, y, alias);
    OneVisit(nodes, z, alias);
    assert !IsPlain(nodes, x) && !IsPlain(nodes, y) && IsPlain(nodes, z);
    hide EffectiveHits, IsPlain, IncludeThenPort;
    EffectiveAppend(nodes, [x], [y], alias);
    EffectiveAppend(nodes, [x] + [y], [z], alias);
    assert [x] + [y] + [z] == [x, y, z];
  }

  lemma PortOwn(alias: string)
    ensures OwnApplies(IncludeThenPort(), "a", 1, alias)
  {
    hide HeaderApplies;
    KeywordsApart();
    GlobalApplies(IncludeThenPort(), "a", alias);
    var lines := LinesOf(IncludeThenPort(), "a");
    assert HeaderOver(lines, -1) == -1 && HeaderOver(lines, 0) == -1;
  }

  lemma GlobalApplies(nodes: Nodes, path: string, alias: string)
    ensures HeaderApplies(nodes, path, -1, alias)
  {}

  // ---- one file by itself ----

  function EntriesAt(nodes: Nodes, hits: seq<Hit>): seq<Entry> {
    if hits == [] then []
    else
      var lines := LinesOf(nodes, hits[0].path);
      [Entry(hits[0].keyword, if hits[0].index < |lines| then lines[hits[0].index].Values() else [])] + EntriesAt(nodes, hits[1..])
  }

  lemma {:induction false} EntriesAtAppend(nodes: Nodes, front: seq<Hit>, back: seq<Hit>)
    ensures EntriesAt(nodes, front + back) == EntriesAt(nodes, front) + EntriesAt(nodes, back)
  {
    if front == [] { assert front + back == back; }
    else { assert (front + back)[1..] == front[1..] + back; EntriesAtAppend(nodes, front[1..], back); }
  }

  /** For a file without includes the explained hits are its entries, in order. */
  lemma {:induction false} OneFileEntries(nodes: Nodes, path: string, chain: set<string>, index: nat, alias: string)
    requires Readable(nodes, path) && nodes[path].includes == [] && index <= |LinesOf(nodes, path)|
    ensures EntriesAt(nodes, EffectiveHits(nodes, LineVisits(nodes, path, chain, index), alias))
         == Entries(LinesOf(nodes, path)[index..], alias, HeaderApplies(nodes, path, HeaderOver(LinesOf(nodes, path), index - 1), alias))
    decreases |LinesOf(nodes, path)| - index
  {
    hide HeaderApplies, TargetVisits, EffectiveHits, IsInclude, IsHeader, Targets, HeaderOver;
    var lines := LinesOf(nodes, path);
    NothingAtAll(nodes, alias, true);
    if index < |lines| {
      var own := Visit(path, index, HeaderOver(lines, index));
      var rest := LineVisits(nodes, path, chain, index + 1);
      OneFileEntries(nodes, path, chain, index + 1, alias);
      NoEdges(nodes, chain, index + 1);
      OneVisit(nodes, own, alias);
      EffectiveAppend(nodes, [own], rest, alias);
      EntriesAtAppend(nodes, EffectiveHits(nodes, [own], alias), EffectiveHits(nodes, rest, alias));
      EntryStep(nodes, path, index, alias);
      HeaderIsDirective(lines[index]);
      assert [own] + [] + rest == [own] + rest && [] + [] + rest == rest;
    }
  }

  lemma NoEdges(nodes: Nodes, chain: set<string>, line: nat)
    ensures TargetVisits(nodes, Targets([], line), chain) == []
  {}

  lemma EntryStep(nodes: Nodes, path: string, index: nat, alias: string)
    requires index < |LinesOf(nodes, path)|
    ensures var lines := LinesOf(nodes, path);
            var before := HeaderApplies(nodes, path, HeaderOver(lines, index - 1), alias);
            var here := HeaderApplies(nodes, path, HeaderOver(lines, index), alias);
            Entries(lines[index..], alias, before) ==
              (if PlainLine(lines[index]) && here then [Entry(Lower(lines[index].keyword), lines[index].Values())] else [])
              + Entries(lines[index + 1..], alias, here)
  {
    hide HostLineMatches, ParsePatterns, EqualFold;
    var lines := LinesOf(nodes, path);
    assert lines[index..][1..] == lines[index + 1..] && lines[index..][0] == lines[index];
  }

  /** So what the compiler promises of a file is what the explained values show of it. */
  lemma ExplainedEntries(nodes: Nodes, path: string, alias: string)
    requires Readable(nodes, path) && nodes[path].includes == []
    ensures EntriesAt(nodes, EffectiveHits(nodes, Visits(nodes, path, {}), alias)) == Entries(LinesOf(nodes, path), alias, true)
  {
    hide LineVisits, EffectiveHits;
    var lines := LinesOf(nodes, path);
    OneFileEntries(nodes, path, {} + {path}, 0, alias);
    GlobalApplies(nodes, path, alias);
    assert lines[0..] == lines && HeaderOver(lines, -1) == -1;
  }
}
