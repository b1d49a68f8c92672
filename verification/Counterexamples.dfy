/** Admitted requests that cannot be committed. */
module Counterexamples {
  // Concrete requests that Commit admits and that then stop half way, one for each way
  // of not being separate, and one for a rename.  Staging is possible for every admitted
  // request, so none of what the other modules say of a prepared one is about nothing.

  import opened Results
  import opened Disks
  import opened Journal
  import opened Planning
  import opened StagingFacts
  import opened Guarantees
  import opened Layout
  import opened Relocation

  // ---- staging is possible ----

  ghost function StagedFiles(d: Disk, entries: seq<Entry>): map<Path, File>
    requires forall i :: 0 <= i < |entries| && entries[i].temp.Some? ==> entries[i].digest.Some?
  {
    d.files + map p | p in Temps(entries) :: StagedFile(TempEntry(entries, p))
  }

  ghost function Temps(entries: seq<Entry>): set<Path> {
    set i | 0 <= i < |entries| && entries[i].temp.Some? :: entries[i].temp.value
  }

  ghost function TempEntry(entries: seq<Entry>, p: Path): (e: Entry)
    requires p in Temps(entries)
    ensures e in entries && e.temp == Some(p)
  {
    var i :| 0 <= i < |entries| && entries[i].temp == Some(p);
    entries[i]
  }

  ghost function StagedDirs(d: Disk, entries: seq<Entry>): set<Path> {
    d.dirs + set i, k | 0 <= i < |entries| && entries[i].action == MakeDir && 0 <= k <= |entries[i].path| :: entries[i].path[..k]
  }

  /** Longer than every segment of every path in the set. */
  lemma {:induction false} SegmentBound(paths: set<Path>) returns (bound: nat)
    ensures forall p, s :: p in paths && s in p ==> |s| < bound
  {
    bound := 0;
    var rest := paths;
    while rest != {}
      invariant rest <= paths && forall p, s :: p in paths - rest && s in p ==> |s| < bound
    {
      var p :| p in rest;
      for k := 0 to |p|
        invariant forall q, s :: q in paths - rest && s in q ==> |s| < bound
        invariant forall s :: s in p[..k] ==> |s| < bound
      {
        assert p[..k + 1] == p[..k] + [p[k]];
        if |p[k]| >= bound { bound := |p[k]| + 1; }
      }
      assert p[..|p|] == p;
      rest := rest - {p};
    }
  }

  function Stars(n: nat): string { seq(n, _ => '*') }

  lemma NewNames(d: Disk, entries: seq<Entry>) returns (names: seq<string>)
    ensures FreshNames(d, entries, names)
  {
    var paths := d.files.Keys + d.dirs + (set i | 0 <= i < |entries| :: entries[i].path) + (set i | 0 <= i < |entries| :: entries[i].target);
    var bound := SegmentBound(paths);
    names := seq(|entries|, i requires 0 <= i < |entries| => Stars(bound + i));
    forall i | 0 <= i < |names| ensures |names[i]| == bound + i { assert names[i] == Stars(bound + i); }
    forall i, p | 0 <= i < |names| && Named(d, entries, p) ensures names[i] !in p { assert p in paths; }
  }

  /** Every admitted request can be staged. */
  lemma StagingPossible(d: Disk, request: Request, id: Id) returns (names: seq<string>, entries: seq<Entry>, start: Disk)
    requires WellFormed(d) && PlanRequest(d, request).Ok?
    ensures Prepared(d, request, id, names, entries, start)
  {
    hide PlanRequest, FreshNames;
    names := NewNames(d, PlanRequest(d, request).value.entries);
    entries, start := StagingWith(d, request, id, names);
  }

  /** ... whatever new names are drawn. */
  lemma StagingWith(d: Disk, request: Request, id: Id, names: seq<string>) returns (entries: seq<Entry>, start: Disk)
    requires WellFormed(d) && PlanRequest(d, request).Ok? && FreshNames(d, PlanRequest(d, request).value.entries, names)
    ensures Prepared(d, request, id, names, entries, start)
  {
    hide PlanRequest, Items;
    var plan := PlanRequest(d, request).value;
    var base := Unpack(d, request);
    entries := StageEntries(plan.entries, id, names);
    forall i | 0 <= i < |entries| && entries[i].temp.Some?
      ensures entries[i].digest.Some? && entries[i].temp.value == TempPath(plan.entries[i], names[i])
    {
      Origin(d, request, base, plan, i);
      PlannedPathNotRoot(d, request, base, plan, i);
    }
    start := Disk(StagedFiles(d, entries), StagedDirs(d, entries));
    forall i | 0 <= i < |entries| && entries[i].temp.Some? ensures Lookup(start, entries[i].temp.value) == Some(StagedFile(entries[i])) {
      OneTemp(plan.entries, id, names, entries, i);
    }
    forall p | !IsTemp(entries, p) ensures Lookup(start, p) == Lookup(d, p) {
      assert p !in Temps(entries);
    }
    forall q ensures q in start.dirs <==> q in d.dirs || InNewDirectory(entries, q) {
      if InNewDirectory(entries, q) {
        var i :| 0 <= i < |entries| && entries[i].action == MakeDir && q <= entries[i].path;
        assert q == entries[i].path[..|q|];
      }
    }
  }

  lemma OneTemp(planned: seq<Entry>, id: Id, names: seq<string>, entries: seq<Entry>, i: nat)
    requires |names| == |planned| && entries == StageEntries(planned, id, names) && i < |entries| && entries[i].temp.Some?
    requires forall j, k :: 0 <= j < k < |names| ==> names[j] != names[k]
    requires forall j :: 0 <= j < |entries| && entries[j].temp.Some? ==>
               planned[j].path != [] && entries[j].temp.value == TempPath(planned[j], names[j])
    ensures entries[i].temp.value in Temps(entries) && TempEntry(entries, entries[i].temp.value) == entries[i]
  {
    var p := entries[i].temp.value;
    var e := TempEntry(entries, p);
    var j :| 0 <= j < |entries| && entries[j] == e;
    if j != i { TempsDiffer(planned, names, j, i); }
  }

  // ---- three of them ----

  const SomeDirectory: Disk := Disk(map[], {[], ["d"]})

  /** A file put into a directory that the same request removes. */
  const IntoRemoved: Request := Request([], [Change(["d", "f"], "x", None, false)], [], [], [["d"]])

  lemma IntoRemovedAdmitted()
    ensures WellFormed(SomeDirectory) && PlanRequest(SomeDirectory, IntoRemoved).Ok?
  {
    var d, items := SomeDirectory, [ChangeItem(Change(["d", "f"], "x", None, false))];
    assert Items(IntoRemoved) == items;
    assert ["d", "f"][..1] == ["d"] == ["d"][..1];
    assert PlanItems(d, {}, items[..0]) == Ok(Plan([], {}));
    assert Planned([]) == {};
    var base := PlanItems(d, {}, items).value;
    assert Deepest([["d"]]) == [["d"]];
    assert RemovalStep(d, base, ["d"]).Ok?;
    assert PlanRemovals(d, base, [["d"]][..0]) == Ok(base);
  }

  /** It is admitted, can be staged, and however it is staged its commit stops. */
  lemma IntoRemovedSticks(id: Id)
    ensures PlanRequest(SomeDirectory, IntoRemoved).Ok? && !Separate(SomeDirectory, IntoRemoved)
    ensures exists names, entries, start :: Prepared(SomeDirectory, IntoRemoved, id, names, entries, start)
    ensures forall names, entries, start :: Prepared(SomeDirectory, IntoRemoved, id, names, entries, start) ==>
              Run(start, entries, |entries|) == None
  {
    hide PlanRequest, Prepared, Run;
    var d, request := SomeDirectory, IntoRemoved;
    IntoRemovedAdmitted();
    assert ChangesAt(request, ["d", "f"]) by { assert request.changes[0].path == ["d", "f"]; }
    assert Placing(request, ["d", "f"]) && ["d"] in request.removeDirectories && ["d"] in d.dirs && Beneath(["d", "f"], ["d"]);
    Sticks(d, request, id);
  }

  lemma Sticks(d: Disk, request: Request, id: Id)
    requires WellFormed(d) && PlanRequest(d, request).Ok? && !Separate(d, request)
    ensures exists names, entries, start :: Prepared(d, request, id, names, entries, start)
    ensures forall names, entries, start :: Prepared(d, request, id, names, entries, start) ==> Run(start, entries, |entries|) == None
  {
    hide *;
    var names, entries, start := StagingPossible(d, request, id);
    forall names, entries, start | Prepared(d, request, id, names, entries, start) ensures Run(start, entries, |entries|) == None {
      CommitGoesThroughIffSeparate(d, request, id, names, entries, start);
    }
  }

  const NoFiles: Disk := Disk(map[], {[]})

  /** A file put where a directory is to be. */
  const OntoCreated: Request := Request([["d", "e"]], [Change(["d"], "x", None, false)], [], [], [])

  lemma OntoCreatedAdmitted()
    ensures WellFormed(NoFiles) && PlanRequest(NoFiles, OntoCreated).Ok?
  {
    var d, planned, items := NoFiles, Planned([["d", "e"]]), [CreateItem(["d", "e"]), ChangeItem(Change(["d"], "x", None, false))];
    assert Items(OntoCreated) == items;
    assert items[..2][..1][..0] == [] && items[..2] == items && items[..1] == [items[0]];
    assert PlanItems(d, planned, []) == Ok(Plan([], {}));
    assert PlanItems(d, planned, items[..1]).Ok?;
    assert PlanItems(d, planned, items[..1]).value.claimed == {["d", "e"]};
    assert PlanItems(d, planned, items).Ok?;
  }

  lemma OntoCreatedSticks(id: Id)
    ensures PlanRequest(NoFiles, OntoCreated).Ok? && !Separate(NoFiles, OntoCreated)
    ensures exists names, entries, start :: Prepared(NoFiles, OntoCreated, id, names, entries, start)
    ensures forall names, entries, start :: Prepared(NoFiles, OntoCreated, id, names, entries, start) ==>
              Run(start, entries, |entries|) == None
  {
    hide PlanRequest, Prepared, Run;
    OntoCreatedAdmitted();
    var d, request := NoFiles, OntoCreated;
    assert ChangesAt(request, ["d"]) by { assert request.changes[0].path == ["d"]; }
    assert CreatesDirectory(request, ["d", "e"]) by { assert request.directories[0] == ["d", "e"]; }
    assert ["d"] < ["d", "e"];
    Sticks(d, request, id);
  }

  // Renaming a/b to a, with a/b, a/b/b and a/b/b/c declared and one file, in the last.

  const Ab: Group := ["a", "b"]
  const Abb: Group := ["a", "b", "b"]
  const Abbc: Group := ["a", "b", "b", "c"]
  const SomeGroups: seq<Group> := [Ab, Abb, Abbc]
  const Old: Path := ["connections", "a", "b", "b", "c", "f"]
  const New: Path := ["connections", "a", "b", "c", "f"]
  const OneFile: File := File("k", 0x180)
  const Repeated: Disk := Disk(map[Old := OneFile], {[], Old[..1], Old[..2], Old[..3], Old[..4], Old[..5]})
  const RepeatedRename: Request :=
    Request([New[..4]], [], [FileMove(Old, New, Some(Digest("k")))], [], [Old[..3], Old[..4], Old[..5]])

  lemma RepeatedTree()
    ensures WellFormed(Repeated)
  {
    assert Parent(Old) == Old[..5];
    assert Parent(Old[..5]) == Old[..4] && Parent(Old[..4]) == Old[..3] && Parent(Old[..3]) == Old[..2];
    assert Parent(Old[..2]) == Old[..1] && Parent(Old[..1]) == [];
  }

  lemma RepeatedRenamed()
    ensures Renamed(SomeGroups, Ab, ["a"]) == map[Ab := ["a"], Abb := ["a", "b"], Abbc := ["a", "b", "c"]]
  {
    assert NewName(Ab, ["a"], Ab) == ["a"] && NewName(Ab, ["a"], Abb) == ["a", "b"] && NewName(Ab, ["a"], Abbc) == ["a", "b", "c"];
  }

  lemma RepeatedMoves(from: Path, to: Path)
    ensures FileMoves(Repeated, Renamed(SomeGroups, Ab, ["a"]), from, to) <==> from == Old && to == New
    ensures from in MovingFiles(Repeated, Renamed(SomeGroups, Ab, ["a"])) <==> from == Old
  {
    RepeatedRenamed();
    assert Old[1..5] == Abbc;
  }

  lemma RepeatedGivesUp(x: Path)
    ensures GivenUp(Repeated, Renamed(SomeGroups, Ab, ["a"]), x) <==> x in [Old[..3], Old[..4], Old[..5]]
  {
    var renamed := Renamed(SomeGroups, Ab, ["a"]);
    RepeatedTree();
    RepeatedRenamed();
    RepeatedMoves(Old, New);
    assert Old[..3] == GroupDirectory(Connections, Ab) && Old[..4] == GroupDirectory(Connections, Abb);
    assert Old[..5] == GroupDirectory(Connections, Abbc);
    GivenUpIff(Repeated, renamed, x);
  }

  lemma RepeatedCarried()
    ensures Carries(Repeated, Renamed(SomeGroups, Ab, ["a"]), [], RepeatedRename)
  {
    hide GivenUp, FileMoves, Empties, Sources, MovingFiles, Renamed;
    var renamed, request := Renamed(SomeGroups, Ab, ["a"]), RepeatedRename;
    RepeatedMoves(Old, New);
    assert request.moves[0].to == New && request.moves[0].from == Old;
    assert request.directories[0] == Parent(New);
    forall from, to | FileMoves(Repeated, renamed, from, to) ensures from == Old && to == New { RepeatedMoves(from, to); }
    forall x ensures GivenUp(Repeated, renamed, x) <==> x in request.removeDirectories { RepeatedGivesUp(x); }
    assert forall to :: MovesTo(request, to) <==> to == New;
    assert forall q :: CreatesDirectory(request, q) <==> q == Parent(New);
    GivenUpReads(renamed, request);
    hide RepeatedRename;
  }

  lemma GivenUpReads(renamed: map<Group, Group>, request: Request)
    requires forall x :: GivenUp(Repeated, renamed, x) <==> x in request.removeDirectories
    ensures forall x :: x in request.removeDirectories <==>
              x in Sources(renamed) && Empties(Repeated, Sources(renamed), MovingFiles(Repeated, renamed), x)
  {
    hide Empties, Sources, MovingFiles, Repeated;
  }

  lemma RepeatedItems()
    ensures PlanItems(Repeated, Planned(RepeatedRename.directories), Items(RepeatedRename)).Ok?
  {
    var d, request := Repeated, RepeatedRename;
    var planned, items := Planned(request.directories), [CreateItem(New[..4]), MoveItem(request.moves[0])];
    assert Items(request) == items;
    assert items[..2][..1][..0] == [] && items[..2] == items && items[..1] == [items[0]];
    assert PlanItems(d, planned, []) == Ok(Plan([], {}));
    assert PlanItems(d, planned, items[..1]).value.claimed == {New[..4]};
    forall k | 0 < k < |Old| ensures Old[..k] !in d.files && Old[..k] in d.dirs {
      assert k == 1 || k == 2 || k == 3 || k == 4 || k == 5;
    }
    assert ResolvesForWrite(d, Old, {});
    forall k | 0 < k < |New| ensures New[..k] !in d.files && New[..k] in planned {
      assert New[..k] == request.directories[0][..k];
    }
    assert New[3] != Old[3];
    assert ResolvesForWrite(d, New, planned);
    assert ItemError(d, planned, {New[..4]}, items[1]) == None;
  }

  lemma RepeatedLands()
    ensures LandsIn(Repeated, SomeGroups, Ab, ["a"], Connections, Old, Abbc, Ab)
    ensures !exists root, file, n, m :: LandsAt(Repeated, SomeGroups, Ab, ["a"], root, file, n, m)
  {
    hide GivenUp, Renamed;
    RepeatedGivesUp(Old[..3]);
    assert Old[..3] == GroupDirectory(Connections, Ab);
    assert Parent(Old) == GroupDirectory(Connections, Abbc);
    forall root, file, n, m | LandsIn(Repeated, SomeGroups, Ab, ["a"], root, file, n, m) ensures n != Ab + m[1..] {
      assert file == Old;
      assert n == Old[1..5];
      assert m == Ab || m == Abb || m == Abbc;
      assert n[3] != Abb[2] && |n| == 4;
    }
  }

  /** The planner admits the rename, and its commit stops: a/b still holds what was moved into it. */
  lemma RepeatedRenameStuck(id: Id)
    ensures Carries(Repeated, Renamed(SomeGroups, Ab, ["a"]), [], RepeatedRename) && PlanRequest(Repeated, RepeatedRename).Ok?
    ensures exists names, entries, start :: Prepared(Repeated, RepeatedRename, id, names, entries, start)
    ensures forall names, entries, start :: Prepared(Repeated, RepeatedRename, id, names, entries, start) ==>
              Run(start, entries, |entries|) == None
  {
    hide Prepared, Run, PlanItems, PlanRequest, LandsIn, LandsAt, Carries, WellFormed;
    RepeatedTree();
    RepeatedCarried();
    RepeatedItems();
    RepeatedLands();
    RepeatedRenameSticks(Repeated, SomeGroups, Ab, ["a"], [], RepeatedRename, id, [], [], Repeated);
    forall names, entries, start | Prepared(Repeated, RepeatedRename, id, names, entries, start)
      ensures Run(start, entries, |entries|) == None
    {
      RepeatedRenameSticks(Repeated, SomeGroups, Ab, ["a"], [], RepeatedRename, id, names, entries, start);
    }
    var names, entries, start := StagingPossible(Repeated, RepeatedRename, id);
  }
}
