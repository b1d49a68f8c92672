/**
 From an admitted request to a staged disk: everything the journal theorems need
 is established by the planning checks, and their conclusions are carried back to
 the paths the request names.
 */
module StagingFacts {
  import opened Results
  import opened Disks
  import opened Journal
  import opened Planning
  import opened Rollback

  // ---- what planning established ----

  ghost predicate Acceptable(d: Disk, planned: set<Path>, item: Item) {
    ItemError(d, planned, {}, item).None?
  }

  ghost predicate ItemsPlanned(d: Disk, planned: set<Path>, items: seq<Item>, plan: Plan) {
    && |plan.entries| == |items|
    && (forall i :: 0 <= i < |items| ==> plan.entries[i] == ItemEntry(d, items[i]) && Acceptable(d, planned, items[i]))
    && (forall i :: 0 <= i < |items| ==> Claims(items[i]) <= plan.claimed)
    && (forall p :: p in plan.claimed ==> ClaimedBy(items, p))
    && (forall i, j :: 0 <= i < j < |items| ==> Claims(items[i]) !! Claims(items[j]))
  }

  ghost predicate ClaimedBy(items: seq<Item>, p: Path) {
    exists i :: 0 <= i < |items| && p in Claims(items[i])
  }

  lemma ClaimedByMore(items: seq<Item>, item: Item, p: Path)
    ensures ClaimedBy(items + [item], p) <==> ClaimedBy(items, p) || p in Claims(item)
  {
    var more := items + [item];
    if p in Claims(item) { assert p in Claims(more[|items|]); }
    if ClaimedBy(items, p) {
      var i :| 0 <= i < |items| && p in Claims(items[i]);
      assert p in Claims(more[i]);
    }
  }

  lemma AdmittedItem(d: Disk, planned: set<Path>, claimed: set<Path>, item: Item)
    requires ItemError(d, planned, claimed, item).None?
    ensures Acceptable(d, planned, item) && Claims(item) !! claimed
  {}

  lemma NothingPlanned(d: Disk, planned: set<Path>)
    ensures ItemsPlanned(d, planned, [], Plan([], {}))
  {}

  lemma PlannedItemStep(d: Disk, planned: set<Path>, items: seq<Item>, item: Item, before: Plan)
    requires ItemsPlanned(d, planned, items, before)
    requires Acceptable(d, planned, item) && Claims(item) !! before.claimed
    ensures ItemsPlanned(d, planned, items + [item],
                         Plan(before.entries + [ItemEntry(d, item)], before.claimed + Claims(item)))
  {
    hide ItemError, ItemEntry, Claims, Acceptable, ClaimedBy;
    var more, plan := items + [item], Plan(before.entries + [ItemEntry(d, item)], before.claimed + Claims(item));
    forall p | p in plan.claimed ensures ClaimedBy(more, p) { ClaimedByMore(items, item, p); }
    forall i, j | 0 <= i < j < |more| ensures Claims(more[i]) !! Claims(more[j]) {
      assert Claims(items[i]) <= before.claimed;
    }
  }

  lemma {:induction false} PlannedItems(d: Disk, planned: set<Path>, items: seq<Item>)
    requires PlanItems(d, planned, items).Ok?
    ensures ItemsPlanned(d, planned, items, PlanItems(d, planned, items).value)
  {
    hide ItemError, ItemEntry, Claims, Acceptable, ItemsPlanned;
    if items == [] {
      NothingPlanned(d, planned);
    } else {
      var shorter, item := items[..|items| - 1], items[|items| - 1];
      PlannedItems(d, planned, shorter);
      var before := PlanItems(d, planned, shorter).value;
      AdmittedItem(d, planned, before.claimed, item);
      PlannedItemStep(d, planned, shorter, item, before);
      assert items == shorter + [item];
    }
  }

  /** The directory removals that follow the items of a plan. */
  ghost predicate RemovalsPlanned(d: Disk, base: Plan, plan: Plan) {
    && base.entries <= plan.entries && base.claimed <= plan.claimed
    && (forall i :: |base.entries| <= i < |plan.entries| ==> RemovalPlanned(d, base, plan, i))
    && (forall p :: p in plan.claimed - base.claimed ==>
          p !in d.files && (p in d.dirs ==> exists i :: |base.entries| <= i < |plan.entries| && plan.entries[i].path == p))
  }

  ghost predicate RemovalPlanned(d: Disk, base: Plan, plan: Plan, i: nat)
    requires |base.entries| <= i < |plan.entries|
  {
    var p := plan.entries[i].path;
    && plan.entries[i] == RemoveDirEntry(p) && p in d.dirs && p != [] && p in plan.claimed - base.claimed
    && (forall q :: q in d.files && IsChild(q, p) ==> q in base.claimed)
    && (forall q :: q in d.dirs && IsChild(q, p) && q !in base.claimed ==>
          exists j :: |base.entries| <= j < i && plan.entries[j].path == q)
    && (forall j :: |base.entries| <= j < i ==> plan.entries[j].path != p)
  }

  lemma RemovalKept(d: Disk, base: Plan, so: Plan, step: Plan, i: nat)
    requires |base.entries| <= i < |so.entries| && so.entries <= step.entries && so.claimed <= step.claimed
    requires RemovalPlanned(d, base, so, i)
    ensures RemovalPlanned(d, base, step, i)
  {
    var p := so.entries[i].path;
    forall q | q in d.dirs && IsChild(q, p) && q !in base.claimed
      ensures exists j :: |base.entries| <= j < i && step.entries[j].path == q
    {
      var j :| |base.entries| <= j < i && so.entries[j].path == q;
      assert step.entries[j].path == q;
    }
  }

  lemma PlannedRemovalStep(d: Disk, base: Plan, so: Plan, p: Path)
    requires RemovalsPlanned(d, base, so) && RemovalStep(d, so, p).Ok?
    ensures RemovalsPlanned(d, base, RemovalStep(d, so, p).value)
  {
    var step := RemovalStep(d, so, p).value;
    assert p[..|p|] == p;
    forall i | |base.entries| <= i < |step.entries| ensures RemovalPlanned(d, base, step, i) {
      if i < |so.entries| {
        RemovalKept(d, base, so, step, i);
      } else {
        NewRemoval(d, base, so, p);
      }
    }
    forall q | q in step.claimed - base.claimed
      ensures q !in d.files && (q in d.dirs ==> exists i :: |base.entries| <= i < |step.entries| && step.entries[i].path == q)
    {
      if q == p {
        if q in d.dirs { assert step.entries[|so.entries|].path == q; }
      } else if q in d.dirs {
        var i :| |base.entries| <= i < |so.entries| && so.entries[i].path == q;
        assert step.entries[i].path == q;
      }
    }
  }

  lemma NewRemoval(d: Disk, base: Plan, so: Plan, p: Path)
    requires RemovalsPlanned(d, base, so) && RemovalStep(d, so, p).Ok? && p in d.dirs
    ensures RemovalPlanned(d, base, RemovalStep(d, so, p).value, |so.entries|)
  {
    var step := RemovalStep(d, so, p).value;
    assert p[..|p|] == p;
    forall q | q in d.dirs && IsChild(q, p) && q !in base.claimed
      ensures exists j :: |base.entries| <= j < |so.entries| && step.entries[j].path == q
    {
      assert q in so.claimed + {p} && q != p;
      var j :| |base.entries| <= j < |so.entries| && so.entries[j].path == q;
      assert step.entries[j].path == q;
    }
    forall q | q in d.files && IsChild(q, p) ensures q in base.claimed {
      assert q in so.claimed + {p} && q != p;
    }
    forall j | |base.entries| <= j < |so.entries| ensures step.entries[j].path != p {
      assert RemovalPlanned(d, base, so, j);
    }
  }

  lemma {:induction false} PlannedRemovals(d: Disk, base: Plan, dirs: seq<Path>)
    requires PlanRemovals(d, base, dirs).Ok?
    ensures RemovalsPlanned(d, base, PlanRemovals(d, base, dirs).value)
  {
    if dirs != [] {
      var shorter := dirs[..|dirs| - 1];
      PlannedRemovals(d, base, shorter);
      PlannedRemovalStep(d, base, PlanRemovals(d, base, shorter).value, dirs[|dirs| - 1]);
    }
  }

  // ---- the staged entries and the staged disk ----

  predicate NeedsBackup(e: Entry) {
    (e.action == Write || e.action == RemoveFile) && e.hadPrevious && !e.noBackup
  }

  function TempPath(e: Entry, name: string): Path
    requires e.path != []
  {
    Parent(e.path) + [name]
  }

  function StageEntry(e: Entry, id: Id, name: string): Entry {
    e.(backup := if NeedsBackup(e) then Some(BackupKey(id, e.path)) else None,
       temp := if e.action == Write && e.path != [] then Some(TempPath(e, name)) else None)
  }

  function StageEntries(entries: seq<Entry>, id: Id, names: seq<string>): seq<Entry>
    requires |names| == |entries|
  {
    seq(|entries|, i requires 0 <= i < |entries| => StageEntry(entries[i], id, names[i]))
  }

  ghost predicate Named(d: Disk, entries: seq<Entry>, p: Path) {
    p in d.files || p in d.dirs || exists i :: 0 <= i < |entries| && (p == entries[i].path || p == entries[i].target)
  }

  /** The temporary names are new: no path on the disk or in the request uses them. */
  ghost predicate FreshNames(d: Disk, entries: seq<Entry>, names: seq<string>) {
    && |names| == |entries|
    && (forall i, j :: 0 <= i < j < |names| ==> names[i] != names[j])
    && (forall i, p :: 0 <= i < |names| && Named(d, entries, p) ==> names[i] !in p)
  }

  function StagedFile(e: Entry): File
    requires e.digest.Some?
  {
    File(e.digest.value.preimage, e.mode)
  }

  /** Staging added the new contents beside their places and the new directories,
      and changed nothing else. */
  ghost predicate IsStart(d: Disk, entries: seq<Entry>, start: Disk) {
    && (forall q :: q in start.dirs <==> q in d.dirs || InNewDirectory(entries, q))
    && (forall p :: !IsTemp(entries, p) ==> Lookup(start, p) == Lookup(d, p))
    && (forall i :: 0 <= i < |entries| && entries[i].temp.Some? ==>
          entries[i].digest.Some? && Lookup(start, entries[i].temp.value) == Some(StagedFile(entries[i])))
  }

  ghost predicate InNewDirectory(entries: seq<Entry>, q: Path) {
    exists i :: 0 <= i < |entries| && entries[i].action == MakeDir && q <= entries[i].path
  }

  ghost predicate IsTemp(entries: seq<Entry>, p: Path) {
    exists i :: 0 <= i < |entries| && entries[i].temp == Some(p)
  }

  /** Everything known about a transaction that has been staged. */
  ghost predicate Prepared(d: Disk, request: Request, id: Id, names: seq<string>, entries: seq<Entry>, start: Disk) {
    && WellFormed(d)
    && PlanRequest(d, request).Ok?
    && var plan := PlanRequest(d, request).value;
    && FreshNames(d, plan.entries, names)
    && entries == StageEntries(plan.entries, id, names)
    && IsStart(d, entries, start)
  }

  /** The same, unpacked into what the planning lemmas give. */
  ghost predicate Unpacked(d: Disk, request: Request, base: Plan, plan: Plan) {
    && ItemsPlanned(d, Planned(request.directories), Items(request), base)
    && RemovalsPlanned(d, base, plan)
  }

  lemma Unpack(d: Disk, request: Request) returns (base: Plan)
    requires PlanRequest(d, request).Ok?
    ensures Unpacked(d, request, base, PlanRequest(d, request).value)
  {
    var planned := Planned(request.directories);
    base := PlanItems(d, planned, Items(request)).value;
    PlannedItems(d, planned, Items(request));
    PlannedRemovals(d, base, Deepest(request.removeDirectories));
  }

  /** What an entry of the plan came from. */
  lemma Origin(d: Disk, request: Request, base: Plan, plan: Plan, i: nat)
    requires Unpacked(d, request, base, plan) && i < |plan.entries|
    ensures |base.entries| == |Items(request)|
    ensures plan.entries[i].action != RemoveDir ==>
              && i < |base.entries| && plan.entries[i] == ItemEntry(d, Items(request)[i])
              && Acceptable(d, Planned(request.directories), Items(request)[i])
    ensures plan.entries[i].action == RemoveDir ==> i >= |base.entries| && RemovalPlanned(d, base, plan, i)
  {
    if i < |base.entries| {
      assert plan.entries[i] == base.entries[i];
    } else {
      assert RemovalPlanned(d, base, plan, i);
    }
  }

  /** Entry k of the plan is that of item k. */
  lemma PlannedEntry(d: Disk, request: Request, base: Plan, plan: Plan, k: nat)
    requires Unpacked(d, request, base, plan) && k < |Items(request)|
    ensures k < |base.entries| <= |plan.entries|
    ensures plan.entries[k] == ItemEntry(d, Items(request)[k])
    ensures Acceptable(d, Planned(request.directories), Items(request)[k])
  {
    hide Items, Acceptable, ItemEntry;
    OriginPrefix(d, base, plan);
    assert plan.entries[k] == base.entries[k];
  }

  lemma PlannedPathNotRoot(d: Disk, request: Request, base: Plan, plan: Plan, i: nat)
    requires Unpacked(d, request, base, plan) && i < |plan.entries|
    ensures plan.entries[i].path != [] && (plan.entries[i].action == Move ==> plan.entries[i].target != [])
  {
    Origin(d, request, base, plan, i);
  }

  // ---- the staged disk satisfies what the journal theorems ask ----

  lemma OriginPrefix(d: Disk, base: Plan, plan: Plan)
    requires RemovalsPlanned(d, base, plan)
    ensures base.entries <= plan.entries
  {}

  lemma OriginsBefore(d: Disk, request: Request, base: Plan, plan: Plan, i: nat, j: nat)
    requires Unpacked(d, request, base, plan) && i < |base.entries| && j < |base.entries|
    ensures |base.entries| == |Items(request)|
    ensures About(plan.entries[i]) == Claims(Items(request)[i]) && About(plan.entries[j]) == Claims(Items(request)[j])
  {
    hide Items, Acceptable, RemovalsPlanned;
    PlannedEntry(d, request, base, plan, i);
    PlannedEntry(d, request, base, plan, j);
    hide Unpacked, ItemsPlanned;
  }

  lemma AboutDisjoint(d: Disk, request: Request, base: Plan, plan: Plan, i: nat, j: nat)
    requires Unpacked(d, request, base, plan) && i < j < |plan.entries|
    ensures About(plan.entries[i]) !! About(plan.entries[j])
  {
    hide Acceptable, PlanRequest, Items;
    Origin(d, request, base, plan, i);
    Origin(d, request, base, plan, j);
    var items := Items(request);
    if j < |base.entries| {
      OriginsBefore(d, request, base, plan, i, j);
      assert Claims(items[i]) !! Claims(items[j]);
    } else if i < |base.entries| {
      OriginsBefore(d, request, base, plan, i, i);
      assert Claims(items[i]) <= base.claimed;
    }
  }

  lemma TempsAreNew(d: Disk, entries: seq<Entry>, names: seq<string>, i: nat, j: nat)
    requires FreshNames(d, entries, names) && i < |entries| && j < |entries| && entries[i].path != []
    ensures TempPath(entries[i], names[i]) !in About(entries[j])
  {
    forall p | p in About(entries[j]) ensures TempPath(entries[i], names[i]) != p {
      assert Named(d, entries, p);
    }
  }

  lemma TempsDiffer(entries: seq<Entry>, names: seq<string>, i: nat, j: nat)
    requires |names| == |entries| && i < |entries| && j < |entries| && names[i] != names[j]
    requires entries[i].path != [] && entries[j].path != []
    ensures TempPath(entries[i], names[i]) != TempPath(entries[j], names[j])
  {
    var a, b := TempPath(entries[i], names[i]), TempPath(entries[j], names[j]);
    assert a[|a| - 1] == names[i] && b[|b| - 1] == names[j];
  }

  lemma StagedTouches(d: Disk, request: Request, id: Id, names: seq<string>, entries: seq<Entry>, start: Disk, i: nat)
    requires Prepared(d, request, id, names, entries, start) && i < |entries|
    ensures var e := PlanRequest(d, request).value.entries[i];
            && e.path != [] && entries[i] == StageEntry(e, id, names[i])
            && Touches(entries[i]) == (if OnDirectory(e) then {} else
                 About(e) + (if e.action == Write then {TempPath(e, names[i])} else {}))
  {
    var base := Unpack(d, request);
    PlannedPathNotRoot(d, request, base, PlanRequest(d, request).value, i);
  }

  lemma PreparedDisjoint(d: Disk, request: Request, id: Id, names: seq<string>, entries: seq<Entry>, start: Disk)
    requires Prepared(d, request, id, names, entries, start)
    ensures Disjoint(entries)
  {
    hide PlanRequest, Touches, About, TempPath, StageEntry, Unpacked;
    var plan := PlanRequest(d, request).value;
    var base := Unpack(d, request);
    forall i, j | 0 <= i < j < |entries| ensures Touches(entries[i]) !! Touches(entries[j]) {
      StagedTouches(d, request, id, names, entries, start, i);
      StagedTouches(d, request, id, names, entries, start, j);
      AboutDisjoint(d, request, base, plan, i, j);
      TempsDiffer(plan.entries, names, i, j);
      TempsAreNew(d, plan.entries, names, i, j);
      TempsAreNew(d, plan.entries, names, j, i);
      TempsAreNew(d, plan.entries, names, i, i);
    }
  }

  lemma PreparedInOrder(d: Disk, request: Request, id: Id, names: seq<string>, entries: seq<Entry>, start: Disk)
    requires Prepared(d, request, id, names, entries, start)
    ensures InOrder(entries)
  {
    hide Items, PlanRequest, Acceptable;
    var plan := PlanRequest(d, request).value;
    var base := Unpack(d, request);
    ItemsInOrder(request);
    hide ItemsPlanned, RemovalsPlanned, Unpacked, FreshNames, IsStart, WellFormed;
    forall i | 0 <= i < |entries|
      ensures entries[i].action == plan.entries[i].action
      ensures entries[i].action != RemoveDir ==> i < |Items(request)| && Rank(entries[i].action) == ItemRank(Items(request)[i])
      ensures entries[i].action == RemoveDir ==> i >= |Items(request)|
    {
      Origin(d, request, base, plan, i);
    }
    forall i, j | 0 <= i < j < |entries| ensures Rank(entries[i].action) <= Rank(entries[j].action) {
      if entries[i].action != RemoveDir && entries[j].action != RemoveDir {
        assert ItemRank(Items(request)[i]) <= ItemRank(Items(request)[j]);
      }
    }
  }

  /** Every directory on the way to a place to be written stands once staging is done. */
  lemma WayStands(d: Disk, request: Request, id: Id, names: seq<string>, entries: seq<Entry>, start: Disk, p: Path)
    requires Prepared(d, request, id, names, entries, start)
    requires ResolvesForWrite(d, p, Planned(request.directories)) || ResolvesForWrite(d, p, {})
    ensures p != [] && Parent(p) in start.dirs
  {
    var up := Parent(p);
    if up == [] {
      assert [] in d.dirs;
    } else {
      assert up == p[..|p| - 1];
      if up !in d.dirs {
        assert up in Planned(request.directories);
        PlannedIsNew(d, request, id, names, entries, start, up);
      }
    }
  }

  lemma PlannedIsNew(d: Disk, request: Request, id: Id, names: seq<string>, entries: seq<Entry>, start: Disk, q: Path)
    requires Prepared(d, request, id, names, entries, start) && q in Planned(request.directories)
    ensures q in start.dirs
  {
    var base := Unpack(d, request);
    var plan := PlanRequest(d, request).value;
    var i, k :| 0 <= i < |request.directories| && 0 < k <= |request.directories[i]| && q == request.directories[i][..k];
    assert Items(request)[i] == CreateItem(request.directories[i]);
    assert plan.entries[i] == base.entries[i] == ItemEntry(d, Items(request)[i]);
    assert entries[i].action == MakeDir && entries[i].path == request.directories[i];
    assert q <= entries[i].path;
    assert InNewDirectory(entries, q);
  }

  lemma StartDirectoryNoTemp(d: Disk, request: Request, id: Id, names: seq<string>, entries: seq<Entry>, start: Disk, base: Plan, p: Path)
    requires Prepared(d, request, id, names, entries, start) && p in start.dirs
    requires Unpacked(d, request, base, PlanRequest(d, request).value)
    ensures !IsTemp(entries, p)
  {
    hide PlanRequest, Unpacked;
    var plan := PlanRequest(d, request).value;
    forall i | 0 <= i < |entries| ensures entries[i].temp != Some(p) {
      PlannedPathNotRoot(d, request, base, plan, i);
      var temp := TempPath(plan.entries[i], names[i]);
      assert temp[|temp| - 1] == names[i];
      if p in d.dirs {
        assert Named(d, plan.entries, p);
      } else {
        var m :| 0 <= m < |entries| && entries[m].action == MakeDir && p <= entries[m].path;
        assert Named(d, plan.entries, entries[m].path) by { assert entries[m].path == plan.entries[m].path; }
        assert forall q :: q in p ==> q in entries[m].path;
      }
    }
  }

  /** A staged directory is not a file, and a file not a staged directory. */
  lemma StartSeparates(d: Disk, request: Request, id: Id, names: seq<string>, entries: seq<Entry>, start: Disk, p: Path)
    requires Prepared(d, request, id, names, entries, start) && p in start.dirs
    ensures p !in start.files && p !in d.files
  {
    hide PlanRequest, ItemError;
    var plan := PlanRequest(d, request).value;
    var base := Unpack(d, request);
    if p !in d.dirs {
      var m :| 0 <= m < |entries| && entries[m].action == MakeDir && p <= entries[m].path;
      NewDirectoryResolves(d, request, base, plan, m);
      assert p == entries[m].path[..|p|];
      assert p != [];
    }
    StartDirectoryNoTemp(d, request, id, names, entries, start, base, p);
    assert Lookup(start, p) == Lookup(d, p);
  }

  lemma NewDirectoryResolves(d: Disk, request: Request, base: Plan, plan: Plan, m: nat)
    requires Unpacked(d, request, base, plan) && m < |plan.entries| && plan.entries[m].action == MakeDir
    ensures ResolvesDirectory(d, plan.entries[m].path)
  {
    Origin(d, request, base, plan, m);
  }

  lemma PreparedTree(d: Disk, request: Request, id: Id, names: seq<string>, entries: seq<Entry>, start: Disk)
    requires Prepared(d, request, id, names, entries, start)
    ensures WellFormed(start)
  {
    var plan := PlanRequest(d, request).value;
    var base := Unpack(d, request);
    forall p | p in start.files ensures p != [] && Parent(p) in start.dirs {
      if IsTemp(entries, p) {
        var i :| 0 <= i < |entries| && entries[i].temp == Some(p);
        WrittenWayStands(d, request, id, names, entries, start, base, i);
        assert p == TempPath(plan.entries[i], names[i]);
        assert Parent(p) == Parent(plan.entries[i].path);
      } else {
        assert Lookup(start, p) == Lookup(d, p);
      }
    }
    forall p | p in start.dirs && p != [] ensures Parent(p) in start.dirs {
      if p !in d.dirs {
        var m :| 0 <= m < |entries| && entries[m].action == MakeDir && p <= entries[m].path;
        assert Parent(p) <= entries[m].path;
        assert InNewDirectory(entries, Parent(p));
      }
    }
    forall p | p in start.files ensures p !in start.dirs {
      if p in start.dirs { StartSeparates(d, request, id, names, entries, start, p); }
    }
  }

  lemma WrittenWayStands(d: Disk, request: Request, id: Id, names: seq<string>, entries: seq<Entry>, start: Disk, base: Plan, i: nat)
    requires Prepared(d, request, id, names, entries, start) && i < |entries| && entries[i].action == Write
    requires Unpacked(d, request, base, PlanRequest(d, request).value)
    ensures entries[i].path != [] && Parent(entries[i].path) in start.dirs
    ensures ResolvesForWrite(d, entries[i].path, Planned(request.directories))
  {
    hide Items, PlanRequest, ItemsPlanned, RemovalsPlanned;
    Origin(d, request, base, PlanRequest(d, request).value, i);
    WayStands(d, request, id, names, entries, start, entries[i].path);
  }
}
