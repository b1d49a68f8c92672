/** What callers may rely on. */
module Guarantees {
  import opened Results
  import opened Disks
  import opened Journal
  import opened Planning
  import opened Rollback
  import opened StagingFacts

  // ---- a prepared transaction is ready ----

  lemma NamedIsNoTemp(d: Disk, request: Request, id: Id, names: seq<string>, entries: seq<Entry>, start: Disk, p: Path)
    requires Prepared(d, request, id, names, entries, start)
    requires Named(d, PlanRequest(d, request).value.entries, p)
    ensures !IsTemp(entries, p) && Lookup(start, p) == Lookup(d, p)
  {
    hide PlanRequest;
    var plan := PlanRequest(d, request).value;
    var base := Unpack(d, request);
    hide Unpacked;
    forall i | 0 <= i < |entries| ensures entries[i].temp != Some(p) {
      PlannedPathNotRoot(d, request, base, plan, i);
    }
  }

  lemma PreparedReady(d: Disk, request: Request, id: Id, names: seq<string>, entries: seq<Entry>, start: Disk, i: nat)
    requires Prepared(d, request, id, names, entries, start) && i < |entries|
    ensures Ready(start, entries[i])
  {
    hide PlanRequest, Items;
    var plan := PlanRequest(d, request).value;
    var base := Unpack(d, request);
    Origin(d, request, base, plan, i);
    PlannedPathNotRoot(d, request, base, plan, i);
    var e := plan.entries[i];
    assert Named(d, plan.entries, e.path) && Named(d, plan.entries, e.target);
    NamedIsNoTemp(d, request, id, names, entries, start, e.path);
    match e.action {
      case Write =>
        WrittenWayStands(d, request, id, names, entries, start, base, i);
        TempsAreNew(d, plan.entries, names, i, i);
      case Move =>
        NamedIsNoTemp(d, request, id, names, entries, start, e.target);
        WayStands(d, request, id, names, entries, start, e.target);
      case RemoveFile =>
      case MakeDir => assert InNewDirectory(entries, e.path) by { assert entries[i].action == MakeDir; }
      case RemoveDir =>
    }
  }

  lemma {:induction false} RemovalsDeep(d: Disk, base: Plan, dirs: seq<Path>)
    requires PlanRemovals(d, base, dirs).Ok? && DeepFirst(dirs)
    ensures var plan := PlanRemovals(d, base, dirs).value;
            && |base.entries| <= |plan.entries|
            && forall i, j :: |base.entries| <= i < j < |plan.entries| ==> |plan.entries[i].path| >= |plan.entries[j].path|
  {
    if dirs != [] {
      var shorter := dirs[..|dirs| - 1];
      RemovalsDeep(d, base, shorter);
      ListedRemovals(d, base, shorter);
      assert forall p :: p in shorter ==> |p| >= |dirs[|dirs| - 1]|;
    }
  }

  lemma PreparedDeepestFirst(d: Disk, request: Request, id: Id, names: seq<string>, entries: seq<Entry>, start: Disk)
    requires Prepared(d, request, id, names, entries, start)
    ensures DeepestFirst(entries)
  {
    hide PlanItems, Items, ItemsPlanned, RemovalsPlanned;
    var base, plan := Open(d, request);
    DeepestSorts(request.removeDirectories);
    RemovalsDeep(d, base, Deepest(request.removeDirectories));
    forall i | 0 <= i < |entries| && entries[i].action == RemoveDir ensures i >= |base.entries| {
      Origin(d, request, base, plan, i);
    }
  }

  lemma PreparedApart(d: Disk, request: Request, id: Id, names: seq<string>, entries: seq<Entry>, start: Disk)
    requires Prepared(d, request, id, names, entries, start)
    ensures Apart(entries)
  {
    hide PlanRequest, PlanItems, Items, ItemError, ItemsPlanned, RemovalsPlanned;
    var base, plan := Open(d, request);
    forall i ensures 0 <= i < |entries| ==> About(entries[i]) == About(plan.entries[i]) && entries[i].action == plan.entries[i].action {}
    forall i, j | 0 <= i < |entries| && 0 <= j < |entries| && i != j && OnDirectory(entries[i])
      ensures entries[i].path !in About(entries[j])
    {
      if i < j { AboutDisjoint(d, request, base, plan, i, j); } else { AboutDisjoint(d, request, base, plan, j, i); }
      PathIsAbout(entries[i]);
    }
    forall i, j | 0 <= i < |entries| && 0 <= j < |entries| && MakesNew(entries[i]) && entries[j].action == RemoveDir
      ensures !(entries[i].path <= entries[j].path)
    {
      NewIsNotAboveRemoved(d, request, base, plan, i, j);
    }
  }

  lemma NewIsNotAboveRemoved(d: Disk, request: Request, base: Plan, plan: Plan, i: nat, j: nat)
    requires WellFormed(d) && Unpacked(d, request, base, plan) && i < |plan.entries| && j < |plan.entries|
    requires MakesNew(plan.entries[i]) && plan.entries[j].action == RemoveDir
    ensures !(plan.entries[i].path <= plan.entries[j].path)
  {
    hide Items;
    Origin(d, request, base, plan, i);
    Origin(d, request, base, plan, j);
    var made, removed := plan.entries[i].path, plan.entries[j].path;
    if made <= removed && made != removed {
      assert made < removed;
      AboveIsDirectory(d, removed, made);
    }
  }

  lemma PreparedStaged(d: Disk, request: Request, id: Id, names: seq<string>, entries: seq<Entry>, start: Disk)
    requires Prepared(d, request, id, names, entries, start)
    ensures StagedOn(start, entries)
  {
    hide Prepared, Ready, Disjoint, InOrder, DeepestFirst, Apart, WellFormed;
    PreparedApart(d, request, id, names, entries, start);
    PreparedDeepestFirst(d, request, id, names, entries, start);
    PreparedTree(d, request, id, names, entries, start);
    PreparedDisjoint(d, request, id, names, entries, start);
    PreparedInOrder(d, request, id, names, entries, start);
    forall i | 0 <= i < |entries| ensures Ready(start, entries[i]) {
      PreparedReady(d, request, id, names, entries, start, i);
    }
  }

  /** The sealed copies staging made. */
  ghost predicate BackedUp(d: Disk, entries: seq<Entry>, backups: map<BackupKey, string>, seal: string -> string) {
    forall i :: 0 <= i < |entries| && NeedsBackup(entries[i]) ==>
      && entries[i].backup.Some? && entries[i].path in d.files
      && entries[i].backup.value in backups
      && backups[entries[i].backup.value] == seal(d.files[entries[i].path].contents)
  }

  function Saved(e: Entry, backups: map<BackupKey, string>, unseal: string -> string): Option<string> {
    if e.backup.Some? && e.backup.value in backups then Some(unseal(backups[e.backup.value])) else None
  }

  /** An entry about a file that is replaced or removed tells what was there. */
  lemma EntryTells(d: Disk, planned: set<Path>, item: Item)
    requires Acceptable(d, planned, item)
    ensures var e := ItemEntry(d, item);
            e.action == Write || e.action == RemoveFile ==>
              (e.hadPrevious <==> e.path in d.files) && (e.path in d.files ==> e.mode == d.files[e.path].mode & FILE_PERMISSION)
  {}

  lemma PreparedFaithful(d: Disk, request: Request, id: Id, names: seq<string>, entries: seq<Entry>, start: Disk,
                         backups: map<BackupKey, string>, seal: string -> string, unseal: string -> string, i: nat)
    requires Prepared(d, request, id, names, entries, start) && i < |entries|
    requires BackedUp(d, entries, backups, seal) && forall text :: unseal(seal(text)) == text
    ensures Faithful(start, entries[i], Saved(entries[i], backups, unseal))
  {
    hide PlanRequest, Items, ItemEntry, Acceptable, Unpacked, FreshNames, IsStart, WellFormed;
    var plan := PlanRequest(d, request).value;
    var base := Unpack(d, request);
    Origin(d, request, base, plan, i);
    if plan.entries[i].action != RemoveDir { EntryTells(d, Planned(request.directories), Items(request)[i]); }
    assert Named(d, plan.entries, plan.entries[i].path);
    NamedIsNoTemp(d, request, id, names, entries, start, plan.entries[i].path);
  }

  // ---- when a commit goes through ----

  predicate ChangesAt(request: Request, p: Path) {
    exists i :: 0 <= i < |request.changes| && request.changes[i].path == p
  }

  predicate MovesTo(request: Request, p: Path) {
    exists i :: 0 <= i < |request.moves| && request.moves[i].to == p
  }

  predicate CreatesDirectory(request: Request, p: Path) {
    exists i :: 0 <= i < |request.directories| && request.directories[i] == p
  }

  predicate Placing(request: Request, p: Path) {
    ChangesAt(request, p) || MovesTo(request, p) || CreatesDirectory(request, p)
  }

  /** Nothing the request puts somewhere lies inside a directory it removes, and no
      file it puts somewhere is on the way to a directory it creates. */
  ghost predicate Separate(d: Disk, request: Request) {
    && (forall dir, p :: dir in request.removeDirectories && dir in d.dirs && Placing(request, p) ==> !Beneath(p, dir))
    && (forall p, q :: CreatesDirectory(request, q) && (ChangesAt(request, p) || MovesTo(request, p)) ==> !(p < q))
  }

  lemma ItemAt(request: Request, k: nat)
    requires k < |Items(request)|
    ensures var a, b, c := |request.directories|, |request.changes|, |request.moves|;
            Items(request)[k] ==
              if k < a then CreateItem(request.directories[k])
              else if k < a + b then ChangeItem(request.changes[k - a])
              else if k < a + b + c then MoveItem(request.moves[k - a - b])
              else RemovalItem(request.removals[k - a - b - c])
  {}

  lemma ItemCount(request: Request)
    ensures |Items(request)| == |request.directories| + |request.changes| + |request.moves| + |request.removals|
  {}

  /** Arrivals and creations of the entries are those of the request. */
  lemma EntryArrives(d: Disk, request: Request, base: Plan, plan: Plan, j: nat, p: Path)
    requires Unpacked(d, request, base, plan) && j < |plan.entries|
    ensures Arrives(plan.entries[j], p) ==> ChangesAt(request, p) || MovesTo(request, p)
    ensures plan.entries[j].action == MakeDir && plan.entries[j].path == p ==> CreatesDirectory(request, p)
  {
    hide Items;
    Origin(d, request, base, plan, j);
    ItemCount(request);
    if plan.entries[j].action != RemoveDir {
      ItemAt(request, j);
    }
  }

  lemma RequestArrives(d: Disk, request: Request, base: Plan, plan: Plan, p: Path) returns (j: nat)
    requires Unpacked(d, request, base, plan)
    requires ChangesAt(request, p) || MovesTo(request, p) || CreatesDirectory(request, p)
    ensures j < |plan.entries|
    ensures ChangesAt(request, p) || MovesTo(request, p) ==> Arrives(plan.entries[j], p)
    ensures !ChangesAt(request, p) && !MovesTo(request, p) ==> plan.entries[j].action == MakeDir && plan.entries[j].path == p
  {
    ItemCount(request);
    hide Items, Unpacked, ItemsPlanned, RemovalsPlanned, Acceptable;
    if ChangesAt(request, p) {
      var i :| 0 <= i < |request.changes| && request.changes[i].path == p;
      j := |request.directories| + i;
    } else if MovesTo(request, p) {
      var i :| 0 <= i < |request.moves| && request.moves[i].to == p;
      j := |request.directories| + |request.changes| + i;
    } else {
      var i :| 0 <= i < |request.directories| && request.directories[i] == p;
      j := i;
    }
    ItemAt(request, j);
    PlannedEntry(d, request, base, plan, j);
  }

  lemma RequestCreates(d: Disk, request: Request, base: Plan, plan: Plan, p: Path) returns (j: nat)
    requires Unpacked(d, request, base, plan) && CreatesDirectory(request, p)
    ensures j < |plan.entries| && plan.entries[j].action == MakeDir && plan.entries[j].path == p
  {
    ItemCount(request);
    hide Items, Unpacked, ItemsPlanned, RemovalsPlanned, Acceptable;
    var i :| 0 <= i < |request.directories| && request.directories[i] == p;
    j := i;
    ItemAt(request, j);
    PlannedEntry(d, request, base, plan, j);
  }

  lemma {:induction false} ListedRemovals(d: Disk, base: Plan, dirs: seq<Path>)
    requires PlanRemovals(d, base, dirs).Ok?
    ensures var plan := PlanRemovals(d, base, dirs).value;
            && |base.entries| <= |plan.entries|
            && (forall p :: p in dirs ==> p in plan.claimed && p !in base.claimed)
            && (forall i :: |base.entries| <= i < |plan.entries| ==> plan.entries[i].path in dirs)
  {
    if dirs != [] {
      var shorter := dirs[..|dirs| - 1];
      ListedRemovals(d, base, shorter);
      PlannedRemovals(d, base, shorter);
      assert dirs == shorter + [dirs[|dirs| - 1]];
    }
  }

  lemma RemovalEntries(d: Disk, request: Request, base: Plan, plan: Plan)
    requires PlanRequest(d, request) == Ok(plan) && PlanItems(d, Planned(request.directories), Items(request)) == Ok(base)
    ensures forall i :: |base.entries| <= i < |plan.entries| ==> plan.entries[i].path in request.removeDirectories
    ensures forall dir :: dir in request.removeDirectories && dir in d.dirs ==>
              exists i :: |base.entries| <= i < |plan.entries| && plan.entries[i].path == dir
  {
    hide PlanItems, Items, Planned;
    var sorted := Deepest(request.removeDirectories);
    DeepestSorts(request.removeDirectories);
    ListedRemovals(d, base, sorted);
    PlannedRemovals(d, base, sorted);
    forall p ensures p in sorted <==> p in request.removeDirectories {
      assert p in multiset(sorted) <==> p in multiset(request.removeDirectories);
    }
  }

  lemma ChildIsBeneath(q: Path, p: Path)
    requires IsChild(q, p)
    ensures Beneath(q, p)
  {
    assert q == p + [q[|q| - 1]];
  }

  /** Both plans, with everything the lemmas above say of them. */
  ghost predicate Opened(d: Disk, request: Request, base: Plan, plan: Plan) {
    && PlanRequest(d, request) == Ok(plan)
    && PlanItems(d, Planned(request.directories), Items(request)) == Ok(base)
    && Unpacked(d, request, base, plan)
  }

  lemma Open(d: Disk, request: Request) returns (base: Plan, plan: Plan)
    requires PlanRequest(d, request).Ok?
    ensures Opened(d, request, base, plan)
  {
    plan := PlanRequest(d, request).value;
    base := PlanItems(d, Planned(request.directories), Items(request)).value;
    PlannedItems(d, Planned(request.directories), Items(request));
    PlannedRemovals(d, base, Deepest(request.removeDirectories));
  }

  /** A file the plan claimed, sitting in a directory to be removed, leaves it. */
  lemma ClaimedFileLeaves(d: Disk, request: Request, base: Plan, plan: Plan, dir: Path, p: Path) returns (j: nat)
    requires Opened(d, request, base, plan) && Separate(d, request)
    requires dir in request.removeDirectories && dir in d.dirs && IsChild(p, dir)
    requires p in d.files && p in base.claimed
    ensures j < |plan.entries| && Leaves(plan.entries[j], p)
  {
    hide PlanRequest, PlanItems, Items, ItemError, RemovalsPlanned;
    var items := Items(request);
    assert ClaimedBy(items, p);
    j :| 0 <= j < |items| && p in Claims(items[j]);
    OriginPrefix(d, base, plan);
    assert plan.entries[j] == base.entries[j] == ItemEntry(d, items[j]);
    EntryArrives(d, request, base, plan, j, p);
    ChildIsBeneath(p, dir);
    FileIsNoTarget(d, Planned(request.directories), items[j], p);
    assert !Placing(request, p) by { assert Placing(request, p) ==> !Beneath(p, dir); }
  }

  lemma FileIsNoTarget(d: Disk, planned: set<Path>, item: Item, p: Path)
    requires Acceptable(d, planned, item) && p in d.files
    ensures item.CreateItem? ==> item.dir != p
    ensures item.MoveItem? ==> item.move.to != p
  {
    assert p[..|p|] == p;
  }

  lemma DirectoryIsNoFileItem(d: Disk, planned: set<Path>, item: Item, p: Path)
    requires Acceptable(d, planned, item) && p in d.dirs && p in Claims(item)
    ensures item == CreateItem(p)
  {}

  /** A directory sitting in a directory to be removed is removed before it. */
  lemma ClaimedDirectoryGoes(d: Disk, request: Request, base: Plan, plan: Plan, i: nat, p: Path)
    requires Opened(d, request, base, plan) && Separate(d, request)
    requires i < |plan.entries| && plan.entries[i].action == RemoveDir && IsChild(p, plan.entries[i].path) && p in d.dirs
    ensures p in RemovedDirs(plan.entries, i)
  {
    hide PlanRequest, PlanItems, Items, ItemError;
    Origin(d, request, base, plan, i);
    RemovalEntries(d, request, base, plan);
    ChildIsBeneath(p, plan.entries[i].path);
    assert !Placing(request, p);
    if p in base.claimed {
      var items := Items(request);
      assert ClaimedBy(items, p);
      var j :| 0 <= j < |items| && p in Claims(items[j]);
      OriginPrefix(d, base, plan);
      assert plan.entries[j] == base.entries[j];
      DirectoryIsNoFileItem(d, Planned(request.directories), items[j], p);
      EntryArrives(d, request, base, plan, j, p);
      assert false;
    }
    var j :| |base.entries| <= j < i && plan.entries[j].path == p;
    assert RemovalPlanned(d, base, plan, j);
  }

  lemma FileLeaves(d: Disk, request: Request, id: Id, names: seq<string>, entries: seq<Entry>, start: Disk,
                   base: Plan, plan: Plan, i: nat, p: Path)
    requires Prepared(d, request, id, names, entries, start) && Opened(d, request, base, plan)
    requires Separate(d, request) && i < |entries| && entries[i].action == RemoveDir
    requires p in start.files && IsChild(p, entries[i].path)
    ensures exists j :: 0 <= j < |entries| && Leaves(entries[j], p)
  {
    hide PlanRequest, PlanItems, Items, ItemError, Leaves, Arrives, RemovalsPlanned, ItemsPlanned, Separate, WellFormed;
    if IsTemp(entries, p) {
      TempLeaves(d, request, id, names, entries, start, p);
    } else {
      assert Lookup(start, p) == Lookup(d, p);
      Origin(d, request, base, plan, i);
      RemovalEntries(d, request, base, plan);
      RemovalHolds(d, request, base, plan, i, p);
      var j := ClaimedFileLeaves(d, request, base, plan, entries[i].path, p);
      PlannedNoTemp(d, request, j);
      StagedLeaves(plan.entries[j], id, names[j], p);
      assert Leaves(entries[j], p);
    }
  }

  lemma RemovalHolds(d: Disk, request: Request, base: Plan, plan: Plan, i: nat, p: Path)
    requires Unpacked(d, request, base, plan) && i < |plan.entries| && plan.entries[i].action == RemoveDir
    ensures plan.entries[i].path in d.dirs && (p in d.files && IsChild(p, plan.entries[i].path) ==> p in base.claimed)
  {
    hide Items, ItemsPlanned;
    Origin(d, request, base, plan, i);
  }

  lemma SeparateVacates(d: Disk, request: Request, id: Id, names: seq<string>, entries: seq<Entry>, start: Disk,
                        base: Plan, plan: Plan, i: nat)
    requires Prepared(d, request, id, names, entries, start) && Opened(d, request, base, plan)
    requires Separate(d, request) && i < |entries| && entries[i].action == RemoveDir
    ensures Vacated(start, entries, i)
  {
    hide PlanRequest, PlanItems, Items, ItemError, Leaves, Arrives, RemovalsPlanned, ItemsPlanned;
    var dir := entries[i].path;
    Origin(d, request, base, plan, i);
    RemovalEntries(d, request, base, plan);
    hide Unpacked, FreshNames, InOrder, Beneath;
    forall p | p in start.files && IsChild(p, dir) ensures exists j :: 0 <= j < |entries| && Leaves(entries[j], p) {
      FileLeaves(d, request, id, names, entries, start, base, plan, i, p);
    }
    forall p | p in start.dirs && IsChild(p, dir) ensures p in RemovedDirs(entries, i) {
      ChildIsBeneath(p, dir);
      if p in d.dirs {
        ClaimedDirectoryGoes(d, request, base, plan, i, p);
        StagedRemovals(plan.entries, id, names, i);
      } else {
        forall m | 0 <= m < |entries| && entries[m].action == MakeDir ensures !(p <= entries[m].path) {
          EntryArrives(d, request, base, plan, m, entries[m].path);
          assert Placing(request, entries[m].path);
        }
      }
    }
    forall j, p | 0 <= j < |entries| && Arrives(entries[j], p) ensures !IsChild(p, dir) {
      StagedArrives(plan.entries[j], id, names[j], p);
      EntryArrives(d, request, base, plan, j, p);
      assert Placing(request, p);
      if IsChild(p, dir) { ChildIsBeneath(p, dir); }
    }
  }

  lemma StagedLeaves(e: Entry, id: Id, name: string, p: Path)
    requires Leaves(e, p) && (e.action == Write ==> e.temp.None?)
    ensures Leaves(StageEntry(e, id, name), p)
  {}

  lemma StagedArrives(e: Entry, id: Id, name: string, p: Path)
    ensures Arrives(StageEntry(e, id, name), p) == Arrives(e, p)
  {}

  lemma StagedRemovals(entries: seq<Entry>, id: Id, names: seq<string>, i: nat)
    requires |names| == |entries| && i <= |entries|
    ensures RemovedDirs(StageEntries(entries, id, names), i) == RemovedDirs(entries, i)
  {
    var staged := StageEntries(entries, id, names);
    assert forall m :: 0 <= m < i ==> staged[m].action == entries[m].action && staged[m].path == entries[m].path;
  }

  lemma TempLeaves(d: Disk, request: Request, id: Id, names: seq<string>, entries: seq<Entry>, start: Disk, p: Path)
    requires Prepared(d, request, id, names, entries, start) && IsTemp(entries, p)
    ensures exists j :: 0 <= j < |entries| && Leaves(entries[j], p)
  {
    var j :| 0 <= j < |entries| && entries[j].temp == Some(p);
    hide PlanRequest;
    PlannedNoTemp(d, request, j);
    assert Leaves(entries[j], p);
  }

  lemma PlannedNoTemp(d: Disk, request: Request, j: nat)
    requires PlanRequest(d, request).Ok? && j < |PlanRequest(d, request).value.entries|
    ensures PlanRequest(d, request).value.entries[j].temp.None?
  {
    hide PlanRequest, Items;
    var base := Unpack(d, request);
    Origin(d, request, base, PlanRequest(d, request).value, j);
  }

  lemma ArrivalResolves(d: Disk, request: Request, base: Plan, plan: Plan, i: nat, p: Path)
    requires Unpacked(d, request, base, plan) && i < |plan.entries| && Arrives(plan.entries[i], p)
    ensures p !in d.dirs && p in About(plan.entries[i])
  {
    hide Items;
    Origin(d, request, base, plan, i);
  }

  lemma ArrivalIsNoDirectory(d: Disk, request: Request, id: Id, names: seq<string>, entries: seq<Entry>, start: Disk,
                             base: Plan, plan: Plan, i: nat, p: Path)
    requires Prepared(d, request, id, names, entries, start) && Opened(d, request, base, plan)
    requires Separate(d, request) && i < |entries| && Arrives(plan.entries[i], p)
    ensures p !in start.dirs
  {
    hide PlanRequest, PlanItems, Items, ItemsPlanned, RemovalsPlanned, Arrives, About;
    ArrivalResolves(d, request, base, plan, i, p);
    EntryArrives(d, request, base, plan, i, p);
    forall m | 0 <= m < |entries| && entries[m].action == MakeDir ensures !(p <= entries[m].path) {
      EntryArrives(d, request, base, plan, m, entries[m].path);
      assert i != m by { ArrivingCreatesNothing(plan.entries[i], p); }
      if m < i { AboutDisjoint(d, request, base, plan, m, i); } else { AboutDisjoint(d, request, base, plan, i, m); }
      PathIsAbout(plan.entries[m]);
      assert p != entries[m].path && CreatesDirectory(request, entries[m].path);
    }
  }

  lemma ArrivingCreatesNothing(e: Entry, p: Path)
    requires Arrives(e, p)
    ensures e.action != MakeDir
  {}

  lemma PathIsAbout(e: Entry)
    ensures e.path in About(e)
  {}

  lemma SeparatePlaces(d: Disk, request: Request, id: Id, names: seq<string>, entries: seq<Entry>, start: Disk,
                       base: Plan, plan: Plan, i: nat)
    requires Prepared(d, request, id, names, entries, start) && Opened(d, request, base, plan)
    requires Separate(d, request) && i < |entries|
    ensures Placed(start, entries[i])
  {
    hide PlanRequest, PlanItems, Items, ItemsPlanned, RemovalsPlanned, Separate;
    if entries[i].action == Write {
      ArrivalIsNoDirectory(d, request, id, names, entries, start, base, plan, i, entries[i].path);
    } else if entries[i].action == Move {
      ArrivalIsNoDirectory(d, request, id, names, entries, start, base, plan, i, entries[i].target);
    }
  }

  /** An admitted request goes through, crashes aside, exactly when nothing it puts
      somewhere lies inside a directory it removes or above one it creates. */
  lemma CommitGoesThroughIffSeparate(d: Disk, request: Request, id: Id, names: seq<string>, entries: seq<Entry>, start: Disk)
    requires Prepared(d, request, id, names, entries, start)
    ensures Run(start, entries, |entries|).Some? <==> Separate(d, request)
  {
    hide Prepared, Opened, Placed, Vacated, Separate, StagedOn, Run;
    assert PlanRequest(d, request).Ok? by { PreparedAdmitted(d, request, id, names, entries, start); }
    var base, plan := Open(d, request);
    PreparedStaged(d, request, id, names, entries, start);
    if Separate(d, request) {
      forall i | 0 <= i < |entries| ensures Placed(start, entries[i]) {
        SeparatePlaces(d, request, id, names, entries, start, base, plan, i);
      }
      forall i | 0 <= i < |entries| && entries[i].action == RemoveDir ensures Vacated(start, entries, i) {
        SeparateVacates(d, request, id, names, entries, start, base, plan, i);
      }
      RunGoesThrough(start, entries, |entries|);
    }
    if Run(start, entries, |entries|).Some? {
      GoneThroughIsSeparate(d, request, id, names, entries, start, base, plan);
    }
  }

  lemma PreparedAdmitted(d: Disk, request: Request, id: Id, names: seq<string>, entries: seq<Entry>, start: Disk)
    requires Prepared(d, request, id, names, entries, start)
    ensures PlanRequest(d, request).Ok?
  {}

  lemma GoneThroughIsSeparate(d: Disk, request: Request, id: Id, names: seq<string>, entries: seq<Entry>, start: Disk,
                              base: Plan, plan: Plan)
    requires Prepared(d, request, id, names, entries, start) && Opened(d, request, base, plan) && StagedOn(start, entries)
    requires Run(start, entries, |entries|).Some?
    ensures Separate(d, request)
  {
    hide PlanRequest, PlanItems, Items, ItemsPlanned, RemovalsPlanned, Run, StagedOn;
    RunReaches(start, entries, |entries|);
    RemovalEntries(d, request, base, plan);
    forall dir, p | dir in request.removeDirectories && dir in d.dirs && Placing(request, p) ensures !Beneath(p, dir) {
      var i :| |base.entries| <= i < |plan.entries| && plan.entries[i].path == dir;
      Origin(d, request, base, plan, i);
      var j := RequestArrives(d, request, base, plan, p);
      StagedArrives(plan.entries[j], id, names[j], p);
      if entries[j].action == MakeDir { CreatedIsNotRemoved(d, request, id, names, entries, start, base, plan, j); }
      GoneThroughLeavesNothing(start, entries, i, j, p);
    }
    forall p, q | CreatesDirectory(request, q) && (ChangesAt(request, p) || MovesTo(request, p)) ensures !(p < q) {
      var j := RequestArrives(d, request, base, plan, p);
      StagedArrives(plan.entries[j], id, names[j], p);
      var m := RequestCreates(d, request, base, plan, q);
      assert Placed(start, entries[j]);
      assert entries[m].action == MakeDir && entries[m].path == q;
      assert p <= q ==> InNewDirectory(entries, p);
    }
  }

  lemma CreatedIsNotRemoved(d: Disk, request: Request, id: Id, names: seq<string>, entries: seq<Entry>, start: Disk,
                            base: Plan, plan: Plan, j: nat)
    requires Prepared(d, request, id, names, entries, start) && Opened(d, request, base, plan)
    requires j < |entries| && entries[j].action == MakeDir
    ensures entries[j].path !in RemovedDirs(entries, |entries|)
  {
    hide PlanRequest, PlanItems, Items;
    forall i | 0 <= i < |entries| && entries[i].action == RemoveDir ensures entries[i].path != entries[j].path {
      if i < j { AboutDisjoint(d, request, base, plan, i, j); } else { AboutDisjoint(d, request, base, plan, j, i); }
      assert entries[i].path in About(plan.entries[i]) && entries[j].path in About(plan.entries[j]);
    }
  }

  /** In such a request every entry goes through when its turn comes. */
  lemma SeparateStep(d: Disk, request: Request, id: Id, names: seq<string>, entries: seq<Entry>, start: Disk, now: Disk, k: nat)
    requires Prepared(d, request, id, names, entries, start) && Separate(d, request)
    requires k < |entries| && Reached(now, start, entries, k)
    ensures Effect(now, entries[k]).Some?
  {
    hide Opened, Placed, Vacated, Separate, StagedOn, Reached;
    PreparedAdmitted(d, request, id, names, entries, start);
    hide Prepared;
    var base, plan := Open(d, request);
    PreparedStaged(d, request, id, names, entries, start);
    if entries[k].action == RemoveDir {
      SeparateVacates(d, request, id, names, entries, start, base, plan, k);
      VacatedIsEmpty(now, start, entries, k);
    } else {
      SeparatePlaces(d, request, id, names, entries, start, base, plan, k);
      FileEntryGoesThrough(now, start, entries, k);
    }
  }

  // ---- the files the request names ----

  /** The item has happened. */
  ghost predicate Happened(before: Disk, d: Disk, item: Item) {
    match item
    case CreateItem(_) => true
    case ChangeItem(change) => Lookup(d, change.path) == Some(File(change.contents, CurrentMode(before, change.path)))
    case MoveItem(move) => Lookup(d, move.to) == Lookup(before, move.from) && move.from !in d.files
    case RemovalItem(removal) => removal.path !in d.files
  }

  /** The item has not happened. */
  ghost predicate NotYet(before: Disk, d: Disk, item: Item) {
    item.CreateItem? || forall p :: p in Claims(item) ==> Lookup(d, p) == Lookup(before, p)
  }

  /** The item was taken back: old bytes, a mode of at most 0600 where the file was
      rewritten, the very same file where it was moved. */
  ghost predicate TakenBack(before: Disk, d: Disk, item: Item) {
    match item
    case CreateItem(_) => true
    case ChangeItem(change) =>
      Lookup(d, change.path) ==
        (if change.path in before.files then Some(Tighten(before.files[change.path])) else None)
    case MoveItem(move) => Lookup(d, move.from) == Lookup(before, move.from) && move.to !in d.files
    case RemovalItem(removal) =>
      removal.path in before.files && Lookup(d, removal.path) == Some(Tighten(before.files[removal.path]))
  }

  /** No item is about a file there. */
  ghost predicate Unclaimed(request: Request, p: Path) {
    forall i :: 0 <= i < |Items(request)| && p in Claims(Items(request)[i]) ==> Items(request)[i].CreateItem?
  }

  /** Everything about item i that its entry shows. */
  lemma ItemOfEntry(d: Disk, request: Request, id: Id, names: seq<string>, entries: seq<Entry>, start: Disk, i: nat)
    requires Prepared(d, request, id, names, entries, start) && i < |Items(request)|
    ensures i < |entries|
    ensures var item, e := Items(request)[i], entries[i];
            && e == StageEntry(ItemEntry(d, item), id, names[i])
            && (forall p :: p in Claims(item) ==> Lookup(start, p) == Lookup(d, p) && !IsTemp(entries, p))
            && Acceptable(d, Planned(request.directories), item)
            && (e.action == Write ==> Lookup(start, e.temp.value) == Some(StagedFile(e)))
            && (!item.CreateItem? ==> Claims(item) <= Touches(e))
  {
    hide PlanRequest, Items, Acceptable, Unpacked, ItemsPlanned, RemovalsPlanned;
    var plan := PlanRequest(d, request).value;
    var base := Unpack(d, request);
    var item := Items(request)[i];
    PlannedEntry(d, request, base, plan, i);
    PlannedPathNotRoot(d, request, base, plan, i);
    forall p | p in Claims(item) ensures Lookup(start, p) == Lookup(d, p) && !IsTemp(entries, p) {
      assert Named(d, plan.entries, p);
      NamedIsNoTemp(d, request, id, names, entries, start, p);
    }
  }

  /** In the state after k entries every item before k has happened and no other has. */
  lemma NamedFilesAt(d: Disk, request: Request, id: Id, names: seq<string>, entries: seq<Entry>, start: Disk,
                     now: Disk, k: nat, i: nat)
    requires Prepared(d, request, id, names, entries, start) && k <= |entries|
    requires Applied(now, start, entries, k) && i < |Items(request)|
    ensures if i < k then Happened(d, now, Items(request)[i]) else NotYet(d, now, Items(request)[i])
  {
    hide Prepared, Items;
    ItemOfEntry(d, request, id, names, entries, start, i);
    if i < k {
      assert Done(now, start, entries[i]);
    } else {
      assert Waiting(now, start, entries[i]);
    }
  }

  /** And every file the request does not name is as it was. */
  lemma OtherFilesAt(d: Disk, request: Request, id: Id, names: seq<string>, entries: seq<Entry>, start: Disk,
                     now: Disk, p: Path)
    requires Prepared(d, request, id, names, entries, start) && Elsewhere(now, start, entries)
    requires Unclaimed(request, p) && !IsTemp(entries, p)
    ensures Lookup(now, p) == Lookup(d, p)
  {
    hide PlanRequest, Items;
    var plan := PlanRequest(d, request).value;
    var base := Unpack(d, request);
    forall i | 0 <= i < |entries| ensures p !in Touches(entries[i]) {
      StagedTouches(d, request, id, names, entries, start, i);
      Origin(d, request, base, plan, i);
      if i < |base.entries| { OriginsBefore(d, request, base, plan, i, i); }
      PlannedNoTemp(d, request, i);
      assert entries[i].temp != Some(p);
    }
    assert p !in Touched(entries);
  }

  /** After a rollback that finished, every item that was recorded is taken back and
      no other has happened, save one the journal had not recorded. */
  lemma NamedFilesRestored(d: Disk, request: Request, id: Id, names: seq<string>, entries: seq<Entry>, start: Disk,
                           now: Disk, committed: nat, applied: nat, i: nat)
    requires Prepared(d, request, id, names, entries, start) && Counts(entries, UpTo(committed), committed, applied)
    requires Restored(now, start, entries, committed, applied) && i < |Items(request)|
    ensures i < committed ==> TakenBack(d, now, Items(request)[i])
    ensures committed <= i < applied ==> Happened(d, now, Items(request)[i])
    ensures applied <= i ==> NotYet(d, now, Items(request)[i])
  {
    hide Prepared, Items;
    ItemOfEntry(d, request, id, names, entries, start, i);
    if i < committed {
      assert Undone(now, start, entries[i]);
    } else if i < applied {
      assert Done(now, start, entries[i]);
    } else {
      var item := Items(request)[i];
      assert Still(now, start, entries[i]);
      forall p | p in Claims(item) && !item.CreateItem? ensures Lookup(now, p) == Lookup(d, p) {
        assert p in Touches(entries[i]) && !IsTemp(entries, p);
        assert entries[i].temp != Some(p);
      }
    }
  }

  /** And every directory stands again, save one whose removal the journal had not recorded;
      what else stands is what staging made. */
  lemma DirectoriesRestored(d: Disk, request: Request, id: Id, names: seq<string>, entries: seq<Entry>, start: Disk,
                            now: Disk, committed: nat, applied: nat)
    requires Prepared(d, request, id, names, entries, start) && Counts(entries, UpTo(committed), committed, applied)
    requires Restored(now, start, entries, committed, applied)
    ensures d.dirs - InDoubt(entries, committed, applied) <= now.dirs
    ensures forall q :: q in now.dirs && q !in d.dirs ==> InNewDirectory(entries, q)
  {
    hide PlanRequest, PlanItems, Items, ItemError, ItemsPlanned, RemovalsPlanned, Mixed;
    var base, plan := Open(d, request);
    forall i | 0 <= i < |entries| && MakesNew(entries[i]) ensures entries[i].path !in d.dirs {
      Origin(d, request, base, plan, i);
    }
  }
}
