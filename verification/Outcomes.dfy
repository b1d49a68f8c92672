/** What a request leaves on the disk, in its own terms. */
module Outcomes {
  // What a committed request leaves, what a rolled-back one leaves, and when a rollback is
  // refused, each in terms of the request and the disk it was made on: no entry, no journal
  // and no temporary is mentioned.

  import opened Results
  import opened Disks
  import opened Journal
  import opened Planning
  import opened Rollback
  import opened StagingFacts
  import opened Guarantees
  import opened Jobs
  import opened Admission

  /** Permissions of a file that is written: no more than 0600, and those for a new one. */
  function WrittenMode(before: Disk, p: Path): Mode { if p in before.files then before.files[p].mode & 0x180 else 0x180 }

  /** Everything asked for has happened, and nothing else. */
  ghost predicate AsAsked(before: Disk, request: Request, now: Disk) {
    && (forall i :: 0 <= i < |request.changes| ==>
          var change := request.changes[i];
          change.path in now.files && now.files[change.path] == File(change.contents, WrittenMode(before, change.path)))
    && (forall i :: 0 <= i < |request.moves| ==>
          var move := request.moves[i];
          && move.from in before.files && move.from !in now.files
          && move.to in now.files && now.files[move.to] == before.files[move.from])
    && (forall i :: 0 <= i < |request.removals| ==> request.removals[i].path !in now.files)
    && (forall p :: p !in NamedPaths(request) ==> (p in now.files <==> p in before.files) && (p in now.files ==> now.files[p] == before.files[p]))
    && (forall q :: q in now.dirs <==>
          && (q in before.dirs || exists i :: 0 <= i < |request.directories| && q <= request.directories[i])
          && !(q in before.dirs && q in request.removeDirectories))
  }

  lemma TempIsNowhere(before: Disk, request: Request, id: Id, names: seq<string>, entries: seq<Entry>, start: Disk, d: Disk, p: Path)
    requires Prepared(before, request, id, names, entries, start) && Applied(d, start, entries, |entries|) && IsTemp(entries, p)
    ensures Lookup(before, p) == None && Lookup(d, p) == None
  {
    hide PlanRequest;
    var plan := PlanRequest(before, request).value;
    var base := Unpack(before, request);
    var i :| 0 <= i < |entries| && entries[i].temp == Some(p);
    PlannedNoTemp(before, request, i);
    PlannedPathNotRoot(before, request, base, plan, i);
    assert p[|p| - 1] == names[i];
    assert p in before.files ==> Named(before, plan.entries, p);
    assert Done(d, start, entries[i]);
  }

  lemma NamedIsClaimed(request: Request, k: nat, p: Path)
    requires k < |Items(request)| && p in Claims(Items(request)[k])
    ensures p in NamedPaths(request)
  {
    hide Items, NamedPaths;
    var n := ClaimedAt(request, k, p);
  }

  lemma UnnamedUnclaimed(request: Request, p: Path)
    requires p !in NamedPaths(request)
    ensures Unclaimed(request, p)
  {
    hide Items, NamedPaths;
    forall k | 0 <= k < |Items(request)| ensures p !in Claims(Items(request)[k]) {
      if p in Claims(Items(request)[k]) { NamedIsClaimed(request, k, p); }
    }
  }

  lemma CreatesInRequest(request: Request, k: nat)
    requires k < |Items(request)|
    ensures Items(request)[k].CreateItem? <==> k < |request.directories|
    ensures k < |request.directories| ==> Items(request)[k] == CreateItem(request.directories[k])
  {}

  lemma ItemCommitted(job: Job, now: Disk, k: nat)
    requires job.Valid() && Applied(now, job.start, job.entries, |job.entries|) && k < |Items(job.request)|
    ensures Happened(job.before, now, Items(job.request)[k])
    ensures Acceptable(job.before, Planned(job.request.directories), Items(job.request)[k])
  {
    hide Prepared, Items, Happened, Applied, Acceptable;
    ItemOfEntry(job.before, job.request, job.id, job.names, job.entries, job.start, k);
    NamedFilesAt(job.before, job.request, job.id, job.names, job.entries, job.start, now, |job.entries|, k);
  }

  lemma OthersAsBefore(job: Job, now: Disk, p: Path)
    requires job.Valid() && Applied(now, job.start, job.entries, |job.entries|) && p !in NamedPaths(job.request)
    ensures Lookup(now, p) == Lookup(job.before, p)
  {
    hide Prepared, Items, NamedPaths, Done, Waiting;
    if IsTemp(job.entries, p) {
      TempIsNowhere(job.before, job.request, job.id, job.names, job.entries, job.start, now, p);
    } else {
      UnnamedUnclaimed(job.request, p);
      OtherFilesAt(job.before, job.request, job.id, job.names, job.entries, job.start, now, p);
    }
  }

  lemma MadeIff(job: Job, base: Plan, plan: Plan, q: Path)
    requires job.Valid() && Opened(job.before, job.request, base, plan)
    ensures q in job.start.dirs <==> q in job.before.dirs || exists i :: 0 <= i < |job.request.directories| && q <= job.request.directories[i]
  {
    hide PlanRequest, PlanItems, Items, ItemsPlanned, RemovalsPlanned;
    var request := job.request;
    if i :| 0 <= i < |job.entries| && job.entries[i].action == MakeDir && q <= job.entries[i].path {
      Origin(job.before, request, base, plan, i);
      CreatesInRequest(request, i);
      assert q <= request.directories[i];
    }
    if i :| 0 <= i < |request.directories| && q <= request.directories[i] {
      ItemCount(request);
      CreatesInRequest(request, i);
      PlannedEntry(job.before, request, base, plan, i);
      assert job.entries[i].action == MakeDir && job.entries[i].path == request.directories[i];
      assert InNewDirectory(job.entries, q);
    }
  }

  lemma GoneIffAsked(job: Job, base: Plan, plan: Plan, q: Path)
    requires job.Valid() && Opened(job.before, job.request, base, plan)
    ensures q in RemovedDirs(job.entries, |job.entries|) <==> q in job.before.dirs && q in job.request.removeDirectories
  {
    hide PlanRequest, PlanItems, Items, ItemsPlanned;
    var n := |job.entries|;
    RemovalEntries(job.before, job.request, base, plan);
    if q in RemovedDirs(job.entries, n) {
      var i :| 0 <= i < n && job.entries[i].action == RemoveDir && job.entries[i].path == q;
      Origin(job.before, job.request, base, plan, i);
      assert plan.entries[i].path == q;
    }
    if q in job.before.dirs && q in job.request.removeDirectories {
      var i :| |base.entries| <= i < |plan.entries| && plan.entries[i].path == q;
      assert RemovalPlanned(job.before, base, plan, i);
      assert job.entries[i].action == RemoveDir && job.entries[i].path == q;
    }
  }

  lemma MovedWasThere(job: Job, k: nat)
    requires k < |Items(job.request)| && Acceptable(job.before, Planned(job.request.directories), Items(job.request)[k])
    ensures Items(job.request)[k].MoveItem? ==> Items(job.request)[k].move.from in job.before.files
  {
    hide Items;
  }

  lemma ChangeAsked(job: Job, now: Disk, i: nat)
    requires job.Valid() && Applied(now, job.start, job.entries, |job.entries|) && i < |job.request.changes|
    ensures var change := job.request.changes[i];
            Lookup(now, change.path) == Some(File(change.contents, WrittenMode(job.before, change.path)))
  {
    hide Prepared, Items, Applied, Acceptable;
    ItemCount(job.request);
    ItemAt(job.request, |job.request.directories| + i);
    ItemCommitted(job, now, |job.request.directories| + i);
  }

  lemma MoveAsked(job: Job, now: Disk, i: nat)
    requires job.Valid() && Applied(now, job.start, job.entries, |job.entries|) && i < |job.request.moves|
    ensures var move := job.request.moves[i];
            move.from in job.before.files && move.from !in now.files && Lookup(now, move.to) == Lookup(job.before, move.from)
  {
    hide Prepared, Items, Applied, Acceptable;
    var k := |job.request.directories| + |job.request.changes| + i;
    ItemCount(job.request);
    ItemAt(job.request, k);
    ItemCommitted(job, now, k);
    MovedWasThere(job, k);
  }

  lemma RemovalAsked(job: Job, now: Disk, i: nat)
    requires job.Valid() && Applied(now, job.start, job.entries, |job.entries|) && i < |job.request.removals|
    ensures job.request.removals[i].path !in now.files
  {
    hide Prepared, Items, Applied, Acceptable;
    var k := |job.request.directories| + |job.request.changes| + |job.request.moves| + i;
    ItemCount(job.request);
    ItemAt(job.request, k);
    ItemCommitted(job, now, k);
  }

  /** A transaction that went through has done what was asked, and nothing else. */
  lemma CommittedAsAsked(job: Job, now: Disk)
    requires job.Valid() && CommittedDisk(now, job.start, job.entries)
    ensures AsAsked(job.before, job.request, now)
  {
    hide Prepared, PlanRequest, Items, NamedPaths, Applied;
    var request, before := job.request, job.before;
    forall i | 0 <= i < |request.changes| ensures Lookup(now, request.changes[i].path) == Some(File(request.changes[i].contents, WrittenMode(before, request.changes[i].path))) {
      ChangeAsked(job, now, i);
    }
    forall i | 0 <= i < |request.moves|
      ensures request.moves[i].from in before.files && request.moves[i].from !in now.files
      ensures Lookup(now, request.moves[i].to) == Lookup(before, request.moves[i].from)
    {
      MoveAsked(job, now, i);
    }
    forall i | 0 <= i < |request.removals| ensures request.removals[i].path !in now.files { RemovalAsked(job, now, i); }
    forall p | p !in NamedPaths(request) ensures Lookup(now, p) == Lookup(before, p) { OthersAsBefore(job, now, p); }
    assert PlanRequest(before, request).Ok? by { PreparedAdmitted(before, request, job.id, job.names, job.entries, job.start); }
    var base, plan := Open(before, request);
    hide Opened;
    forall q
      ensures q in now.dirs <==>
                && (q in before.dirs || exists i :: 0 <= i < |request.directories| && q <= request.directories[i])
                && !(q in before.dirs && q in request.removeDirectories)
    {
      MadeIff(job, base, plan, q);
      GoneIffAsked(job, base, plan, q);
    }
  }

  // ---- taken back ----

  /** The file that was there, with no more than 0600, or none. */
  ghost predicate PutBack(before: Disk, now: Disk, p: Path) {
    if p in before.files then p in now.files && now.files[p] == File(before.files[p].contents, before.files[p].mode & 0x180) else p !in now.files
  }

  ghost predicate LeftAlone(before: Disk, now: Disk, p: Path) {
    (p in now.files <==> p in before.files) && (p in now.files ==> now.files[p] == before.files[p])
  }

  /** Of what was asked the first `committed` things are taken back, directories counted first, then
      changes, moves and removals; those from `applied` on never happened, and files that are not
      named are as they were. */
  ghost predicate AsBefore(before: Disk, request: Request, now: Disk, committed: nat, applied: nat) {
    var a, b, c := |request.directories|, |request.changes|, |request.moves|;
    && (forall i :: 0 <= i < b ==>
          && (a + i < committed ==> PutBack(before, now, request.changes[i].path))
          && (applied <= a + i ==> LeftAlone(before, now, request.changes[i].path)))
    && (forall i :: 0 <= i < c && !(committed <= a + b + i < applied) ==>
          LeftAlone(before, now, request.moves[i].from) && LeftAlone(before, now, request.moves[i].to))
    && (forall i :: 0 <= i < |request.removals| ==>
          && (a + b + c + i < committed ==> PutBack(before, now, request.removals[i].path))
          && (applied <= a + b + c + i ==> LeftAlone(before, now, request.removals[i].path)))
    && (forall p :: p !in NamedPaths(request) ==> LeftAlone(before, now, p))
    && (forall q :: q in before.dirs ==>
          q in now.dirs || (committed < applied && committed >= a + b + c + |request.removals| && q in request.removeDirectories))
    && (forall q :: q in now.dirs ==> q in before.dirs || exists i :: 0 <= i < a && q <= request.directories[i])
  }

  lemma ItemRestored(job: Job, now: Disk, committed: nat, applied: nat, k: nat)
    requires job.Valid() && Counts(job.entries, UpTo(committed), committed, applied) && Restored(now, job.start, job.entries, committed, applied)
    requires k < |Items(job.request)|
    ensures k < committed ==> TakenBack(job.before, now, Items(job.request)[k])
    ensures applied <= k ==> NotYet(job.before, now, Items(job.request)[k])
    ensures Acceptable(job.before, Planned(job.request.directories), Items(job.request)[k])
  {
    hide Prepared, Items, TakenBack, NotYet, Happened, Acceptable, Restored;
    ItemOfEntry(job.before, job.request, job.id, job.names, job.entries, job.start, k);
    NamedFilesRestored(job.before, job.request, job.id, job.names, job.entries, job.start, now, committed, applied, k);
  }

  lemma ChangeTakenBack(job: Job, now: Disk, committed: nat, applied: nat, i: nat)
    requires job.Valid() && Counts(job.entries, UpTo(committed), committed, applied) && Restored(now, job.start, job.entries, committed, applied)
    requires i < |job.request.changes|
    ensures |job.request.directories| + i < committed ==> PutBack(job.before, now, job.request.changes[i].path)
    ensures applied <= |job.request.directories| + i ==> LeftAlone(job.before, now, job.request.changes[i].path)
  {
    hide Prepared, Items, Restored, Acceptable;
    var k := |job.request.directories| + i;
    ItemCount(job.request);
    ItemAt(job.request, k);
    ItemRestored(job, now, committed, applied, k);
    SameLookup(job.before, now, job.request.changes[i].path);
  }

  lemma SameLookup(before: Disk, now: Disk, p: Path)
    ensures LeftAlone(before, now, p) <==> Lookup(now, p) == Lookup(before, p)
  {}

  lemma MoveTakenBack(job: Job, now: Disk, committed: nat, applied: nat, i: nat)
    requires job.Valid() && Counts(job.entries, UpTo(committed), committed, applied) && Restored(now, job.start, job.entries, committed, applied)
    requires i < |job.request.moves|
    ensures var k := |job.request.directories| + |job.request.changes| + i;
            !(committed <= k < applied) ==>
              LeftAlone(job.before, now, job.request.moves[i].from) && LeftAlone(job.before, now, job.request.moves[i].to)
  {
    hide Prepared, Items, Restored, Acceptable;
    var k := |job.request.directories| + |job.request.changes| + i;
    ItemCount(job.request);
    ItemAt(job.request, k);
    ItemRestored(job, now, committed, applied, k);
    TargetWasFree(job, k);
    SameLookup(job.before, now, job.request.moves[i].from);
    SameLookup(job.before, now, job.request.moves[i].to);
  }

  lemma TargetWasFree(job: Job, k: nat)
    requires k < |Items(job.request)| && Acceptable(job.before, Planned(job.request.directories), Items(job.request)[k])
    ensures Items(job.request)[k].MoveItem? ==> Items(job.request)[k].move.to !in job.before.files
  {
    hide Items;
  }

  lemma RemovalTakenBack(job: Job, now: Disk, committed: nat, applied: nat, i: nat)
    requires job.Valid() && Counts(job.entries, UpTo(committed), committed, applied) && Restored(now, job.start, job.entries, committed, applied)
    requires i < |job.request.removals|
    ensures var k := |job.request.directories| + |job.request.changes| + |job.request.moves| + i;
            && (k < committed ==> PutBack(job.before, now, job.request.removals[i].path))
            && (applied <= k ==> LeftAlone(job.before, now, job.request.removals[i].path))
  {
    hide Prepared, Items, Restored, Acceptable;
    var k := |job.request.directories| + |job.request.changes| + |job.request.moves| + i;
    ItemCount(job.request);
    ItemAt(job.request, k);
    ItemRestored(job, now, committed, applied, k);
    SameLookup(job.before, now, job.request.removals[i].path);
  }

  lemma OthersRestored(job: Job, now: Disk, committed: nat, applied: nat, p: Path)
    requires job.Valid() && Counts(job.entries, UpTo(committed), committed, applied) && Restored(now, job.start, job.entries, committed, applied)
    requires p !in NamedPaths(job.request)
    ensures Lookup(now, p) == Lookup(job.before, p)
  {
    hide PlanRequest, Items, NamedPaths, Done, Still, Faithful;
    if i :| 0 <= i < |job.entries| && job.entries[i].temp == Some(p) {
      NewNameIsNowhere(job, i, p);
      if i < committed { assert Undone(now, job.start, job.entries[i]); }
    } else {
      UnnamedUnclaimed(job.request, p);
      OtherFilesAt(job.before, job.request, job.id, job.names, job.entries, job.start, now, p);
    }
  }

  /** Only what is written has a temporary, and no file had its name. */
  lemma NewNameIsNowhere(job: Job, i: nat, p: Path)
    requires job.Valid() && i < |job.entries| && job.entries[i].temp == Some(p)
    ensures job.entries[i].action == Write && p !in job.before.files
  {
    hide PlanRequest;
    var plan := PlanRequest(job.before, job.request).value;
    var base := Unpack(job.before, job.request);
    PlannedNoTemp(job.before, job.request, i);
    PlannedPathNotRoot(job.before, job.request, base, plan, i);
    assert p[|p| - 1] == job.names[i];
    assert p in job.before.files ==> Named(job.before, plan.entries, p);
  }

  lemma DirectoryBack(job: Job, now: Disk, committed: nat, applied: nat, q: Path)
    requires job.Valid() && Counts(job.entries, UpTo(committed), committed, applied) && Restored(now, job.start, job.entries, committed, applied)
    ensures q in job.before.dirs && q !in now.dirs ==> committed < applied && committed >= |Items(job.request)| && q in job.request.removeDirectories
    ensures q in now.dirs ==> q in job.before.dirs || exists i :: 0 <= i < |job.request.directories| && q <= job.request.directories[i]
  {
    hide PlanRequest, PlanItems, Items, Mixed, ItemsPlanned;
    DirectoriesRestored(job.before, job.request, job.id, job.names, job.entries, job.start, now, committed, applied);
    var base, plan := Open(job.before, job.request);
    MadeIff(job, base, plan, q);
    GoneIffAsked(job, base, plan, q);
    if q in job.before.dirs && q !in now.dirs {
      assert q in InDoubt(job.entries, committed, applied) && q in RemovedDirs(job.entries, |job.entries|);
      Origin(job.before, job.request, base, plan, committed);
    }
  }

  /** A rollback that finished has put things back, but for what the journal had not recorded. */
  lemma RestoredAsBefore(job: Job, now: Disk, committed: nat, applied: nat)
    requires job.Valid() && Counts(job.entries, UpTo(committed), committed, applied) && Restored(now, job.start, job.entries, committed, applied)
    ensures AsBefore(job.before, job.request, now, committed, applied)
  {
    hide Prepared, Items, NamedPaths, Restored, Counts, PutBack, LeftAlone;
    var request := job.request;
    ItemCount(request);
    forall i | 0 <= i < |request.changes|
      ensures |request.directories| + i < committed ==> PutBack(job.before, now, request.changes[i].path)
      ensures applied <= |request.directories| + i ==> LeftAlone(job.before, now, request.changes[i].path)
    {
      ChangeTakenBack(job, now, committed, applied, i);
    }
    forall i | 0 <= i < |request.moves| && !(committed <= |request.directories| + |request.changes| + i < applied)
      ensures LeftAlone(job.before, now, request.moves[i].from) && LeftAlone(job.before, now, request.moves[i].to)
    {
      MoveTakenBack(job, now, committed, applied, i);
    }
    forall i | 0 <= i < |request.removals|
      ensures var k := |request.directories| + |request.changes| + |request.moves| + i;
              && (k < committed ==> PutBack(job.before, now, request.removals[i].path))
              && (applied <= k ==> LeftAlone(job.before, now, request.removals[i].path))
    {
      RemovalTakenBack(job, now, committed, applied, i);
    }
    forall p | p !in NamedPaths(request) ensures LeftAlone(job.before, now, p) {
      OthersRestored(job, now, committed, applied, p);
      SameLookup(job.before, now, p);
    }
    forall q
      ensures q in job.before.dirs && q !in now.dirs ==> committed < applied && committed >= |Items(request)| && q in request.removeDirectories
      ensures q in now.dirs ==> q in job.before.dirs || exists i :: 0 <= i < |request.directories| && q <= request.directories[i]
    {
      DirectoryBack(job, now, committed, applied, q);
    }
  }

  // ---- refused ----

  /** Among the first `committed` things there is one whose old contents nobody kept: a file that was
      rewritten or removed without a backup. */
  ghost predicate KeptNoCopy(before: Disk, request: Request, committed: nat) {
    var a, b, c := |request.directories|, |request.changes|, |request.moves|;
    || (exists i :: 0 <= i < b && a + i < committed && request.changes[i].skipBackup && request.changes[i].path in before.files)
    || (exists i :: 0 <= i < |request.removals| && a + b + c + i < committed && !request.removals[i].backup)
  }

  lemma IrreversibleIff(job: Job, k: nat)
    requires job.Valid() && k < |job.entries|
    ensures var request, e := job.request, job.entries[k];
            var a, b, c := |request.directories|, |request.changes|, |request.moves|;
            Irreversible(e) <==>
              || (a <= k < a + b && request.changes[k - a].skipBackup && request.changes[k - a].path in job.before.files)
              || (a + b + c <= k < a + b + c + |request.removals| && !request.removals[k - a - b - c].backup)
  {
    hide PlanRequest, Items, ItemsPlanned, Acceptable;
    var base := Unpack(job.before, job.request);
    Origin(job.before, job.request, base, PlanRequest(job.before, job.request).value, k);
    ItemCount(job.request);
    if k < |Items(job.request)| {
      PlannedEntry(job.before, job.request, base, PlanRequest(job.before, job.request).value, k);
      ItemAt(job.request, k);
    }
  }

  /** A rollback is refused exactly when the journal has recorded such a thing. */
  lemma RollbackRefusedIff(job: Job, record: Record)
    requires job.Valid() && record.committed <= |job.entries| && record.entries == Recorded(job.entries, record.committed)
    ensures !CanRollback(record) <==> KeptNoCopy(job.before, job.request, record.committed)
  {
    hide Job.Valid, Irreversible;
    var request := job.request;
    var a, b, c := |request.directories|, |request.changes|, |request.moves|;
    forall k | 0 <= k < record.committed ensures Irreversible(record.entries[k]) <==> Irreversible(job.entries[k]) {
      SameIrreversible(job.entries[k]);
    }
    if !CanRollback(record) {
      var k :| 0 <= k < record.committed && Irreversible(record.entries[k]);
      IrreversibleIff(job, k);
      if k < a + b { assert a + (k - a) < record.committed; } else { assert a + b + c + (k - a - b - c) < record.committed; }
    }
    if i :| 0 <= i < b && a + i < record.committed && request.changes[i].skipBackup && request.changes[i].path in job.before.files {
      IrreversibleIff(job, a + i);
      assert Irreversible(record.entries[a + i]);
    }
    if i :| 0 <= i < |request.removals| && a + b + c + i < record.committed && !request.removals[i].backup {
      IrreversibleIff(job, a + b + c + i);
      assert Irreversible(record.entries[a + b + c + i]);
    }
  }

  lemma SameIrreversible(e: Entry)
    ensures Irreversible(e.(temp := None)) <==> Irreversible(e)
  {}
}
