/** What interrupted rollbacks can lead to. */
module Unfinished {
  // One transaction that is filed as completed with half of it taken back, and one for each
  // way in which a rollback can come to need what is not there: a file already moved back,
  // the directory of a created file, and a directory whose removal was not recorded.

  import opened Results
  import opened Disks
  import opened Journal
  import opened Planning
  import opened Rollback
  import opened StagingFacts
  import opened Guarantees
  import opened Jobs
  import opened Counterexamples

  /** With a separate request, k entries lead to a state nothing has been undone in. */
  lemma CommittedSoFar(job: Job, k: nat, recorded: nat) returns (d: Disk)
    requires job.Valid() && Separate(job.before, job.request) && k <= |job.entries| && recorded <= k <= recorded + 1
    ensures RunFrom(job.start, job.entries, 0, k) == Some(d) && Halfway(job, d, {}, recorded, k)
    ensures Reached(d, job.start, job.entries, k)
  {
    hide Job.Valid, Separate, Reached, Unwinding, Effect;
    JobStarts(job);
    SeparateCompletes(job, job.start, 0, 0, k);
    d := RunFrom(job.start, job.entries, 0, k).value;
    ReachedUnwinds(d, job.start, job.entries, recorded, k);
  }

  /** Undoing the last entry that stands. */
  lemma LastUndone(job: Job, d: Disk, undone: set<nat>, c: nat, i: nat, saved: Option<string>)
    requires Halfway(job, d, undone, c, c) && i < c && i !in undone && (forall m :: i < m < c ==> m in undone)
    requires Faithful(job.start, job.entries[i], saved) && !Irreversible(job.entries[i])
    requires Undo(d, job.entries[i], saved).Some?
    ensures Halfway(job, Undo(d, job.entries[i], saved).value, undone + {i}, c, c)
  {
    hide Job.Valid, Unwinding, Undo, Faithful;
    JobStaged(job);
    UndoStep(d, job.start, job.entries, undone, c, c, i, saved);
  }

  lemma JobItem(job: Job, i: nat)
    requires job.Valid() && i < |Items(job.request)|
    ensures i < |job.entries| && job.entries[i] == StageEntry(ItemEntry(job.before, Items(job.request)[i]), job.id, job.names[i])
    ensures forall p :: p in Claims(Items(job.request)[i]) ==> Lookup(job.start, p) == Lookup(job.before, p)
    ensures job.entries[i].action == Write ==>
              job.entries[i].temp.Some? && Lookup(job.start, job.entries[i].temp.value) == Some(StagedFile(job.entries[i]))
  {
    hide Prepared, Items;
    ItemOfEntry(job.before, job.request, job.id, job.names, job.entries, job.start, i);
  }

  // ---- filed as completed, half taken back ----

  const Config: Path := ["config"]
  const Key: Path := ["x"]
  const Before: Disk := Disk(map[Config := File("A", 0x180), Key := File("k", 0x180)], {[]})

  /** Rewrite one file and remove another. */
  const Rewrite: Request :=
    Request([], [Change(Config, "B", Some(Digest("A")), false)], [], [FileRemoval(Key, Some(Digest("k")), true)], [])

  lemma RewriteAdmitted()
    ensures WellFormed(Before) && PlanRequest(Before, Rewrite).Ok? && Separate(Before, Rewrite)
    ensures |Items(Rewrite)| == 2 && Items(Rewrite)[0] == ChangeItem(Rewrite.changes[0]) && Items(Rewrite)[1] == RemovalItem(Rewrite.removals[0])
  {
    var items := [ChangeItem(Rewrite.changes[0]), RemovalItem(Rewrite.removals[0])];
    assert Items(Rewrite) == items;
    assert Config != Key by { assert Config[0] != Key[0]; }
    assert items[..2][..1][..0] == [] && items[..2] == items && items[..1] == [items[0]];
    assert Planned([]) == {};
    assert PlanItems(Before, {}, []) == Ok(Plan([], {}));
    assert PlanItems(Before, {}, items[..1]).value.claimed == {Config};
    assert PlanItems(Before, {}, items).Ok?;
    assert Deepest([]) == [];
  }

  /** The rollback of the first entry has begun; completing then removes the key, and the
      history says Completed with the old configuration in place. */
  lemma HalfTakenBackCompletes(job: Job) returns (committed: Disk, d: Disk, ended: Disk)
    requires job.Valid() && job.before == Before && job.request == Rewrite
    ensures |job.entries| == 2 && RunFrom(job.start, job.entries, 0, 1) == Some(committed)
    ensures Undo(committed, job.entries[0], Some("A")) == Some(d) && Halfway(job, d, {0}, 1, 1)
    ensures CanComplete(d, Record(job.id, Staged, 1, Recorded(job.entries, 1)))
    ensures RunFrom(d, job.entries, 1, 2) == Some(ended)
    ensures Lookup(ended, Config) == Some(File("A", 0x180)) && Key !in ended.files
    ensures !CommittedDisk(ended, job.start, job.entries)
  {
    hide PlanRequest, PlanItems, Separate, Items, Reached, Unwinding, FreshNames, IsStart;
    RewriteAdmitted();
    JobItem(job, 0);
    JobItem(job, 1);
    NoRemovals(job);
    assert Config in Claims(Items(Rewrite)[0]) && Key in Claims(Items(Rewrite)[1]);
    committed := CommittedSoFar(job, 1, 1);
    StillThere(job, committed);
    var e := job.entries[0];
    ModeOfAll(0x180);
    assert Faithful(job.start, e, Some("A"));
    OnlyRoot(job, committed);
    d := Undo(committed, e, Some("A")).value;
    LastUndone(job, committed, {}, 1, 0, Some("A"));
    assert {} + {0} == {0};
    assert Key in d.files by { assert Config[0] != Key[0]; }
    ended := Effect(d, job.entries[1]).value;
    assert RunFrom(d, job.entries, 1, 1) == Some(d);
    assert Config[0] != Key[0];
    EndedMixed(job, d);
  }

  lemma ModeOfAll(m: Mode)
    requires m == 0x180
    ensures m & FILE_PERMISSION == m
  {}

  lemma NoRemovals(job: Job)
    requires job.Valid() && job.request.removeDirectories == []
    ensures |job.entries| == |Items(job.request)|
  {
    hide Items, PlanItems;
    var base, plan := Open(job.before, job.request);
    RemovalEntries(job.before, job.request, base, plan);
    assert forall i :: |base.entries| <= i < |plan.entries| ==> plan.entries[i].path in job.request.removeDirectories;
  }

  lemma StillThere(job: Job, d: Disk)
    requires |job.entries| == 2 && Reached(d, job.start, job.entries, 1) && job.entries[1].action == RemoveFile
    ensures Lookup(d, job.entries[1].path) == Lookup(job.start, job.entries[1].path)
  {
    assert Waiting(d, job.start, job.entries[1]);
    assert job.entries[1].path in Touches(job.entries[1]);
  }

  lemma OnlyRoot(job: Job, d: Disk)
    requires job.Valid() && job.before == Before && job.request == Rewrite && Halfway(job, d, {}, 1, 1)
    ensures [] in d.dirs && Config !in d.dirs && Key !in d.dirs
  {
    hide PlanRequest, Items;
    DirsInStart(d, job.start, job.entries, {}, 1, 1);
    JobStaged(job);
    RewriteAdmitted();
    JobItem(job, 0);
    JobItem(job, 1);
    assert Config in Claims(Items(Rewrite)[0]) && Key in Claims(Items(Rewrite)[1]);
  }

  lemma EndedMixed(job: Job, d: Disk)
    requires Halfway(job, d, {0}, 1, 1) && |job.entries| == 2 && RunFrom(d, job.entries, 1, 2).Some?
    requires EffectMissing(d, job.start, job.entries[0])
    ensures !CommittedDisk(RunFrom(d, job.entries, 1, 2).value, job.start, job.entries)
  {
    hide Job.Valid, RunFrom, Unwinding, CommittedDisk, EffectMissing;
    JobStaged(job);
    CompletedIff(d, job.start, job.entries, {0}, 1, 1);
  }

  // ---- a file already moved back ----

  const MoveOne: Request := Request([], [], [FileMove(Key, ["y"], Some(Digest("k")))], [], [])

  lemma MoveAdmitted()
    ensures PlanRequest(Before, MoveOne).Ok? && Separate(Before, MoveOne) && |Items(MoveOne)| == 1 && Items(MoveOne)[0] == MoveItem(MoveOne.moves[0])
  {
    var items := [MoveItem(MoveOne.moves[0])];
    assert Items(MoveOne) == items;
    assert Config[0] != Key[0] && Key[0] != "y" && Config[0] != "y";
    assert items[..0] == [] && Planned([]) == {};
    assert PlanItems(Before, {}, []) == Ok(Plan([], {}));
    assert PlanItems(Before, {}, items).Ok?;
    assert Deepest([]) == [];
  }

  /** Whenever a move has been taken back and the rollback did not end, no later one can. */
  lemma MovedBackSticks(job: Job, d: Disk, undone: set<nat>, c: nat, i: nat)
    requires c <= |job.entries| && i < c && i in undone && job.entries[i].action == Move && job.entries[i].path != []
    ensures !CanRewind(job, d, undone, c)
  {
    assert !CanRewindAt(job, d, undone, c, i);
  }

  lemma MovedBack(job: Job) returns (committed: Disk, d: Disk)
    requires job.Valid() && job.before == Before && job.request == MoveOne
    ensures |job.entries| == 1 && RunFrom(job.start, job.entries, 0, 1) == Some(committed)
    ensures Undo(committed, job.entries[0], None) == Some(d) && Halfway(job, d, {0}, 1, 1)
    ensures CanRollback(Record(job.id, Staged, 1, Recorded(job.entries, 1))) && !CanRewind(job, d, {0}, 1)
  {
    hide PlanRequest, PlanItems, Separate, Items, Reached, Unwinding, FreshNames, IsStart, CanRewind;
    MoveAdmitted();
    JobItem(job, 0);
    NoRemovals(job);
    committed := CommittedSoFar(job, 1, 1);
    assert Faithful(job.start, job.entries[0], None);
    MoveStands(job, committed);
    d := Undo(committed, job.entries[0], None).value;
    LastUndone(job, committed, {}, 1, 0, None);
    assert {} + {0} == {0};
    MovedBackSticks(job, d, {0}, 1, 0);
  }

  lemma MoveStands(job: Job, d: Disk)
    requires Halfway(job, d, {}, 1, 1) && job.entries[0].action == Move && job.entries[0].path == Key
    ensures Undo(d, job.entries[0], None).Some?
  {
    hide Job.Valid;
    JobStaged(job);
    var e := job.entries[0];
    assert Ready(job.start, e) && Done(d, job.start, e);
    assert Parent(Key) == [];
  }

  // ---- the directory of a created file ----

  const Bare: Disk := Disk(map[], {[]})
  const Made: Path := ["d"]
  const Inside: Path := ["d", "f"]
  const MakeBoth: Request := Request([Made], [Change(Inside, "x", None, false)], [], [], [])

  lemma MakeBothAdmitted()
    ensures WellFormed(Bare) && PlanRequest(Bare, MakeBoth).Ok? && Separate(Bare, MakeBoth)
    ensures |Items(MakeBoth)| == 2 && Items(MakeBoth)[0] == CreateItem(Made) && Items(MakeBoth)[1] == ChangeItem(MakeBoth.changes[0])
  {
    var planned, items := Planned([Made]), [CreateItem(Made), ChangeItem(MakeBoth.changes[0])];
    assert Items(MakeBoth) == items;
    assert items[..2][..1][..0] == [] && items[..2] == items && items[..1] == [items[0]];
    assert PlanItems(Bare, planned, []) == Ok(Plan([], {}));
    assert PlanItems(Bare, planned, items[..1]).value.claimed == {Made};
    assert Inside[..1] == Made == [Made][0][..1];
    assert Made in planned;
    assert ResolvesForWrite(Bare, Inside, planned);
    assert PlanItems(Bare, planned, items).Ok?;
    assert Deepest([]) == [];
  }

  /** The file and then its directory were taken back, and the machine stopped before the history
      was written: the next rollback cannot sync the directory, nor can any after it. */
  lemma DirectoryGone(job: Job) returns (committed: Disk, between: Disk, d: Disk)
    requires job.Valid() && job.before == Bare && job.request == MakeBoth
    ensures |job.entries| == 2 && RunFrom(job.start, job.entries, 0, 2) == Some(committed)
    ensures Undo(committed, job.entries[1], None) == Some(between) && Undo(between, job.entries[0], None) == Some(d)
    ensures Halfway(job, d, {0, 1}, 2, 2)
    ensures CanRollback(Record(job.id, Staged, 2, Recorded(job.entries, 2))) && !CanRewind(job, d, {0, 1}, 2)
  {
    hide PlanRequest, PlanItems, Separate, Items, Reached, Unwinding, FreshNames, IsStart, CanRewind, Prepared;
    MakeBothAdmitted();
    JobItem(job, 0);
    JobItem(job, 1);
    NoRemovals(job);
    assert Inside in Claims(Items(MakeBoth)[1]);
    committed := CommittedSoFar(job, 2, 2);
    assert Faithful(job.start, job.entries[1], None) && Faithful(job.start, job.entries[0], None);
    OnlyInside(job, committed);
    between := Undo(committed, job.entries[1], None).value;
    LastUndone(job, committed, {}, 2, 1, None);
    assert {} + {1} == {1};
    d := Undo(between, job.entries[0], None).value;
    LastUndone(job, between, {1}, 2, 0, None);
    assert {1} + {0} == {0, 1};
    assert !HasChild(between, Made);
    assert Parent(Inside) == Made && Made !in d.dirs;
    assert !CanRewindAt(job, d, {0, 1}, 2, 1);
    assert !CanRewind(job, d, {0, 1}, 2) by { AtMeansAll(job, d, {0, 1}, 2, 1); }
  }

  lemma AtMeansAll(job: Job, d: Disk, undone: set<nat>, c: nat, i: nat)
    requires i < c <= |job.entries| && !CanRewindAt(job, d, undone, c, i)
    ensures !CanRewind(job, d, undone, c)
  {}

  lemma OnlyInside(job: Job, d: Disk)
    requires job.Valid() && job.before == Bare && job.request == MakeBoth && |job.entries| == 2
    requires job.entries[0].path == Made && job.entries[1].path == Inside && job.entries[0].action == MakeDir && job.entries[1].action == Write
    requires job.entries[0].temp.None?
    requires Reached(d, job.start, job.entries, 2)
    ensures d.files.Keys == {Inside} && d.dirs == {[], Made}
  {
    hide PlanRequest, Items, FreshNames, IsStart, Elsewhere, Done, WellFormed;
    assert RemovedDirs(job.entries, 2) == {};
    JobContents(job, 1);
    assert Done(d, job.start, job.entries[1]);
    OnlyInsideFiles(job.start, job.entries, d);
    OnlyMadeDirs(job.start, job.entries);
  }

  lemma OnlyInsideFiles(start: Disk, entries: seq<Entry>, d: Disk)
    requires |entries| == 2 && IsStart(Bare, entries, start) && Elsewhere(d, start, entries) && Done(d, start, entries[1])
    requires entries[0].action == MakeDir && entries[1].action == Write && entries[1].path == Inside && entries[0].temp.None?
    requires entries[1].temp.Some? && Lookup(start, entries[1].temp.value).Some?
    ensures d.files.Keys == {Inside}
  {
    forall p | p !in Touches(entries[1]) ensures p !in d.files {
      assert p !in Touched(entries);
      assert Lookup(d, p) == Lookup(start, p) == Lookup(Bare, p);
    }
  }

  lemma OnlyMadeDirs(start: Disk, entries: seq<Entry>)
    requires |entries| == 2 && IsStart(Bare, entries, start)
    requires entries[0].action == MakeDir && entries[0].path == Made && entries[1].action == Write
    ensures start.dirs == {[], Made}
  {
    assert InNewDirectory(entries, Made);
    forall q | q in start.dirs ensures q == [] || q == Made { assert q == [] || q <= Made; }
  }

  // ---- a directory whose removal was not recorded ----

  const Full: Disk := Disk(map[Inside := File("k", 0x180)], {[], Made})
  const Empty: Request := Request([], [], [FileMove(Inside, ["f"], Some(Digest("k")))], [], [Made])

  lemma EmptyAdmitted()
    ensures WellFormed(Full) && PlanRequest(Full, Empty).Ok? && Separate(Full, Empty)
    ensures |Items(Empty)| == 1 && Items(Empty)[0] == MoveItem(Empty.moves[0])
    ensures PlanRequest(Full, Empty).value.entries == [ItemEntry(Full, MoveItem(Empty.moves[0])), RemoveDirEntry(Made)]
  {
    var items := [MoveItem(Empty.moves[0])];
    assert Items(Empty) == items;
    assert items[..0] == [] && Planned([]) == {};
    assert PlanItems(Full, {}, []) == Ok(Plan([], {}));
    assert Inside[..1] == Made && Parent(Inside) == Made && Parent(Made) == [];
    assert forall k :: 0 < k < 2 ==> Inside[..k] == Made;
    assert ["f"] != Made by { assert ["f"][0] != Made[0]; }
    assert PlanItems(Full, {}, items).Ok?;
    var base := PlanItems(Full, {}, items).value;
    assert Deepest([Made]) == [Made];
    assert [Made][..0] == [];
    assert PlanRemovals(Full, base, []) == Ok(base);
    assert Made[..1] == Made;
    assert RemovalStep(Full, base, Made).Ok?;
    assert PlanRemovals(Full, base, [Made]) == RemovalStep(Full, base, Made);
  }

  /** Both entries happened and only the move was recorded: its file cannot go back, for its
      directory is not there and no recorded entry makes it again. */
  lemma DirectoryInDoubt(job: Job) returns (d: Disk)
    requires job.Valid() && job.before == Full && job.request == Empty
    ensures |job.entries| == 2 && RunFrom(job.start, job.entries, 0, 2) == Some(d) && Halfway(job, d, {}, 1, 2)
    ensures CanRollback(Record(job.id, Staged, 1, Recorded(job.entries, 1))) && !CanRewind(job, d, {}, 1)
  {
    hide PlanItems, Separate, Items, Unwinding, FreshNames, IsStart, CanRewind;
    EmptyAdmitted();
    hide PlanRequest;
    assert |job.entries| == 2;
    assert job.entries[0].action == Move && job.entries[0].path == Inside;
    assert job.entries[1].action == RemoveDir && job.entries[1].path == Made;
    d := CommittedSoFar(job, 2, 1);
    assert Made in RemovedDirs(job.entries, 2);
    assert Made !in d.dirs && Parent(Inside) == Made;
    assert Remade(job.entries, 0, 1) == {};
    assert !CanRewindAt(job, d, {}, 1, 0);
    AtMeansAll(job, d, {}, 1, 0);
  }

  /** Every one of these can be staged. */
  lemma AllCanBeStaged(id: Id) returns (rewrite: Job, move: Job, make: Job, empty: Job)
    ensures rewrite.Valid() && rewrite.before == Before && rewrite.request == Rewrite
    ensures move.Valid() && move.before == Before && move.request == MoveOne
    ensures make.Valid() && make.before == Bare && make.request == MakeBoth
    ensures empty.Valid() && empty.before == Full && empty.request == Empty
  {
    hide PlanRequest, Prepared, WellFormed;
    RewriteAdmitted();
    MoveAdmitted();
    MakeBothAdmitted();
    EmptyAdmitted();
    var names, entries, start := StagingPossible(Before, Rewrite, id);
    rewrite := Job(Before, Rewrite, id, names, entries, start);
    names, entries, start := StagingPossible(Before, MoveOne, id);
    move := Job(Before, MoveOne, id, names, entries, start);
    names, entries, start := StagingPossible(Bare, MakeBoth, id);
    make := Job(Bare, MakeBoth, id, names, entries, start);
    names, entries, start := StagingPossible(Full, Empty, id);
    empty := Job(Full, Empty, id, names, entries, start);
  }

  // ---- completed before it was staged ----

  /** A transaction that stopped while it was being staged can be completed when it writes no
      file: the check looks at staged contents only.  A removal that asked for a copy then
      happens without one, and a rollback neither refuses it nor can take it back. */
  lemma UnstagedRemovalCompletes(before: Disk, request: Request, id: Id, i: nat)
    requires PlanRequest(before, request).Ok? && request.changes == [] && i < |request.removals| && request.removals[i].backup
    ensures var entries := PlanRequest(before, request).value.entries;
            var k := |request.directories| + |request.moves| + i;
            && (forall d :: CanComplete(d, Record(id, Staging, 0, entries)))
            && k < |entries| && entries[k].action == RemoveFile && entries[k].path == request.removals[i].path
            && NeedsBackup(entries[k]) && !Irreversible(entries[k])
            && forall d: Disk, backups: map<BackupKey, string>, unseal: string -> string :: Undo(d, entries[k], Saved(entries[k], backups, unseal)) == None
  {
    hide Items, PlanItems;
    var base, plan := Open(before, request);
    var k := |request.directories| + |request.moves| + i;
    ItemCount(request);
    ItemAt(request, k);
    PlannedEntry(before, request, base, plan, k);
    forall m | 0 <= m < |plan.entries| ensures plan.entries[m].action != Write {
      Origin(before, request, base, plan, m);
      if m < |base.entries| { ItemAt(request, m); }
    }
  }
}
