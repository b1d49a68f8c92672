/**
 A transaction in flight: the job it was planned as, what its journal record says,
 and the states that committing, crashing and rolling back can leave it in.
 */
module Jobs {
  import opened Results
  import opened Disks
  import opened Journal
  import opened Planning
  import opened Rollback
  import opened StagingFacts
  import opened Guarantees

  /** The journal's view of the entries once c of them are recorded as committed. */
  function Recorded(entries: seq<Entry>, c: nat): seq<Entry> {
    seq(|entries|, i requires 0 <= i < |entries| => if i < c then entries[i].(temp := None) else entries[i])
  }

  /** A staged transaction: the disk and request it was planned on, the entries with
      their temporaries and backups, and the disk as staging left it. */
  datatype Job = Job(before: Disk, request: Request, id: Id, names: seq<string>, entries: seq<Entry>, start: Disk) {
    ghost predicate Valid() {
      Prepared(before, request, id, names, entries, start)
    }
  }

  /** The journal says `record`; `applied` entries have really happened, which is as
      many as are recorded or one more. */
  ghost predicate InFlight(job: Job, record: Record, d: Disk, applied: nat) {
    && record.entries == Recorded(job.entries, record.committed)
    && Counts(job.entries, {}, record.committed, applied)
    && Reached(d, job.start, job.entries, applied)
  }

  /** A state between a commit and its end: whatever rollbacks and completions have been begun
      and interrupted since, the entries in `undone` are taken back and the other entries
      below `applied` stand. */
  ghost predicate Halfway(job: Job, d: Disk, undone: set<nat>, committed: nat, applied: nat) {
    && job.Valid() && Counts(job.entries, undone, committed, applied)
    && Unwinding(d, job.start, job.entries, undone, committed, applied)
  }

  lemma InFlightHalfway(job: Job, record: Record, d: Disk, applied: nat)
    requires job.Valid() && InFlight(job, record, d, applied)
    ensures Halfway(job, d, {}, record.committed, applied)
  {
    hide Job.Valid;
    ReachedUnwinds(d, job.start, job.entries, record.committed, applied);
  }

  /** One entry happened without being recorded, and it is about a file. */
  ghost predicate FileInDoubt(job: Job, record: Record, applied: nat)
    requires applied <= |job.entries|
  {
    record.committed < applied && !OnDirectory(job.entries[record.committed])
  }

  function Advance(record: Record, job: Job, c: nat): Record {
    record.(committed := c, entries := Recorded(job.entries, c))
  }

  /** Staged contents are what the journal says they are. */
  predicate StagedMatches(d: Disk, e: Entry) {
    e.temp.Some? && e.temp.value in d.files && e.digest == Some(Digest(d.files[e.temp.value].contents))
  }

  predicate CanComplete(d: Disk, record: Record) {
    forall i :: record.committed <= i < |record.entries| && record.entries[i].action == Write ==>
      StagedMatches(d, record.entries[i])
  }

  predicate CanRollback(record: Record) {
    forall i :: 0 <= i < |record.entries| && i < record.committed ==> !Irreversible(record.entries[i])
  }

  datatype Commitment = Rejected(error: Error) | Interrupted | Committed

  datatype Ending = Unknown | Refused | Stopped | Finished

  datatype Removing = Gone | WasAbsent | Failed

  lemma PrefixStep(p: Path, k: nat)
    requires k < |p|
    ensures Prefixes(p[..k + 1]) == Prefixes(p[..k]) + {p[..k + 1]}
    ensures p[..k + 1] in Prefixes(p) && p[..k] in Prefixes(p[..k])
  {
    assert p[..k + 1][..k + 1] == p[..k + 1] && p[..k][..k] == p[..k];
    forall q ensures q in Prefixes(p[..k + 1]) <==> q in Prefixes(p[..k]) || q == p[..k + 1] {
      PrefixesOf(p[..k + 1], q);
      PrefixesOf(p[..k], q);
      if q <= p[..k + 1] && |q| <= k { assert q == p[..k][..|q|]; }
    }
  }

  lemma JobStaged(job: Job)
    requires job.Valid()
    ensures StagedOn(job.start, job.entries)
  {
    PreparedStaged(job.before, job.request, job.id, job.names, job.entries, job.start);
  }

  /** What applying the first entry that is not recorded can meet. */
  lemma TurnMeets(job: Job, d: Disk, undone: set<nat>, index: nat, applied: nat)
    requires Halfway(job, d, undone, index, applied) && index < |job.entries|
    ensures var e := job.entries[index];
            && WellFormed(d) && e.path != [] && (e.action == Move ==> e.target != [])
            && (e.action == MakeDir ==> Prefixes(e.path) <= d.dirs)
            && (e.action == RemoveDir ==> Parent(e.path) in d.dirs)
            && (applied > index && !OnDirectory(e) ==> Effect(d, e) == None)
  {
    hide Job.Valid, Effect, Mixed, DirsStand;
    JobStaged(job);
    var e := job.entries[index];
    assert Ready(job.start, e);
    JobPaths(job, index);
    if e.action == MakeDir {
      OwnDirectoryStands(d, job.start, job.entries, undone, index, applied, index, e.path);
      PrefixesPresent(d, e.path);
    }
    if e.action == RemoveDir { AboveNextStands(d, job.start, job.entries, undone, index, applied); }
    if applied > index && !OnDirectory(e) { TurnTwice(job, d, undone, index, applied); }
  }

  lemma TurnTwice(job: Job, d: Disk, undone: set<nat>, index: nat, applied: nat)
    requires Halfway(job, d, undone, index, applied) && index < applied && !OnDirectory(job.entries[index])
    ensures Effect(d, job.entries[index]) == None
  {
    hide Job.Valid, Effect, Done, Ready;
    JobStaged(job);
    DirsInStart(d, job.start, job.entries, undone, index, applied);
    assert Ready(job.start, job.entries[index]) && Done(d, job.start, job.entries[index]);
    DoneIsRefused(d, job.start, job.entries[index]);
  }

  /** ... and where it leads. */
  lemma TurnTaken(job: Job, d: Disk, undone: set<nat>, index: nat, applied: nat)
    requires Halfway(job, d, undone, index, applied) && index < |job.entries|
    requires Effect(d, job.entries[index]).Some?
    ensures var after := Effect(d, job.entries[index]).value;
            && Halfway(job, after, undone, index, index + 1) && Halfway(job, after, undone, index + 1, index + 1)
            && (Reached(d, job.start, job.entries, applied) ==> Reached(after, job.start, job.entries, index + 1))
  {
    hide Job.Valid, Effect, Unwinding, Reached, StagedOn;
    JobStaged(job);
    CompleteStep(d, job.start, job.entries, undone, index, applied);
    if Reached(d, job.start, job.entries, applied) {
      if applied == index {
        ReachedStep(d, job.start, job.entries, index);
      } else {
        AppliedAgain(d, job.start, job.entries, index);
      }
    }
  }

  /** With a separate request nothing but a file in doubt stops what is left of the commit. */
  lemma {:induction false} SeparateCompletes(job: Job, d: Disk, c: nat, applied: nat, k: nat)
    requires job.Valid() && Separate(job.before, job.request) && Counts(job.entries, {}, c, applied) && c <= k <= |job.entries|
    requires Reached(d, job.start, job.entries, applied) && (c < applied ==> OnDirectory(job.entries[c]))
    ensures RunFrom(d, job.entries, c, k).Some?
    ensures Reached(RunFrom(d, job.entries, c, k).value, job.start, job.entries, if k > c then k else applied)
    decreases k
  {
    hide Job.Valid, Effect, Reached, Separate, StagedOn;
    JobStaged(job);
    if k > c {
      SeparateCompletes(job, d, c, applied, k - 1);
      var before := RunFrom(d, job.entries, c, k - 1).value;
      if k - 1 == c && applied == c + 1 {
        AppliedAgain(before, job.start, job.entries, c);
      } else {
        JobStep(job, before, k - 1);
        ReachedStep(before, job.start, job.entries, k - 1);
      }
    }
  }

  lemma {:induction false} RunFromShorter(d: Disk, entries: seq<Entry>, c: nat, k: nat, n: nat)
    requires c <= k <= n <= |entries| && RunFrom(d, entries, c, n).Some?
    ensures RunFrom(d, entries, c, k).Some?
    decreases n
  {
    if k < n { RunFromShorter(d, entries, c, k, n - 1); }
  }

  /** Staged contents are intact in every reachable state, except that the contents of
      a write that happened without being recorded are no longer staged. */
  lemma IntactUnlessInDoubt(job: Job, record: Record, d: Disk, applied: nat)
    requires job.Valid() && InFlight(job, record, d, applied)
    ensures CanComplete(d, record) <==> !(record.committed < applied && job.entries[record.committed].action == Write)
  {
    hide Job.Valid, Elsewhere, WellFormed, RemovedDirs;
    JobStaged(job);
    forall i | record.committed <= i < |job.entries| && job.entries[i].action == Write
      ensures StagedMatches(d, record.entries[i]) <==> i >= applied
    {
      JobContents(job, i);
      assert Ready(job.start, job.entries[i]) && record.entries[i] == job.entries[i];
      assert job.entries[i].temp.value in Touches(job.entries[i]);
      if i >= applied {
        assert Waiting(d, job.start, job.entries[i]);
        assert Lookup(d, job.entries[i].temp.value) == Some(StagedFile(job.entries[i]));
      } else {
        assert Done(d, job.start, job.entries[i]);
      }
    }
    hide StagedMatches, Applied, StagedOn;
  }

  lemma JobContents(job: Job, i: nat)
    requires job.Valid() && i < |job.entries| && job.entries[i].action == Write
    ensures job.entries[i].temp.Some? && job.entries[i].digest.Some?
    ensures Lookup(job.start, job.entries[i].temp.value) == Some(StagedFile(job.entries[i]))
  {
    hide PlanRequest;
    JobPaths(job, i);
  }

  lemma JobStep(job: Job, d: Disk, index: nat)
    requires job.Valid() && Separate(job.before, job.request)
    requires index < |job.entries| && Reached(d, job.start, job.entries, index)
    ensures Effect(d, job.entries[index]).Some?
  {
    SeparateStep(job.before, job.request, job.id, job.names, job.entries, job.start, d, index);
  }

  lemma JobPaths(job: Job, i: nat)
    requires job.Valid() && i < |job.entries|
    ensures job.entries[i].path != [] && (job.entries[i].action == Move ==> job.entries[i].target != [])
  {
    hide PlanRequest, Items;
    var base := Unpack(job.before, job.request);
    PlannedPathNotRoot(job.before, job.request, base, PlanRequest(job.before, job.request).value, i);
  }

  /** A state between a commit and its end, with backups that open. */
  ghost predicate Rewinding(job: Job, d: Disk, backups: map<BackupKey, string>, seal: string -> string, unseal: string -> string,
                            undone: set<nat>, committed: nat, applied: nat)
  {
    && Halfway(job, d, undone, committed, applied)
    && BackedUp(job.before, job.entries, backups, seal)
    && (forall text :: unseal(seal(text)) == text)
  }

  /** Where an interrupted commit leaves off a rollback can begin. */
  lemma InterruptedRewinds(job: Job, record: Record, d: Disk, backups: map<BackupKey, string>,
                           seal: string -> string, unseal: string -> string, applied: nat)
    requires job.Valid() && InFlight(job, record, d, applied) && BackedUp(job.before, job.entries, backups, seal)
    requires forall text :: unseal(seal(text)) == text
    ensures Rewinding(job, d, backups, seal, unseal, {}, record.committed, applied)
    ensures record.entries == Recorded(job.entries, record.committed)
  {
    hide Job.Valid, BackedUp;
    InFlightHalfway(job, record, d, applied);
  }

  /** Crashes aside, the rollback gets past entry i. */
  ghost predicate CanUnwind(job: Job, d: Disk, i: nat, undone: set<nat>)
    requires i < |job.entries| && job.entries[i].path != []
  {
    !OnDirectory(job.entries[i]) ==>
      Parent(job.entries[i].path) in d.dirs && (i in undone ==> job.entries[i].action != Move)
  }

  lemma SameSaved(e: Entry, backups: map<BackupKey, string>, unseal: string -> string)
    ensures Saved(e.(temp := None), backups, unseal) == Saved(e, backups, unseal)
  {}

  lemma SameUndo(d: Disk, e: Entry, saved: Option<string>)
    ensures Undo(d, e.(temp := None), saved) == Undo(d, e, saved)
  {}

  lemma JobFaithful(job: Job, backups: map<BackupKey, string>, seal: string -> string, unseal: string -> string, i: nat)
    requires job.Valid() && i < |job.entries| && BackedUp(job.before, job.entries, backups, seal)
    requires forall text :: unseal(seal(text)) == text
    ensures Faithful(job.start, job.entries[i], Saved(job.entries[i], backups, unseal))
  {
    PreparedFaithful(job.before, job.request, job.id, job.names, job.entries, job.start, backups, seal, unseal, i);
  }

  /** What undoing entry i can meet. */
  lemma RewindMeets(job: Job, d: Disk, backups: map<BackupKey, string>, seal: string -> string, unseal: string -> string,
                    i: nat, undone: set<nat>, committed: nat, applied: nat)
    requires Rewinding(job, d, backups, seal, unseal, undone, committed, applied)
    requires i < committed && !Irreversible(job.entries[i])
    ensures var e := job.entries[i];
            && WellFormed(d) && e.path != [] && (e.action == Move ==> e.target != [])
            && (i in undone ==> (Undo(d, e, Saved(e, backups, unseal)).Some? <==> e.action != Move))
            && (CanUnwind(job, d, i, undone) ==> Undo(d, e, Saved(e, backups, unseal)).Some?)
            && (e.action == RemoveFile ==> e.hadPrevious)
            && Undo(d, e.(temp := None), Saved(e, backups, unseal)) == Undo(d, e, Saved(e, backups, unseal))
  {
    hide Job.Valid, Undo, BackedUp, Saved, Apart, Mixed, DirsStand;
    JobStaged(job);
    JobPaths(job, i);
    JobFaithful(job, backups, seal, unseal, i);
    var e := job.entries[i];
    var saved := Saved(e, backups, unseal);
    SameUndo(d, e, saved);
    assert Ready(job.start, e);
    if i in undone {
      UndoAgain(d, job.start, job.entries, undone, committed, applied, i, saved);
    } else {
      UndoGoesThrough(d, job.start, job.entries, undone, committed, applied, i, saved);
    }
  }

  lemma RewindStep(job: Job, d: Disk, backups: map<BackupKey, string>, seal: string -> string, unseal: string -> string,
                   i: nat, undone: set<nat>, committed: nat, applied: nat)
    requires Rewinding(job, d, backups, seal, unseal, undone, committed, applied)
    requires i < committed && !Irreversible(job.entries[i]) && forall m :: i < m < committed ==> m in undone
    requires Undo(d, job.entries[i], Saved(job.entries[i], backups, unseal)).Some?
    ensures var after := Undo(d, job.entries[i], Saved(job.entries[i], backups, unseal)).value;
            && Rewinding(job, after, backups, seal, unseal, undone + {i}, committed, applied)
            && (job.entries[i].action != MakeDir ==>
                  after.dirs == d.dirs + (if job.entries[i].action == RemoveDir then Prefixes(job.entries[i].path) else {}))
            && (job.entries[i].action == MakeDir ==> after.dirs <= d.dirs)
  {
    hide Job.Valid, BackedUp, Saved, Unwinding, StagedOn;
    JobStaged(job);
    JobFaithful(job, backups, seal, unseal, i);
    RewindMeets(job, d, backups, seal, unseal, i, undone, committed, applied);
    FilePathsApart(job, d, i, undone, committed, applied);
    UndoStep(d, job.start, job.entries, undone, committed, applied, i, Saved(job.entries[i], backups, unseal));
  }

  /** A file entry about to be undone is not looking at a directory. */
  lemma FilePathsApart(job: Job, d: Disk, i: nat, undone: set<nat>, committed: nat, applied: nat)
    requires Halfway(job, d, undone, committed, applied) && i < committed
    ensures !OnDirectory(job.entries[i]) ==> job.entries[i].path !in d.dirs
  {
    hide Job.Valid, Mixed;
    JobStaged(job);
    assert Ready(job.start, job.entries[i]) && Placed(job.start, job.entries[i]);
  }

  lemma RewindPartial(job: Job, d: Disk, after: Disk, backups: map<BackupKey, string>, seal: string -> string, unseal: string -> string,
                      i: nat, undone: set<nat>, committed: nat, applied: nat)
    requires Rewinding(job, d, backups, seal, unseal, undone, committed, applied)
    requires i < committed && forall m :: i < m < committed ==> m in undone
    requires WellFormed(after) && after.files == d.files && d.dirs <= after.dirs
    requires after.dirs <= d.dirs + (if job.entries[i].action == RemoveDir then Prefixes(job.entries[i].path) - {job.entries[i].path} else {})
    ensures Rewinding(job, after, backups, seal, unseal, undone, committed, applied)
  {
    hide Job.Valid, BackedUp, Mixed;
    JobStaged(job);
    if job.entries[i].action == RemoveDir {
      RemovedPrefixes(job.start, job.entries, i);
      RemadeIsNotStanding(job.entries, undone, committed, i);
    }
    DirsMayGrow(d, after, job.start, job.entries, undone, committed, applied);
  }

  function UndoBudget(entries: seq<Entry>, c: nat): nat
    requires c <= |entries|
  {
    if c == 0 then 0 else UndoBudget(entries, c - 1) + |entries[c - 1].path| + 3
  }

  /** The directories that a rollback makes again: the removed ones and what lies above them. */
  function Remade(entries: seq<Entry>, k: nat, n: nat): set<Path>
    requires k <= n <= |entries|
  {
    set i, m | k <= i < n && entries[i].action == RemoveDir && 0 <= m <= |entries[i].path| :: entries[i].path[..m]
  }

  lemma RemadeStep(entries: seq<Entry>, k: nat, n: nat)
    requires k < n <= |entries|
    ensures Remade(entries, k, n) ==
              Remade(entries, k + 1, n) + (if entries[k].action == RemoveDir then Prefixes(entries[k].path) else {})
  {
    forall p ensures p in Remade(entries, k, n) <==>
              p in Remade(entries, k + 1, n) || (entries[k].action == RemoveDir && p in Prefixes(entries[k].path))
    {
      if p in Remade(entries, k, n) {
        var i, m :| k <= i < n && entries[i].action == RemoveDir && 0 <= m <= |entries[i].path| && p == entries[i].path[..m];
      }
    }
  }

  lemma RemadeGrows(entries: seq<Entry>, k: nat, n: nat)
    requires k <= n <= |entries|
    ensures Remade(entries, k, n) <= Remade(entries, 0, n)
  {}

  /** What a rollback needs: a file that was moved has not been moved back yet, and the directory
      that held each file is there or is made again. */
  predicate CanRewind(job: Job, d: Disk, undone: set<nat>, committed: nat)
    requires committed <= |job.entries|
  {
    forall i :: 0 <= i < committed ==> CanRewindAt(job, d, undone, committed, i)
  }

  predicate CanRewindAt(job: Job, d: Disk, undone: set<nat>, committed: nat, i: nat)
    requires i < committed <= |job.entries|
  {
    var e := job.entries[i];
    !OnDirectory(e) && e.path != [] ==>
      Parent(e.path) in d.dirs + Remade(job.entries, 0, committed) && (i in undone ==> e.action != Move)
  }

  /** At a file entry every directory that the rollback makes again has been made. */
  lemma RemadeByThen(job: Job, i: nat, n: nat)
    requires job.Valid() && i < n <= |job.entries| && !OnDirectory(job.entries[i])
    ensures Remade(job.entries, i + 1, n) == Remade(job.entries, 0, n)
    ensures forall m :: i < m < n ==> job.entries[m].action != MakeDir
  {
    hide Job.Valid;
    JobStaged(job);
    JobOrder(job, i);
    forall m | 0 <= m <= i ensures job.entries[m].action != RemoveDir {
      if m < i { assert Rank(job.entries[m].action) <= Rank(job.entries[i].action); }
    }
    assert Remade(job.entries, 0, n) <= Remade(job.entries, i + 1, n);
  }

  /** The loop finds at entry i what was there, or was to be made, when it began. */
  lemma UnwindAsRewind(job: Job, before: Disk, d: Disk, undone0: set<nat>, undone: set<nat>, committed: nat, i: nat)
    requires job.Valid() && i < committed <= |job.entries| && job.entries[i].path != []
    requires i in undone <==> i in undone0
    requires d.dirs <= before.dirs + Remade(job.entries, i + 1, committed)
    requires (forall m :: i < m < committed ==> job.entries[m].action != MakeDir) ==>
               before.dirs + Remade(job.entries, i + 1, committed) <= d.dirs
    ensures CanUnwind(job, d, i, undone) <==> CanRewindAt(job, before, undone0, committed, i)
  {
    hide Job.Valid, Remade;
    if !OnDirectory(job.entries[i]) { RemadeByThen(job, i, committed); }
  }

  /** An attempt that stops does not make the next one easier. */
  lemma RewindNoEasier(job: Job, before: Disk, d: Disk, undone0: set<nat>, undone: set<nat>, committed: nat)
    requires committed <= |job.entries| && undone0 <= undone && d.dirs <= before.dirs + Remade(job.entries, 0, committed)
    ensures CanRewind(job, d, undone, committed) ==> CanRewind(job, before, undone0, committed)
  {
    hide Remade;
    if CanRewind(job, d, undone, committed) {
      forall i | 0 <= i < committed ensures CanRewindAt(job, before, undone0, committed, i) {
        assert CanRewindAt(job, d, undone, committed, i);
      }
    }
  }

  lemma RemadeNothing(entries: seq<Entry>, n: nat)
    requires n <= |entries|
    ensures Remade(entries, n, n) == {}
  {}

  lemma RewindingCounts(job: Job, d: Disk, backups: map<BackupKey, string>, seal: string -> string, unseal: string -> string,
                        undone: set<nat>, committed: nat, applied: nat)
    requires Rewinding(job, d, backups, seal, unseal, undone, committed, applied)
    ensures job.Valid() && Counts(job.entries, undone, committed, applied) && WellFormed(d)
  {}

  /** Completing to the end is such a state too, with every entry recorded. */
  lemma HalfwayAtEnd(job: Job, before: Disk, d: Disk, undone: set<nat>, committed: nat, applied: nat)
    requires Halfway(job, before, undone, committed, applied) && RunFrom(before, job.entries, committed, |job.entries|) == Some(d)
    ensures Halfway(job, d, undone, |job.entries|, |job.entries|)
  {
    hide Job.Valid, Unwinding, Effect;
    JobStaged(job);
    UndoneStaysUndone(before, job.start, job.entries, undone, committed, applied, |job.entries|);
  }

  lemma JobOrder(job: Job, i: nat)
    requires job.Valid() && i < |job.entries|
    ensures job.entries[i].action != MakeDir ==> forall j :: i < j < |job.entries| ==> job.entries[j].action != MakeDir
  {
    hide Job.Valid;
    JobStaged(job);
    forall j | i < j < |job.entries| && job.entries[i].action != MakeDir ensures job.entries[j].action != MakeDir {
      assert Rank(job.entries[i].action) <= Rank(job.entries[j].action);
    }
  }

  lemma JobTemp(job: Job, i: nat)
    requires job.Valid() && i < |job.entries| && job.entries[i].temp.Some?
    ensures job.entries[i].action == Write
  {
    hide PlanRequest;
    PlannedNoTemp(job.before, job.request, i);
  }

  lemma TempNotThere(job: Job, d: Disk, undone: set<nat>, committed: nat, applied: nat, i: nat)
    requires Halfway(job, d, undone, committed, applied) && i < |job.entries|
    requires job.entries[i].temp.Some? && job.entries[i].action == Write
    ensures job.entries[i].temp.value !in d.dirs
  {
    hide Job.Valid, Mixed, Apart;
    JobStaged(job);
    assert Ready(job.start, job.entries[i]);
  }

  lemma TempMeets(job: Job, d: Disk, backups: map<BackupKey, string>, seal: string -> string, unseal: string -> string,
                  undone: set<nat>, committed: nat, applied: nat, i: nat)
    requires Rewinding(job, d, backups, seal, unseal, undone, committed, applied)
    requires committed <= i < |job.entries| && job.entries[i].temp.Some?
    ensures var temp := job.entries[i].temp.value; var after := d.(files := d.files - {temp});
            && Remove(d, temp) == (if temp in d.files then Removed(after) else Absent)
            && Rewinding(job, after, backups, seal, unseal, undone, committed, applied)
  {
    hide Job.Valid, BackedUp, Unwinding, StagedOn;
    JobStaged(job);
    JobTemp(job, i);
    TempNotThere(job, d, undone, committed, applied, i);
    var temp := job.entries[i].temp.value;
    TempThrownAway(d, d.(files := d.files - {temp}), job.start, job.entries, undone, committed, applied, i);
  }

  lemma UnwoundIsRestored(job: Job, d: Disk, committed: nat, applied: nat)
    requires Counts(job.entries, UpTo(committed), committed, applied)
    requires Unwinding(d, job.start, job.entries, UpTo(committed), committed, applied)
    requires forall i :: committed <= i < |job.entries| && job.entries[i].temp.Some? ==> job.entries[i].temp.value !in d.files
    ensures Restored(d, job.start, job.entries, committed, applied)
  {
    assert Standing(job.entries, UpTo(committed), committed) == {};
  }

  // ---- what staging builds up ----

  function DirBudget(entries: seq<Entry>, n: nat): nat
    requires n <= |entries|
  {
    if n == 0 then 0
    else DirBudget(entries, n - 1) + (if entries[n - 1].action == MakeDir then |entries[n - 1].path| else 0)
  }

  lemma {:induction false} DirBudgetGrows(entries: seq<Entry>, m: nat, n: nat)
    requires m <= n <= |entries|
    ensures DirBudget(entries, m) <= DirBudget(entries, n)
    decreases n
  {
    if m < n { DirBudgetGrows(entries, m, n - 1); }
  }

  lemma NewDirectoriesStep(entries: seq<Entry>, index: nat)
    requires index < |entries|
    ensures forall q :: InNewDirectory(entries[..index + 1], q) <==>
              InNewDirectory(entries[..index], q) || (entries[index].action == MakeDir && q <= entries[index].path)
  {
    forall q ensures InNewDirectory(entries[..index + 1], q) <==>
              InNewDirectory(entries[..index], q) || (entries[index].action == MakeDir && q <= entries[index].path)
    {
      if InNewDirectory(entries[..index], q) {
        var i :| 0 <= i < index && entries[..index][i].action == MakeDir && q <= entries[..index][i].path;
        assert entries[..index + 1][i] == entries[..index][i];
      }
      if entries[index].action == MakeDir && q <= entries[index].path {
        assert entries[..index + 1][index] == entries[index];
      }
      if InNewDirectory(entries[..index + 1], q) {
        var i :| 0 <= i < index + 1 && entries[..index + 1][i].action == MakeDir && q <= entries[..index + 1][i].path;
        assert i < index ==> entries[..index][i] == entries[..index + 1][i];
      }
    }
  }

  function WithBackup(e: Entry, id: Id): Entry {
    if NeedsBackup(e) then e.(backup := Some(BackupKey(id, e.path))) else e
  }

  function WithBackups(plan: seq<Entry>, id: Id, n: nat): seq<Entry> {
    seq(|plan|, i requires 0 <= i < |plan| => if i < n then WithBackup(plan[i], id) else plan[i])
  }

  function WithTemp(e: Entry, name: string): Entry {
    if e.action == Write && e.path != [] then e.(temp := Some(TempPath(e, name))) else e
  }

  function WithTemps(plan: seq<Entry>, names: seq<string>, n: nat): seq<Entry>
    requires |names| == |plan|
  {
    seq(|plan|, i requires 0 <= i < |plan| => if i < n then WithTemp(plan[i], names[i]) else plan[i])
  }

  /** Where entry i's new contents are staged. */
  ghost predicate StagesAt(plan: seq<Entry>, names: seq<string>, i: nat, p: Path)
    requires |names| == |plan|
  {
    i < |plan| && plan[i].action == Write && plan[i].path != [] && p == TempPath(plan[i], names[i])
  }

  ghost predicate TempsReady(d: Disk, plan: seq<Entry>, names: seq<string>) {
    && |names| == |plan|
    && (forall i :: 0 <= i < |plan| && plan[i].action == Write ==>
          && plan[i].path != [] && plan[i].digest.Some? && Parent(plan[i].path) in d.dirs
          && TempPath(plan[i], names[i]) !in d.files && TempPath(plan[i], names[i]) !in d.dirs)
    && (forall i, j :: 0 <= i < j < |names| ==> names[i] != names[j])
  }

  ghost predicate OnlyTempsAdded(before: Disk, d: Disk, plan: seq<Entry>, names: seq<string>)
    requires |names| == |plan|
  {
    forall p :: Lookup(d, p) != Lookup(before, p) ==> p !in before.files && exists i :: StagesAt(plan, names, i, p)
  }

  ghost predicate TempsWritten(before: Disk, d: Disk, plan: seq<Entry>, names: seq<string>, n: nat)
    requires |names| == |plan| && n <= |plan| && TempsReady(before, plan, names)
  {
    && (forall i :: 0 <= i < n && plan[i].action == Write ==>
          Lookup(d, TempPath(plan[i], names[i])) == Some(StagedFile(plan[i])))
    && (forall p :: !StagedBelow(plan, names, n, p) ==> Lookup(d, p) == Lookup(before, p))
  }

  ghost predicate StagedBelow(plan: seq<Entry>, names: seq<string>, n: nat, p: Path)
    requires |names| == |plan|
  {
    exists i :: 0 <= i < n && StagesAt(plan, names, i, p)
  }

  lemma TempAdded(before: Disk, d: Disk, plan: seq<Entry>, names: seq<string>, i: nat)
    requires TempsReady(before, plan, names) && i < |plan| && plan[i].action == Write && d.dirs == before.dirs
    requires OnlyTempsAdded(before, d, plan, names) && TempsWritten(before, d, plan, names, i)
    requires Put(d, TempPath(plan[i], names[i]), StagedFile(plan[i])).Some?
    ensures var after := Put(d, TempPath(plan[i], names[i]), StagedFile(plan[i])).value;
            && after.dirs == before.dirs
            && OnlyTempsAdded(before, after, plan, names) && TempsWritten(before, after, plan, names, i + 1)
  {
    var temp := TempPath(plan[i], names[i]);
    var after := Put(d, temp, StagedFile(plan[i])).value;
    assert StagesAt(plan, names, i, temp);
    forall m | 0 <= m < i && plan[m].action == Write ensures TempPath(plan[m], names[m]) != temp {
      TempsDiffer(plan, names, m, i);
    }
    forall p | !StagedBelow(plan, names, i + 1, p) ensures Lookup(after, p) == Lookup(before, p) {
      assert !StagesAt(plan, names, i, p);
    }
  }

  // ---- a staged disk is a job ----

  /** Staging so far has only added directories and temporaries. */
  ghost predicate OnlyAdded(before: Disk, d: Disk, plan: seq<Entry>, names: seq<string>) {
    before.dirs <= d.dirs && |names| == |plan| && OnlyTempsAdded(before, d, plan, names)
  }

  function CommitBudget(entries: seq<Entry>): nat {
    DirBudget(entries, |entries|) + 9 * |entries| + 11
  }

  lemma JobStarts(job: Job)
    requires job.Valid()
    ensures Reached(job.start, job.start, job.entries, 0)
    ensures Recorded(job.entries, 0) == job.entries
  {
    JobStaged(job);
    StartReached(job.start, job.entries);
  }

  lemma NothingAdded(d: Disk, plan: seq<Entry>, names: seq<string>)
    requires |names| == |plan|
    ensures OnlyAdded(d, d, plan, names)
  {}

  lemma NothingAddedFiles(before: Disk, d: Disk, plan: seq<Entry>, names: seq<string>)
    requires |names| == |plan| && d.files == before.files && before.dirs <= d.dirs
    ensures OnlyAdded(before, d, plan, names)
  {}

  /** What planning promises the staging loops. */
  lemma PlanStages(d: Disk, request: Request, plan: seq<Entry>)
    requires WellFormed(d) && PlanRequest(d, request).Ok? && plan == PlanRequest(d, request).value.entries
    ensures forall i :: 0 <= i < |plan| && plan[i].action == MakeDir ==> EnsureDir(d, plan[i].path).Some?
    ensures forall i :: 0 <= i < |plan| && NeedsBackup(plan[i]) ==> plan[i].path in d.files
    ensures forall i, j :: 0 <= i < j < |plan| && NeedsBackup(plan[i]) && NeedsBackup(plan[j]) ==> plan[i].path != plan[j].path
    ensures forall i :: 0 <= i < |plan| ==> plan[i].path != [] && plan[i].temp.None? && plan[i].backup.None?
    ensures forall i :: 0 <= i < |plan| && plan[i].action == Write ==> plan[i].digest.Some?
  {
    hide PlanRequest, Items;
    var whole := PlanRequest(d, request).value;
    var base := Unpack(d, request);
    forall i | 0 <= i < |plan|
      ensures plan[i].path != [] && plan[i].temp.None? && plan[i].backup.None?
      ensures plan[i].action == MakeDir ==> EnsureDir(d, plan[i].path).Some?
      ensures NeedsBackup(plan[i]) ==> plan[i].path in d.files
      ensures plan[i].action == Write ==> plan[i].digest.Some?
    {
      Origin(d, request, base, whole, i);
      PlannedPathNotRoot(d, request, base, whole, i);
      if plan[i].action == MakeDir {
        NewDirectoryResolves(d, request, base, whole, i);
        assert plan[i].path[..0] == [];
      }
    }
    forall i, j | 0 <= i < j < |plan| ensures plan[i].path != plan[j].path {
      AboutDisjoint(d, request, base, whole, i, j);
      assert plan[i].path in About(plan[i]) && plan[j].path in About(plan[j]);
    }
  }

  /** After the directories are made there is room for every temporary. */
  lemma PlanReady(before: Disk, d: Disk, request: Request, plan: seq<Entry>, names: seq<string>)
    requires WellFormed(before) && PlanRequest(before, request).Ok? && plan == PlanRequest(before, request).value.entries
    requires FreshNames(before, plan, names) && d.files == before.files
    requires forall q :: q in d.dirs <==> q in before.dirs || InNewDirectory(plan, q)
    ensures TempsReady(d, plan, names)
  {
    hide PlanRequest, Items;
    PlanStages(before, request, plan);
    var base := Unpack(before, request);
    forall i | 0 <= i < |plan| && plan[i].action == Write
      ensures Parent(plan[i].path) in d.dirs
      ensures TempPath(plan[i], names[i]) !in d.files && TempPath(plan[i], names[i]) !in d.dirs
    {
      Origin(before, request, base, PlanRequest(before, request).value, i);
      ParentMade(before, d, request, plan, base, plan[i].path);
      TempIsNew(before, d, plan, names, i);
    }
  }

  lemma FreshLength(d: Disk, plan: seq<Entry>, names: seq<string>)
    requires FreshNames(d, plan, names)
    ensures |names| == |plan|
  {}

  lemma TempIsNew(before: Disk, d: Disk, plan: seq<Entry>, names: seq<string>, i: nat)
    requires FreshNames(before, plan, names) && d.files == before.files && i < |plan| && plan[i].path != []
    requires forall q :: q in d.dirs <==> q in before.dirs || InNewDirectory(plan, q)
    ensures TempPath(plan[i], names[i]) !in d.files && TempPath(plan[i], names[i]) !in d.dirs
  {
    var temp := TempPath(plan[i], names[i]);
    assert temp[|temp| - 1] == names[i];
    assert names[i] in temp;
    assert temp in before.files || temp in before.dirs ==> Named(before, plan, temp);
    forall m | 0 <= m < |plan| ensures !(temp <= plan[m].path) {
      assert Named(before, plan, plan[m].path);
    }
  }

  lemma ParentMade(before: Disk, d: Disk, request: Request, plan: seq<Entry>, base: Plan, p: Path)
    requires WellFormed(before) && PlanRequest(before, request).Ok? && plan == PlanRequest(before, request).value.entries
    requires Unpacked(before, request, base, PlanRequest(before, request).value)
    requires forall q :: q in d.dirs <==> q in before.dirs || InNewDirectory(plan, q)
    requires ResolvesForWrite(before, p, Planned(request.directories))
    ensures Parent(p) in d.dirs
  {
    hide PlanRequest;
    var up := Parent(p);
    if up !in before.dirs {
      assert up == p[..|p| - 1] && up != [];
      var i, k :| 0 <= i < |request.directories| && 0 < k <= |request.directories[i]| && up == request.directories[i][..k];
      var j := RequestCreates(before, request, base, PlanRequest(before, request).value, request.directories[i]);
      assert up <= plan[j].path;
    }
  }

  lemma WithBackupsReady(d: Disk, plan: seq<Entry>, id: Id, names: seq<string>)
    requires TempsReady(d, plan, names)
    ensures TempsReady(d, WithBackups(plan, id, |plan|), names)
  {}

  lemma AddedAfterBackups(before: Disk, ready: Disk, d: Disk, plan: seq<Entry>, id: Id, names: seq<string>)
    requires |names| == |plan| && ready.files == before.files && before.dirs <= ready.dirs == d.dirs
    requires OnlyTempsAdded(ready, d, WithBackups(plan, id, |plan|), names)
    ensures OnlyAdded(before, d, plan, names)
  {
    forall p | Lookup(d, p) != Lookup(before, p) ensures p !in before.files && exists i :: StagesAt(plan, names, i, p) {
      assert Lookup(ready, p) == Lookup(before, p);
      var i :| StagesAt(WithBackups(plan, id, |plan|), names, i, p);
      assert StagesAt(plan, names, i, p);
    }
  }

  lemma StageMakesJob(before: Disk, ready: Disk, d: Disk, request: Request, plan: seq<Entry>, id: Id, names: seq<string>)
    requires WellFormed(before) && PlanRequest(before, request).Ok? && plan == PlanRequest(before, request).value.entries
    requires FreshNames(before, plan, names) && ready.files == before.files && d.dirs == ready.dirs
    requires forall q :: q in ready.dirs <==> q in before.dirs || InNewDirectory(plan, q)
    requires TempsReady(ready, WithBackups(plan, id, |plan|), names)
    requires TempsWritten(ready, d, WithBackups(plan, id, |plan|), names, |plan|)
    ensures Prepared(before, request, id, names, WithTemps(WithBackups(plan, id, |plan|), names, |plan|), d)
  {
    hide PlanRequest;
    PlanStages(before, request, plan);
    var backed := WithBackups(plan, id, |plan|);
    var staged := WithTemps(backed, names, |plan|);
    assert staged == StageEntries(plan, id, names);
    forall q ensures InNewDirectory(staged, q) <==> InNewDirectory(plan, q) { SameNewDirectories(plan, id, names, q); }
    forall p | !IsTemp(staged, p) ensures Lookup(d, p) == Lookup(before, p) {
      forall i | 0 <= i < |plan| ensures !StagesAt(backed, names, i, p) {
        assert staged[i].temp != Some(p);
      }
      assert !StagedBelow(backed, names, |plan|, p);
      assert Lookup(ready, p) == Lookup(before, p);
    }
  }

  lemma SameNewDirectories(plan: seq<Entry>, id: Id, names: seq<string>, q: Path)
    requires |names| == |plan|
    ensures InNewDirectory(StageEntries(plan, id, names), q) <==> InNewDirectory(plan, q)
  {
    var staged := StageEntries(plan, id, names);
    if InNewDirectory(plan, q) {
      var i :| 0 <= i < |plan| && plan[i].action == MakeDir && q <= plan[i].path;
      assert staged[i].action == MakeDir && q <= staged[i].path;
    }
    if InNewDirectory(staged, q) {
      var i :| 0 <= i < |staged| && staged[i].action == MakeDir && q <= staged[i].path;
      assert plan[i].action == MakeDir && q <= plan[i].path;
    }
  }

  lemma BackedUpStaged(before: Disk, ready: Disk, plan: seq<Entry>, id: Id, names: seq<string>,
                       backups: map<BackupKey, string>, seal: string -> string)
    requires |names| == |plan| && ready.files == before.files
    requires BackedUp(ready, WithBackups(plan, id, |plan|), backups, seal)
    ensures BackedUp(before, WithTemps(WithBackups(plan, id, |plan|), names, |plan|), backups, seal)
  {
    var backed := WithBackups(plan, id, |plan|);
    var staged := WithTemps(backed, names, |plan|);
    forall i | 0 <= i < |staged| && NeedsBackup(staged[i])
      ensures staged[i].backup == backed[i].backup && staged[i].path == backed[i].path && NeedsBackup(backed[i])
    {}
  }
}
