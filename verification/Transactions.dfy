/**
 The transaction manager: commit, complete and roll back over a disk and a journal.

 A crash is modelled by `calls`, the number of changing filesystem calls left before
 the machine stops: the first call past it fails, and so does every later one.  What
 a method promises when it returns an error is therefore what holds after a crash
 between any two of its calls.
 */
module Transactions {
  import opened Results
  import opened Disks
  import opened Journal
  import opened Planning
  import opened Rollback
  import opened StagingFacts
  import opened Guarantees
  import opened Jobs

  class Manager {
    const seal: string -> string
    const unseal: string -> string
    var disk: Disk
    var journal: map<Id, Record>
    var history: map<Id, Record>
    var backups: map<BackupKey, string>
    /** Changing filesystem calls left before the machine stops. */
    var calls: nat

    constructor (seal: string -> string, unseal: string -> string, disk: Disk, calls: nat)
      ensures this.seal == seal && this.unseal == unseal && this.disk == disk && this.calls == calls
      ensures journal == map[] && history == map[] && backups == map[]
    {
      this.seal, this.unseal, this.disk, this.calls := seal, unseal, disk, calls;
      journal, history, backups := map[], map[], map[];
    }

    ghost predicate InHistory(id: Id, job: Job)
      reads this
    {
      id in history && history[id].status == Completed && history[id].committed == |job.entries|
    }

    // ---- filesystem calls ----

    method Spend() returns (ok: bool)
      modifies `calls
      ensures ok == (old(calls) > 0) && calls == if ok then old(calls) - 1 else 0
    {
      ok := calls > 0;
      if ok { calls := calls - 1; }
    }

    method CallRename(from: Path, to: Path) returns (ok: bool)
      modifies `disk, `calls
      ensures ok ==> Rename(old(disk), from, to) == Some(disk)
      ensures !ok ==> disk == old(disk)
      ensures calls >= old(calls) - 1
      ensures old(calls) > 0 && Rename(old(disk), from, to).Some? ==> ok
    {
      ok := Spend();
      if ok {
        var after := Rename(disk, from, to);
        if after.None? { return false; }
        disk := after.value;
      }
    }

    method CallRemove(p: Path) returns (outcome: Removing)
      modifies `disk, `calls
      ensures outcome == Gone ==> Remove(old(disk), p) == Removed(disk)
      ensures outcome == WasAbsent ==> Remove(old(disk), p) == Absent
      ensures outcome != Gone ==> disk == old(disk)
      ensures calls >= old(calls) - 1
      ensures old(calls) > 0 ==> (outcome == Failed <==> Remove(old(disk), p) == NotEmpty)
    {
      var ok := Spend();
      if !ok { return Failed; }
      match Remove(disk, p) {
        case Removed(after) => disk := after; return Gone;
        case Absent => return WasAbsent;
        case NotEmpty => return Failed;
      }
    }

    method CallSyncDir(p: Path) returns (ok: bool)
      modifies `calls
      ensures ok ==> p in disk.dirs
      ensures calls >= old(calls) - 1
      ensures old(calls) > 0 && p in disk.dirs ==> ok
    {
      ok := Spend();
      ok := ok && p in disk.dirs;
    }

    /** Writing a file aside, renaming it into place and syncing its directory, taken
        as one durable step. */
    method CallPut(p: Path, file: File) returns (ok: bool)
      modifies `disk, `calls
      ensures ok ==> Put(old(disk), p, file) == Some(disk)
      ensures !ok ==> disk == old(disk) || Put(old(disk), p, file) == Some(disk)
      ensures calls >= old(calls) - 2
      ensures old(calls) > 1 && Put(old(disk), p, file).Some? ==> ok
    {
      ok := Spend();
      if !ok { return; }
      var after := Put(disk, p, file);
      if after.None? { return false; }
      disk := after.value;
      ok := Spend();
    }

    /** Makes a directory and its missing parents, one call for each that is missing. */
    method EnsureDirectory(p: Path) returns (ok: bool)
      requires WellFormed(disk)
      modifies `disk, `calls
      ensures WellFormed(disk) && disk.files == old(disk).files
      ensures old(disk).dirs <= disk.dirs <= old(disk).dirs + Prefixes(p)
      ensures ok ==> EnsureDir(old(disk), p) == Some(disk)
      ensures !ok ==> disk.dirs <= old(disk).dirs + (Prefixes(p) - {p})
      ensures Prefixes(p) <= old(disk).dirs ==> ok && disk == old(disk) && calls == old(calls)
      ensures calls >= old(calls) - |p|
      ensures EnsureDir(old(disk), p).Some? && old(calls) >= |p| ==> ok
    {
      PrefixesPresent(disk, []);
      var k := 0;
      while k < |p|
        invariant 0 <= k <= |p| && WellFormed(disk) && disk.files == old(disk).files
        invariant forall m :: 0 <= m <= k ==> p[..m] !in disk.files
        invariant disk.dirs == old(disk).dirs + Prefixes(p[..k])
        invariant Prefixes(p[..k]) <= Prefixes(p)
        invariant Prefixes(p) <= old(disk).dirs ==> calls == old(calls)
        invariant calls >= old(calls) - k
      {
        var current := p[..k + 1];
        PrefixStep(p, k);
        if current in disk.files { return false; }
        if current !in disk.dirs {
          assert current in Prefixes(p);
          var can := Spend();
          if !can { return false; }
          var next := disk.(dirs := disk.dirs + {current});
          assert Parent(current) == p[..k] && p[..k] in disk.dirs;
          disk := next;
        }
        k := k + 1;
      }
      assert p[..k] == p;
      return true;
    }

    /** A journal document: written aside, renamed into place, its directory synced. */
    method WriteJournal(id: Id, record: Record) returns (ok: bool)
      modifies `journal, `calls
      ensures ok ==> journal == old(journal)[id := record]
      ensures journal == old(journal) || journal == old(journal)[id := record]
      ensures calls >= old(calls) - 3
      ensures old(calls) >= 3 ==> ok
    {
      ok := Spend();
      if !ok { return; }
      ok := Spend();
      if !ok { return; }
      journal := journal[id := record];
      ok := Spend();
    }

    // ---- staging ----

    method StageDirectories(entries: seq<Entry>) returns (ok: bool)
      requires WellFormed(disk)
      modifies `disk, `calls
      ensures WellFormed(disk) && disk.files == old(disk).files && old(disk).dirs <= disk.dirs
      ensures ok ==> forall q :: q in disk.dirs <==> q in old(disk).dirs || InNewDirectory(entries, q)
      ensures calls >= old(calls) - DirBudget(entries, |entries|)
      ensures (forall i :: 0 <= i < |entries| && entries[i].action == MakeDir ==> EnsureDir(old(disk), entries[i].path).Some?) ==>
                (old(calls) >= DirBudget(entries, |entries|) ==> ok)
    {
      var index := 0;
      while index < |entries|
        invariant 0 <= index <= |entries|
        invariant WellFormed(disk) && disk.files == old(disk).files && old(disk).dirs <= disk.dirs
        invariant forall q :: q in disk.dirs <==> q in old(disk).dirs || InNewDirectory(entries[..index], q)
        invariant calls >= old(calls) - DirBudget(entries, index)
      {
        var e := entries[index];
        NewDirectoriesStep(entries, index);
        DirBudgetGrows(entries, index + 1, |entries|);
        if e.action == MakeDir {
          ghost var here := disk;
          assert EnsureDir(old(disk), e.path).Some? ==> EnsureDir(here, e.path).Some?;
          ok := EnsureDirectory(e.path);
          if !ok { return; }
          forall q ensures q in Prefixes(e.path) <==> q <= e.path { PrefixesOf(e.path, q); }
        }
        index := index + 1;
      }
      assert entries[..index] == entries;
      ok := true;
    }

    /** Seals a copy of every file that is to be replaced or removed and wants one. */
    method StageBackups(id: Id, plan: seq<Entry>) returns (ok: bool, entries: seq<Entry>)
      requires forall i :: 0 <= i < |plan| && NeedsBackup(plan[i]) ==> plan[i].path in disk.files
      requires forall i, j :: 0 <= i < j < |plan| && NeedsBackup(plan[i]) && NeedsBackup(plan[j]) ==> plan[i].path != plan[j].path
      modifies `backups, `calls
      ensures ok ==> entries == WithBackups(plan, id, |plan|) && BackedUp(disk, entries, backups, seal)
      ensures forall key :: key in old(backups) && key.id != id ==> key in backups && backups[key] == old(backups)[key]
      ensures calls >= old(calls) - 2 * |plan|
      ensures old(calls) >= 2 * |plan| ==> ok
    {
      entries := plan;
      var index := 0;
      while index < |plan|
        invariant 0 <= index <= |plan| && entries == WithBackups(plan, id, index)
        invariant forall i :: 0 <= i < index && NeedsBackup(plan[i]) ==>
                    BackupKey(id, plan[i].path) in backups
                    && backups[BackupKey(id, plan[i].path)] == seal(disk.files[plan[i].path].contents)
        invariant forall key :: key in old(backups) && key.id != id ==> key in backups && backups[key] == old(backups)[key]
        invariant calls >= old(calls) - 2 * index
      {
        if NeedsBackup(entries[index]) {
          ok := Spend();
          if !ok { return; }
          var key := BackupKey(id, plan[index].path);
          backups := backups[key := seal(disk.files[plan[index].path].contents)];
          ok := Spend();
          if !ok { return; }
          entries := entries[index := entries[index].(backup := Some(key))];
        }
        index := index + 1;
      }
      ok := true;
    }

    /** Writes every new file beside its place. */
    method StageTemps(plan: seq<Entry>, names: seq<string>) returns (ok: bool, entries: seq<Entry>)
      requires TempsReady(disk, plan, names)
      modifies `disk, `calls
      ensures disk.dirs == old(disk).dirs
      ensures OnlyTempsAdded(old(disk), disk, plan, names)
      ensures ok ==> entries == WithTemps(plan, names, |plan|) && TempsWritten(old(disk), disk, plan, names, |plan|)
      ensures calls >= old(calls) - |plan|
      ensures old(calls) >= |plan| ==> ok
    {
      entries := plan;
      var index := 0;
      while index < |plan|
        invariant 0 <= index <= |plan| && entries == WithTemps(plan, names, index)
        invariant disk.dirs == old(disk).dirs && OnlyTempsAdded(old(disk), disk, plan, names)
        invariant TempsWritten(old(disk), disk, plan, names, index)
        invariant calls >= old(calls) - index
      {
        if entries[index].action == Write {
          var e := entries[index];
          ok := Spend();
          if !ok { return; }
          var temp := TempPath(e, names[index]);
          var after := Put(disk, temp, StagedFile(e));
          TempAdded(old(disk), disk, plan, names, index);
          disk := after.value;
          entries := entries[index := e.(temp := Some(temp))];
        }
        index := index + 1;
      }
      ok := true;
    }

    /** Directories, then sealed copies, then temporaries. */
    method Stage(request: Request, id: Id, names: seq<string>, plan: seq<Entry>)
        returns (ok: bool, staged: seq<Entry>, ghost job: Job)
      requires WellFormed(disk) && PlanRequest(disk, request).Ok? && plan == PlanRequest(disk, request).value.entries
      requires |names| == |plan| && FreshNames(disk, plan, names)
      modifies `disk, `backups, `calls
      ensures OnlyAdded(old(disk), disk, plan, names)
      ensures ok ==> job == Job(old(disk), request, id, names, staged, disk) && job.Valid() && |staged| == |plan|
                     && BackedUp(job.before, job.entries, backups, seal)
      ensures calls >= old(calls) - DirBudget(plan, |plan|) - 3 * |plan|
      ensures old(calls) >= DirBudget(plan, |plan|) + 3 * |plan| ==> ok
    {
      hide PlanRequest, WellFormed, FreshNames, TempsReady, OnlyTempsAdded, TempsWritten, BackedUp, InNewDirectory, NeedsBackup, Prepared;
      ghost var before := disk;
      job := Job(disk, request, id, names, [], disk);
      PlanStages(disk, request, plan);
      ok := StageDirectories(plan);
      NothingAddedFiles(before, disk, plan, names);
      if !ok { return false, [], job; }
      PlanReady(before, disk, request, plan, names);
      var entries;
      ok, entries := StageBackups(id, plan);
      if !ok { return false, [], job; }
      WithBackupsReady(disk, plan, id, names);
      ghost var ready := disk;
      ok, staged := StageTemps(entries, names);
      AddedAfterBackups(before, ready, disk, plan, id, names);
      if !ok { return; }
      job := Job(before, request, id, names, staged, disk);
      StageMakesJob(before, ready, disk, request, plan, id, names);
      BackedUpStaged(before, ready, plan, id, names, backups, seal);
    }

    // ---- committing ----

    /** The effect of one entry and the syncs that follow it. */
    method ApplyEntry(e: Entry) returns (ok: bool, ghost happened: bool)
      requires WellFormed(disk) && e.path != [] && (e.action == Move ==> e.target != [])
      requires e.action == MakeDir ==> Prefixes(e.path) <= disk.dirs
      modifies `disk, `calls
      ensures happened ==> Effect(old(disk), e) == Some(disk)
      ensures !happened ==> disk == old(disk)
      ensures ok ==> happened
      ensures calls >= old(calls) - 3
      ensures old(calls) >= 3 && Effect(old(disk), e).Some? && (e.action == RemoveDir ==> Parent(e.path) in old(disk).dirs) ==> ok
    {
      happened := false;
      match e.action {
        case Move =>
          ok := CallRename(e.path, e.target);
          if !ok { return; }
          happened := true;
          ok := CallSyncDir(Parent(e.path));
          if !ok { return; }
          ok := CallSyncDir(Parent(e.target));
        case RemoveFile =>
          var outcome := CallRemove(e.path);
          if outcome != Gone { return false, false; }
          happened := true;
          ok := CallSyncDir(Parent(e.path));
        case MakeDir =>
          ok := EnsureDirectory(e.path);
          if !ok { return; }
          happened := true;
          ok := CallSyncDir(Parent(e.path));
        case RemoveDir =>
          var outcome := CallRemove(e.path);
          if outcome == Failed { return false, false; }
          happened := true;
          ok := CallSyncDir(Parent(e.path));
        case Write =>
          if e.temp.None? { return false, false; }
          ok := CallRename(e.temp.value, e.path);
          if !ok { return; }
          happened := true;
          ok := CallSyncDir(Parent(e.path));
      }
    }

    /** One turn of the commit loop before its journal write. */
    method CommitEntry(ghost job: Job, e: Entry, ghost index: nat, ghost undone: set<nat>, ghost applied: nat) returns (ok: bool, ghost happened: bool)
      requires Halfway(job, disk, undone, index, applied) && index < |job.entries| && e == job.entries[index]
      modifies `disk, `calls
      ensures happened ==>
                && Effect(old(disk), e) == Some(disk)
                && Halfway(job, disk, undone, index, index + 1) && Halfway(job, disk, undone, index + 1, index + 1)
                && (Reached(old(disk), job.start, job.entries, applied) ==> Reached(disk, job.start, job.entries, index + 1))
      ensures !happened ==> disk == old(disk)
      ensures ok ==> happened
      ensures applied > index && !OnDirectory(e) ==> !happened
      ensures calls >= old(calls) - 3
      ensures old(calls) >= 3 && Effect(old(disk), e).Some? ==> ok
    {
      hide Halfway, Reached, Effect;
      TurnMeets(job, disk, undone, index, applied);
      ok, happened := ApplyEntry(e);
      if happened { TurnTaken(job, old(disk), undone, index, applied); }
    }

    /** Applies what the journal has not recorded, recording each entry after it has
        happened: `reached` entries in all, one more than recorded when the machine stops
        in between. */
    method CommitStaged(id: Id, record0: Record, ghost job: Job, ghost undone: set<nat>, ghost applied0: nat)
        returns (ok: bool, record: Record, ghost applied: nat, ghost reached: nat)
      requires id in journal && journal[id] == record0 && record0.entries == Recorded(job.entries, record0.committed)
      requires Halfway(job, disk, undone, record0.committed, applied0)
      modifies `disk, `journal, `calls
      ensures id in journal && journal == old(journal)[id := journal[id]]
      ensures record0.committed <= journal[id].committed <= reached <= journal[id].committed + 1
      ensures reached <= |job.entries| && journal[id] == Advance(record0, job, journal[id].committed)
      ensures RunFrom(old(disk), job.entries, record0.committed, reached) == Some(disk)
      ensures applied == if reached > record0.committed then reached else applied0
      ensures Halfway(job, disk, undone, journal[id].committed, applied)
      ensures InFlight(job, record0, old(disk), applied0) ==> InFlight(job, journal[id], disk, applied)
      ensures ok ==> record == journal[id] && record.committed == reached == |job.entries|
      ensures FileInDoubt(job, record0, applied0) ==> !ok && disk == old(disk) && journal == old(journal) && applied == applied0
      ensures calls >= old(calls) - 6 * (|job.entries| - record0.committed)
      ensures RunFrom(old(disk), job.entries, record0.committed, |job.entries|).Some? ==>
                (old(calls) >= 6 * (|job.entries| - record0.committed) ==> ok)
    {
      hide Job.Valid, Reached, Unwinding, Effect;
      record := record0;
      applied := applied0;
      var index := record0.committed;
      while index < |record.entries|
        invariant record0.committed <= index <= |job.entries| == |record.entries|
        invariant record == Advance(record0, job, index) && journal == old(journal)[id := record]
        invariant RunFrom(old(disk), job.entries, record0.committed, index) == Some(disk)
        invariant applied == if index > record0.committed then index else applied0
        invariant Halfway(job, disk, undone, index, applied)
        invariant Reached(old(disk), job.start, job.entries, applied0) ==> Reached(disk, job.start, job.entries, applied)
        invariant FileInDoubt(job, record0, applied0) ==> index == record0.committed
        invariant index == record0.committed ==> journal == old(journal) && disk == old(disk)
        invariant calls >= old(calls) - 6 * (index - record0.committed)
      {
        var e := record.entries[index];
        if RunFrom(old(disk), job.entries, record0.committed, |job.entries|).Some? {
          RunFromShorter(old(disk), job.entries, record0.committed, index + 1, |job.entries|);
        }
        reached := index;
        ghost var happened;
        ok, happened := CommitEntry(job, e, index, undone, applied);
        if happened { applied, reached := index + 1, index + 1; }
        if !ok { return; }
        record := record.(committed := index + 1, entries := record.entries[index := e.(temp := None)]);
        ok := WriteJournal(id, record);
        if !ok { return; }
        index := index + 1;
      }
      reached := index;
      ok := true;
    }

    /** Files the record in the history and takes it out of the journal. */
    method Finish(id: Id, record: Record, status: Status) returns (ok: bool)
      modifies `journal, `history, `calls
      ensures ok ==> journal == old(journal) - {id}
      ensures journal == old(journal) || journal == old(journal) - {id}
      ensures journal != old(journal) || ok ==> history == old(history)[id := record.(status := status)]
      ensures history == old(history) || history == old(history)[id := record.(status := status)]
      ensures old(calls) >= 5 ==> ok
    {
      ok := Spend();
      if !ok { return; }
      ok := Spend();
      if !ok { return; }
      history := history[id := record.(status := status)];
      ok := Spend();
      if !ok { return; }
      ok := Spend();
      if !ok { return; }
      journal := journal - {id};
      ok := Spend();
    }

    /** Completes what was interrupted, whatever earlier rollbacks and completions got to.  The
        ghosts describe that state; they are needed only when the staged contents are intact. */
    method Complete(id: Id, ghost job: Job, ghost undone: set<nat>, ghost applied0: nat) returns (ending: Ending, ghost applied: nat)
      requires id in journal && CanComplete(disk, journal[id]) ==>
                 && Halfway(job, disk, undone, journal[id].committed, applied0)
                 && journal[id].entries == Recorded(job.entries, journal[id].committed)
      modifies `disk, `journal, `history, `calls
      ensures ending == Unknown <==> id !in old(journal)
      ensures ending == Refused <==> id in old(journal) && !CanComplete(old(disk), old(journal)[id])
      ensures ending.Unknown? || ending.Refused? ==>
                disk == old(disk) && journal == old(journal) && history == old(history)
      ensures ending.Stopped? && id in journal ==>
                && Halfway(job, disk, undone, journal[id].committed, applied)
                && journal[id] == Advance(old(journal)[id], job, journal[id].committed)
                && journal[id].committed >= old(journal)[id].committed
                && (InFlight(job, old(journal)[id], old(disk), applied0) ==> InFlight(job, journal[id], disk, applied))
      ensures ending.Finished? || (ending.Stopped? && id !in journal) ==>
                && journal == old(journal) - {id} && InHistory(id, job)
                && Halfway(job, disk, undone, |job.entries|, |job.entries|)
                && RunFrom(old(disk), job.entries, old(journal)[id].committed, |job.entries|) == Some(disk)
                && (CommittedDisk(disk, job.start, job.entries)
                    <==> forall i :: i in undone ==> !EffectMissing(old(disk), job.start, job.entries[i]))
                && (InFlight(job, old(journal)[id], old(disk), applied0) ==> Reached(disk, job.start, job.entries, |job.entries|))
      ensures id in old(journal) && CanComplete(old(disk), old(journal)[id]) ==>
                && (FileInDoubt(job, old(journal)[id], applied0) ==>
                      ending == Stopped && disk == old(disk) && journal == old(journal) && applied == applied0)
                && (old(calls) >= 6 * |job.entries| + 5 ==>
                      (ending == Finished <==> RunFrom(old(disk), job.entries, old(journal)[id].committed, |job.entries|).Some?))
                && (InFlight(job, old(journal)[id], old(disk), applied0) && Separate(job.before, job.request) ==>
                      !FileInDoubt(job, old(journal)[id], applied0) && old(calls) >= 6 * |job.entries| + 5 ==> ending == Finished)
    {
      hide Job.Valid, Reached, Separate, StagedMatches, Unwinding, Effect, RunFrom, CommittedDisk, EffectMissing;
      applied := applied0;
      if id !in journal { return Unknown, applied; }
      var record := journal[id];
      var index := record.committed;
      while index < |record.entries|
        invariant record.committed <= index
        invariant forall i :: record.committed <= i < |record.entries| && i < index && record.entries[i].action == Write ==>
                    StagedMatches(disk, record.entries[i])
      {
        if record.entries[index].action == Write {
          if !StagedMatches(disk, record.entries[index]) { return Refused, applied; }
        }
        index := index + 1;
      }
      if InFlight(job, record, disk, applied0) && Separate(job.before, job.request) && !FileInDoubt(job, record, applied0) {
        SeparateCompletes(job, disk, record.committed, applied0, |job.entries|);
      }
      var ok;
      ghost var reached;
      ok, record, applied, reached := CommitStaged(id, record, job, undone, applied0);
      if !ok { return Stopped, applied; }
      JobStaged(job);
      CompletedIff(old(disk), job.start, job.entries, undone, old(journal)[id].committed, applied0);
      HalfwayAtEnd(job, old(disk), disk, undone, old(journal)[id].committed, applied0);
      ok := Finish(id, record, Completed);
      ending := if ok then Finished else Stopped;
    }

    /** Plans, journals, stages, applies and files a request.  `accepted` is the answer
        of the injected validator; `id` and `names` come from the clock and the
        random source. */
    method Commit(request: Request, id: Id, names: seq<string>, accepted: bool)
        returns (result: Commitment, ghost job: Job, ghost applied: nat)
      requires WellFormed(disk) && id !in journal
      requires PlanRequest(disk, request).Ok? ==> FreshNames(disk, PlanRequest(disk, request).value.entries, names)
      modifies `disk, `journal, `history, `backups, `calls
      ensures result.Rejected? <==> PlanRequest(old(disk), request).Err? || !accepted
      ensures PlanRequest(old(disk), request).Err? ==> result == Rejected(PlanRequest(old(disk), request).error)
      ensures result.Rejected? ==>
                disk == old(disk) && journal == old(journal) && history == old(history) && backups == old(backups)
      ensures result.Interrupted? && id !in journal ==> disk == old(disk) || InHistory(id, job)
      ensures result.Interrupted? && id in journal && journal[id].status == Staging ==>
                journal[id].committed == 0 && OnlyAdded(old(disk), disk, PlanRequest(old(disk), request).value.entries, names)
      ensures result.Interrupted? && id in journal && journal[id].status != Staging ==>
                && job.Valid() && job.before == old(disk) && job.request == request && job.id == id
                && InFlight(job, journal[id], disk, applied) && BackedUp(job.before, job.entries, backups, seal)
      ensures result.Committed? || (result.Interrupted? && id !in journal && disk != old(disk)) ==>
                && job.Valid() && job.before == old(disk) && job.request == request
                && Reached(disk, job.start, job.entries, |job.entries|)
                && journal == old(journal) && InHistory(id, job)
      ensures result.Interrupted? && id in journal ==> journal[id].status == Staging || journal[id].status == Staged
      ensures !result.Rejected? && Separate(old(disk), request) ==>
                (old(calls) >= CommitBudget(PlanRequest(old(disk), request).value.entries) ==> result == Committed)
    {
      hide PlanRequest, Job.Valid, WellFormed, FreshNames, Reached, Separate, BackedUp, InFlight, OnlyAdded;
      job, applied := Job(disk, request, id, names, [], disk), 0;
      var plan := PlanRequestLoop(disk, request);
      if plan.Err? { return Rejected(plan.error), job, applied; }
      if !accepted { return Rejected(Invalid), job, applied; }
      var entries := plan.value.entries;
      FreshLength(disk, entries, names);
      NothingAdded(disk, entries, names);
      var ok := WriteJournal(id, Record(id, Staging, 0, entries));
      if !ok { return Interrupted, job, applied; }
      ghost var before := disk;
      var staged;
      ok, staged, job := Stage(request, id, names, entries);
      if !ok { return Interrupted, job, applied; }
      result, applied := CommitJob(id, staged, job);
    }

    /** Everything after staging: the staged record, the entries, the history. */
    method CommitJob(id: Id, staged: seq<Entry>, ghost job: Job) returns (result: Commitment, ghost applied: nat)
      requires id in journal && journal[id].status == Staging && journal[id].committed == 0
      requires job.Valid() && staged == job.entries && disk == job.start
      modifies `disk, `journal, `history, `calls
      ensures result.Interrupted? || result.Committed?
      ensures result.Interrupted? && id in journal && journal[id].status == Staging ==>
                disk == old(disk) && journal[id].committed == 0
      ensures result.Interrupted? && id in journal && journal[id].status != Staging ==> InFlight(job, journal[id], disk, applied)
      ensures result.Interrupted? && id in journal ==> journal[id].status == Staging || journal[id].status == Staged
      ensures result.Committed? || id !in journal ==>
                Reached(disk, job.start, job.entries, |job.entries|) && journal == old(journal) - {id} && InHistory(id, job)
      ensures Separate(job.before, job.request) ==> (old(calls) >= 6 * |job.entries| + 8 ==> result == Committed)
    {
      hide Job.Valid, Reached, Separate, Unwinding, RunFrom;
      var record := Record(id, Staged, 0, staged);
      JobStaged(job);
      JobStarts(job);
      InFlightHalfway(job, record, disk, 0);
      if Separate(job.before, job.request) { SeparateCompletes(job, disk, 0, 0, |job.entries|); }
      applied := 0;
      var ok := WriteJournal(id, record);
      if !ok { return Interrupted, applied; }
      ghost var reached;
      ok, record, applied, reached := CommitStaged(id, record, job, {}, 0);
      if !ok { return Interrupted, applied; }
      ok := Finish(id, record, Completed);
      result := if ok then Committed else Interrupted;
    }

    /** The user asks for completion again and again, the machine stopping each time
        after the given number of calls. */
    method CompleteRepeatedly(id: Id, attempts: seq<nat>, ghost job: Job, ghost applied0: nat)
        returns (done: bool, ghost applied: nat)
      requires id in journal && job.Valid() && InFlight(job, journal[id], disk, applied0)
      modifies `disk, `journal, `history, `calls
      ensures done ==> applied == |job.entries| && Reached(disk, job.start, job.entries, applied) && id !in journal
      ensures !done ==> id in journal && InFlight(job, journal[id], disk, applied)
                        && journal[id].committed >= old(journal)[id].committed
      ensures FileInDoubt(job, old(journal)[id], applied0) ==> !done && disk == old(disk) && journal == old(journal)
      ensures !done && attempts != [] && attempts[|attempts| - 1] >= 6 * |job.entries| + 5 && Separate(job.before, job.request) ==>
                FileInDoubt(job, journal[id], applied)
    {
      hide Job.Valid, Reached, Separate, CanComplete, Unwinding, RunFrom, CommittedDisk, EffectMissing;
      applied := applied0;
      done := false;
      for index := 0 to |attempts|
        invariant id in journal && InFlight(job, journal[id], disk, applied)
        invariant journal[id].committed >= old(journal)[id].committed
        invariant FileInDoubt(job, old(journal)[id], applied0) ==> disk == old(disk) && journal == old(journal) && applied == applied0
        invariant index > 0 && attempts[index - 1] >= 6 * |job.entries| + 5 && Separate(job.before, job.request) ==>
                    FileInDoubt(job, journal[id], applied)
      {
        calls := attempts[index];
        IntactUnlessInDoubt(job, journal[id], disk, applied);
        InFlightHalfway(job, journal[id], disk, applied);
        ghost var before := applied;
        var ending;
        ending, applied := Complete(id, job, {}, applied);
        if ending == Finished || id !in journal { return true, |job.entries|; }
        if ending == Refused { applied := before; }
      }
    }

    // ---- rolling back ----

    /** Undoes one entry.  When the call chain stops early the disk is as before, or as
        after, or only some missing directories have been made. */
    method UndoEntry(e: Entry) returns (ok: bool, ghost happened: bool)
      requires WellFormed(disk) && e.path != [] && (e.action == Move ==> e.target != [])
      modifies `disk, `calls
      ensures happened ==> Undo(old(disk), e, Saved(e, backups, unseal)) == Some(disk)
      ensures !happened ==> WellFormed(disk) && disk.files == old(disk).files && old(disk).dirs <= disk.dirs
                            && disk.dirs <= old(disk).dirs + (if e.action == RemoveDir then Prefixes(e.path) - {e.path} else {})
      ensures ok ==> happened && (!OnDirectory(e) ==> Parent(e.path) in old(disk).dirs)
      ensures calls >= old(calls) - |e.path| - 3
      ensures old(calls) >= |e.path| + 3 && Undo(old(disk), e, Saved(e, backups, unseal)).Some? ==>
                (OnDirectory(e) || Parent(e.path) in old(disk).dirs ==> ok)
    {
      happened := false;
      match e.action {
        case Move =>
          ok := CallRename(e.target, e.path);
          if !ok { return; }
          happened := true;
          ok := CallSyncDir(Parent(e.target));
          if !ok { return; }
          ok := CallSyncDir(Parent(e.path));
        case MakeDir =>
          if e.hadPrevious { return true, true; }
          if e.path in disk.files { return false, false; }
          if e.path !in disk.dirs || HasChild(disk, e.path) { return true, true; }
          var outcome := CallRemove(e.path);
          if outcome == Failed { return false, false; }
          happened := true;
          ok := CallSyncDir(Parent(e.path));
        case RemoveDir =>
          ok := EnsureDirectory(e.path);
          if !ok { return; }
          happened := true;
          ok := CallSyncDir(Parent(e.path));
        case _ =>
          if e.hadPrevious {
            if e.backup.None? || e.backup.value !in backups { return false, false; }
            var contents := unseal(backups[e.backup.value]);
            ok := CallPut(e.path, File(contents, e.mode));
            happened := Put(old(disk), e.path, File(contents, e.mode)) == Some(disk);
            return;
          }
          var outcome := CallRemove(e.path);
          if outcome == Failed { return false, false; }
          happened := true;
          ok := CallSyncDir(Parent(e.path));
      }
    }

    /** One turn of the rollback loop, at an entry that still stands or that an earlier
        attempt already undid. */
    method UnwindEntry(ghost job: Job, e: Entry, ghost i: nat, ghost undone0: set<nat>, ghost committed: nat, ghost applied: nat)
        returns (ok: bool, ghost undone: set<nat>)
      requires Rewinding(job, disk, backups, seal, unseal, undone0, committed, applied)
      requires i < committed && forall m :: i < m < committed ==> m in undone0
      requires e == job.entries[i].(temp := None) && !Irreversible(e) && e.path != []
      modifies `disk, `calls
      ensures Rewinding(job, disk, backups, seal, unseal, undone, committed, applied)
      ensures undone == undone0 || undone == undone0 + {i}
      ensures ok ==> i in undone && CanUnwind(job, old(disk), i, undone0)
      ensures disk.dirs <= old(disk).dirs + (if e.action == RemoveDir then Prefixes(e.path) else {})
      ensures e.action != MakeDir ==> old(disk).dirs <= disk.dirs
      ensures ok && e.action == RemoveDir ==> Prefixes(e.path) <= disk.dirs
      ensures calls >= old(calls) - |e.path| - 3
      ensures old(calls) >= |e.path| + 3 && CanUnwind(job, old(disk), i, undone0) ==> ok
    {
      hide Halfway, Undo, Saved, BackedUp;
      RewindingCounts(job, disk, backups, seal, unseal, undone0, committed, applied);
      RewindMeets(job, disk, backups, seal, unseal, i, undone0, committed, applied);
      SameSaved(job.entries[i], backups, unseal);
      ghost var happened;
      ok, happened := UndoEntry(e);
      undone := if happened then undone0 + {i} else undone0;
      if happened {
        RewindStep(job, old(disk), backups, seal, unseal, i, undone0, committed, applied);
      } else {
        RewindPartial(job, old(disk), disk, backups, seal, unseal, i, undone0, committed, applied);
      }
    }

    /** The rollback loop, last committed entry first. */
    method Unwind(record: Record, ghost job: Job, ghost undone0: set<nat>, ghost applied: nat) returns (ok: bool, ghost undone: set<nat>)
      requires Rewinding(job, disk, backups, seal, unseal, undone0, record.committed, applied)
      requires record.entries == Recorded(job.entries, record.committed) && CanRollback(record)
      modifies `disk, `calls
      ensures Rewinding(job, disk, backups, seal, unseal, undone, record.committed, applied)
      ensures undone0 <= undone && (ok ==> undone == UpTo(record.committed))
      ensures ok ==> CanRewind(job, old(disk), undone0, record.committed)
      ensures disk.dirs <= old(disk).dirs + Remade(job.entries, 0, record.committed)
      ensures calls >= old(calls) - UndoBudget(job.entries, record.committed)
      ensures old(calls) >= UndoBudget(job.entries, record.committed) && CanRewind(job, old(disk), undone0, record.committed) ==> ok
    {
      hide Rewinding, Job.Valid, Irreversible, Remade, CanUnwind, CanRewindAt;
      undone := undone0;
      var index := record.committed;
      RewindingCounts(job, disk, backups, seal, unseal, undone0, record.committed, applied);
      RemadeNothing(job.entries, index);
      while index > 0
        invariant 0 <= index <= record.committed <= |job.entries|
        invariant undone == undone0 + (UpTo(record.committed) - UpTo(index))
        invariant Rewinding(job, disk, backups, seal, unseal, undone, record.committed, applied)
        invariant forall i :: index <= i < record.committed ==> CanRewindAt(job, old(disk), undone0, record.committed, i)
        invariant disk.dirs <= old(disk).dirs + Remade(job.entries, index, record.committed)
        invariant (forall i :: index <= i < record.committed ==> job.entries[i].action != MakeDir) ==>
                    old(disk).dirs + Remade(job.entries, index, record.committed) <= disk.dirs
        invariant calls >= old(calls) - UndoBudget(job.entries, record.committed) + UndoBudget(job.entries, index)
      {
        index := index - 1;
        var e := record.entries[index];
        JobPaths(job, index);
        RemadeStep(job.entries, index, record.committed);
        RemadeGrows(job.entries, index, record.committed);
        UnwindAsRewind(job, old(disk), disk, undone0, undone, record.committed, index);
        ok, undone := UnwindEntry(job, e, index, undone, record.committed, applied);
        if !ok { return; }
      }
      ok := true;
    }

    /** Throws away what was staged and never committed. */
    method DiscardStaged(record: Record, ghost job: Job, ghost applied: nat) returns (ok: bool)
      requires Rewinding(job, disk, backups, seal, unseal, UpTo(record.committed), record.committed, applied)
      requires record.entries == Recorded(job.entries, record.committed)
      modifies `disk, `calls
      ensures Rewinding(job, disk, backups, seal, unseal, UpTo(record.committed), record.committed, applied)
      ensures disk.dirs == old(disk).dirs
      ensures ok ==> Restored(disk, job.start, job.entries, record.committed, applied)
      ensures calls >= old(calls) - |job.entries|
      ensures old(calls) >= |job.entries| ==> ok
    {
      hide Job.Valid, Unwinding, BackedUp, Restored;
      var index := 0;
      while index < |record.entries|
        invariant 0 <= index <= |record.entries|
        invariant Rewinding(job, disk, backups, seal, unseal, UpTo(record.committed), record.committed, applied)
        invariant disk.dirs == old(disk).dirs
        invariant forall i :: record.committed <= i < index && job.entries[i].temp.Some? ==> job.entries[i].temp.value !in disk.files
        invariant calls >= old(calls) - index
      {
        var e := record.entries[index];
        if e.temp.Some? {
          TempMeets(job, disk, backups, seal, unseal, UpTo(record.committed), record.committed, applied, index);
          var outcome := CallRemove(e.temp.value);
          if outcome == Failed { return false; }
        }
        index := index + 1;
      }
      UnwoundIsRestored(job, disk, record.committed, applied);
      ok := true;
    }

    /** Rolls back what was interrupted, whatever earlier rollbacks and completions got to.  With
        calls enough it finishes exactly when no entry refuses and CanRewind holds, and an
        attempt that stops without that leaves the next one no better off. */
    method Rollback(id: Id, ghost job: Job, ghost undone0: set<nat>, ghost applied: nat) returns (ending: Ending, ghost undone: set<nat>)
      requires id in journal ==>
                 && Rewinding(job, disk, backups, seal, unseal, undone0, journal[id].committed, applied)
                 && journal[id].entries == Recorded(job.entries, journal[id].committed)
      modifies `disk, `journal, `history, `calls
      ensures ending == Unknown <==> id !in old(journal)
      ensures ending == Refused <==> id in old(journal) && !CanRollback(old(journal)[id])
      ensures ending.Unknown? || ending.Refused? ==>
                disk == old(disk) && journal == old(journal) && history == old(history)
      ensures ending.Stopped? && id in journal ==>
                && undone0 <= undone && journal == old(journal)
                && Rewinding(job, disk, backups, seal, unseal, undone, journal[id].committed, applied)
                && (CanRewind(job, disk, undone, journal[id].committed) ==> CanRewind(job, old(disk), undone0, journal[id].committed))
      ensures ending.Finished? || (ending.Stopped? && id !in journal) ==>
                && Restored(disk, job.start, job.entries, old(journal)[id].committed, applied)
                && journal == old(journal) - {id} && id in history && history[id].status == RolledBack
      ensures ending.Finished? ==> CanRewind(job, old(disk), undone0, old(journal)[id].committed)
      ensures id in old(journal) && old(calls) >= UndoBudget(job.entries, old(journal)[id].committed) + |job.entries| + 5 ==>
                (ending == Finished <==>
                   CanRollback(old(journal)[id]) && CanRewind(job, old(disk), undone0, old(journal)[id].committed))
    {
      hide Halfway, BackedUp, Restored, CanRewind, Irreversible;
      undone := undone0;
      if id !in journal { return Unknown, undone; }
      var record := journal[id];
      RewindingCounts(job, disk, backups, seal, unseal, undone0, record.committed, applied);
      var index := 0;
      while index < record.committed && index < |record.entries|
        invariant forall i :: 0 <= i < index && i < |record.entries| ==> !Irreversible(record.entries[i])
        invariant 0 <= index <= record.committed
      {
        if Irreversible(record.entries[index]) { return Refused, undone; }
        index := index + 1;
      }
      var ok;
      ok, undone := Unwind(record, job, undone0, applied);
      ghost var unwound := disk;
      RewindNoEasier(job, old(disk), disk, undone0, undone, record.committed);
      if !ok { return Stopped, undone; }
      ok := DiscardStaged(record, job, applied);
      RewindNoEasier(job, old(disk), disk, undone0, undone, record.committed);
      if !ok { return Stopped, undone; }
      ok := Finish(id, record.(committed := 0), RolledBack);
      ending := if ok then Finished else Stopped;
    }
  }
}
