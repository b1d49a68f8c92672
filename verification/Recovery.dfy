/** Interrupted, completed and rolled back, in any order. */
module Recovery {
  // What a user does after a crash: asks for completion or for a rollback, again and again,
  // each attempt stopped wherever the machine stops.  Whatever the order, the disk stays in
  // a state the journal describes, and when the journal is emptied the files the request
  // names are committed, taken back, or exactly as the theorems on mixed states say.

  import opened Results
  import opened Disks
  import opened Journal
  import opened Planning
  import opened Rollback
  import opened StagingFacts
  import opened Guarantees
  import opened Jobs
  import opened Transactions
  import opened Admission
  import opened Outcomes

  /** One request for recovery, and how many calls it gets before the machine stops. */
  datatype Attempt = Attempt(completes: bool, calls: nat)

  /** The journal no longer holds the transaction: how it ended. */
  ghost predicate Settled(job: Job, d: Disk, status: Status, undone: set<nat>, committed: nat, applied: nat) {
    && job.Valid()
    && (status == Completed || status == RolledBack)
    && (status == Completed ==>
          && committed == |job.entries| && Halfway(job, d, undone, committed, committed)
          && (CommittedDisk(d, job.start, job.entries) <==> forall i :: i in undone ==> !EffectMissing(d, job.start, job.entries[i])))
    && (status == RolledBack ==>
          Counts(job.entries, UpTo(committed), committed, applied) && Restored(d, job.start, job.entries, committed, applied))
  }

  lemma CompletedSettles(job: Job, d: Disk, undone: set<nat>, applied: nat)
    requires Halfway(job, d, undone, |job.entries|, |job.entries|)
    ensures Settled(job, d, Completed, undone, |job.entries|, applied)
  {
    hide Job.Valid, Unwinding, CommittedDisk, EffectMissing, StagedOn;
    JobStaged(job);
    CompletedIff(d, job.start, job.entries, undone, |job.entries|, |job.entries|);
  }

  lemma RolledBackSettles(job: Job, d: Disk, undone: set<nat>, committed: nat, applied: nat)
    requires job.Valid() && Counts(job.entries, UpTo(committed), committed, applied)
    requires Restored(d, job.start, job.entries, committed, applied)
    ensures Settled(job, d, RolledBack, undone, committed, applied)
  {}

  method Recover(manager: Manager, id: Id, attempts: seq<Attempt>, ghost job: Job, ghost undone0: set<nat>, ghost applied0: nat)
      returns (ghost undone: set<nat>, ghost committed: nat, ghost applied: nat)
    requires id in manager.journal && manager.journal[id].entries == Recorded(job.entries, manager.journal[id].committed)
    requires Rewinding(job, manager.disk, manager.backups, manager.seal, manager.unseal, undone0, manager.journal[id].committed, applied0)
    modifies manager`disk, manager`journal, manager`history, manager`calls
    ensures undone0 <= undone && committed >= old(manager.journal)[id].committed
    ensures (forall k :: 0 <= k < |attempts| ==> attempts[k].completes) ==> undone == undone0
    ensures id in manager.journal ==>
              && manager.journal[id].status == old(manager.journal)[id].status && committed == manager.journal[id].committed
              && manager.journal[id].entries == Recorded(job.entries, committed)
              && Rewinding(job, manager.disk, manager.backups, manager.seal, manager.unseal, undone, committed, applied)
    ensures id !in manager.journal ==>
              id in manager.history && Settled(job, manager.disk, manager.history[id].status, undone, committed, applied)
  {
    hide Halfway, BackedUp, CanComplete, Restored, Settled, CanRewind, CanRollback, CommittedDisk, EffectMissing, Reached, Separate;
    undone, committed, applied := undone0, manager.journal[id].committed, applied0;
    for index := 0 to |attempts|
      invariant id in manager.journal && manager.journal[id].committed == committed >= old(manager.journal)[id].committed
      invariant manager.journal[id].status == old(manager.journal)[id].status
      invariant manager.journal[id].entries == Recorded(job.entries, committed)
      invariant Rewinding(job, manager.disk, manager.backups, manager.seal, manager.unseal, undone, committed, applied)
      invariant undone0 <= undone
      invariant (forall k :: 0 <= k < index ==> attempts[k].completes) ==> undone == undone0
    {
      manager.calls := attempts[index].calls;
      RewindingCounts(job, manager.disk, manager.backups, manager.seal, manager.unseal, undone, committed, applied);
      ghost var before := applied;
      var ending;
      if attempts[index].completes {
        ending, applied := manager.Complete(id, job, undone, applied);
        if ending == Finished || id !in manager.journal {
          committed := |job.entries|;
          CompletedSettles(job, manager.disk, undone, applied);
          return;
        }
        if ending == Refused { applied := before; }
        committed := manager.journal[id].committed;
      } else {
        ghost var now;
        ending, now := manager.Rollback(id, job, undone, applied);
        if ending == Finished || id !in manager.journal {
          RestoredCounts(job, undone, committed, applied);
          RolledBackSettles(job, manager.disk, undone, committed, applied);
          return;
        }
        if ending == Stopped { undone := now; }
      }
    }
  }

  lemma RestoredCounts(job: Job, undone: set<nat>, committed: nat, applied: nat)
    requires Counts(job.entries, undone, committed, applied)
    ensures Counts(job.entries, UpTo(committed), committed, applied)
  {}

  // ---- from the request to the files it names ----

  /** Files the request does not name, temporaries aside, are as they were. */
  ghost predicate OthersKept(before: Disk, request: Request, entries: seq<Entry>, d: Disk) {
    forall p :: p !in NamedPaths(request) && !IsTemp(entries, p) ==> LeftAlone(before, d, p)
  }

  lemma SettledFiles(job: Job, d: Disk, status: Status, undone: set<nat>, committed: nat, applied: nat)
    requires Settled(job, d, status, undone, committed, applied)
    ensures OthersKept(job.before, job.request, job.entries, d)
    ensures status == Completed && (forall i :: i in undone && i < |job.entries| ==> !EffectMissing(d, job.start, job.entries[i])) ==>
              AsAsked(job.before, job.request, d)
    ensures status == RolledBack ==> AsBefore(job.before, job.request, d, committed, applied)
  {
    hide Prepared, EffectMissing, AsAsked, AsBefore, OthersKept;
    assert Elsewhere(d, job.start, job.entries);
    ElsewhereKept(job, d);
    if status == Completed && CommittedDisk(d, job.start, job.entries) { CommittedAsAsked(job, d); }
    if status == RolledBack { RestoredAsBefore(job, d, committed, applied); }
  }

  lemma ElsewhereKept(job: Job, d: Disk)
    requires job.Valid() && Elsewhere(d, job.start, job.entries)
    ensures OthersKept(job.before, job.request, job.entries, d)
  {
    hide Prepared, NamedPaths, Elsewhere, Unclaimed;
    forall p | p !in NamedPaths(job.request) && !IsTemp(job.entries, p) ensures LeftAlone(job.before, d, p) {
      UnnamedUnclaimed(job.request, p);
      OtherFilesAt(job.before, job.request, job.id, job.names, job.entries, job.start, d, p);
    }
  }

  /** A request, a crash anywhere after it was staged, and any recovery: while the journal holds
      it nothing but its own files has changed, and it can still be completed or rolled back as
      those contracts say; once settled, its files are as the history says. */
  method CommitAndRecover(manager: Manager, request: Request, id: Id, names: seq<string>, accepted: bool, attempts: seq<Attempt>)
      returns (result: Commitment, ghost job: Job, ghost undone: set<nat>, ghost committed: nat, ghost applied: nat)
    requires WellFormed(manager.disk) && id !in manager.journal && id !in manager.history
    requires PlanRequest(manager.disk, request).Ok? ==> FreshNames(manager.disk, PlanRequest(manager.disk, request).value.entries, names)
    requires forall text :: manager.unseal(manager.seal(text)) == text
    modifies manager`disk, manager`journal, manager`history, manager`backups, manager`calls
    ensures result.Rejected? <==> PlanRequest(old(manager.disk), request).Err? || !accepted
    ensures result.Rejected? ==> manager.disk == old(manager.disk)
    ensures result.Interrupted? && id in manager.journal && manager.journal[id].status == Staging ==>
              OnlyAdded(old(manager.disk), manager.disk, PlanRequest(old(manager.disk), request).value.entries, names)
    ensures result.Committed? ==> AsAsked(old(manager.disk), request, manager.disk)
    ensures result.Interrupted? && id in manager.journal && manager.journal[id].status != Staging ==>
              && job.before == old(manager.disk) && job.request == request
              && Rewinding(job, manager.disk, manager.backups, manager.seal, manager.unseal, undone, committed, applied)
              && OthersKept(old(manager.disk), request, job.entries, manager.disk)
    ensures result.Interrupted? && id !in manager.journal && manager.disk != old(manager.disk) ==>
              && id in manager.history && OthersKept(old(manager.disk), request, job.entries, manager.disk)
              && (manager.history[id].status == Completed
                  && (forall i :: i in undone && i < |job.entries| ==> !EffectMissing(manager.disk, job.start, job.entries[i])) ==>
                    AsAsked(old(manager.disk), request, manager.disk))
              && (manager.history[id].status == RolledBack ==> AsBefore(old(manager.disk), request, manager.disk, committed, applied))
    ensures (forall k :: 0 <= k < |attempts| ==> attempts[k].completes) ==> undone == {}
  {
    hide PlanRequest, FreshNames, Job.Valid, Reached, Rewinding, InFlight, BackedUp, OnlyAdded, Settled, Separate,
         AsAsked, AsBefore, OthersKept, EffectMissing;
    undone, committed := {}, 0;
    result, job, applied := manager.Commit(request, id, names, accepted);
    if result.Interrupted? && id in manager.journal && manager.journal[id].status != Staging {
      InterruptedRewinds(job, manager.journal[id], manager.disk, manager.backups, manager.seal, manager.unseal, applied);
      undone, committed, applied := Recover(manager, id, attempts, job, {}, applied);
      if id in manager.journal {
        RewindingOthers(job, manager.disk, manager.backups, manager.seal, manager.unseal, undone, committed, applied);
      } else {
        SettledFiles(job, manager.disk, manager.history[id].status, undone, committed, applied);
      }
    } else if result.Committed? || (result.Interrupted? && id !in manager.journal && manager.disk != old(manager.disk)) {
      ReachedSettles(job, manager.disk);
      SettledFiles(job, manager.disk, Completed, {}, |job.entries|, |job.entries|);
    }
  }

  lemma ReachedSettles(job: Job, d: Disk)
    requires job.Valid() && Reached(d, job.start, job.entries, |job.entries|)
    ensures Settled(job, d, Completed, {}, |job.entries|, |job.entries|)
  {
    hide Job.Valid;
    ReachedUnwinds(d, job.start, job.entries, |job.entries|, |job.entries|);
    CompletedSettles(job, d, {}, |job.entries|);
  }

  lemma RewindingOthers(job: Job, d: Disk, backups: map<BackupKey, string>, seal: string -> string, unseal: string -> string,
                        undone: set<nat>, committed: nat, applied: nat)
    requires Rewinding(job, d, backups, seal, unseal, undone, committed, applied)
    ensures OthersKept(job.before, job.request, job.entries, d)
  {
    hide Prepared;
    ElsewhereKept(job, d);
  }
}
