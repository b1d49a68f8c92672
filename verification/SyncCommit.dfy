/** A pull, applied by the transaction. */
module SyncCommit {
  // What applying a pull comes to on the disk: the request carries the plan's changes and
  // removals with the digests the plan expects, so the transaction's own checks are the
  // plan's, and what it commits is what the plan says becomes of the files.

  import opened Results
  import opened Disks
  import opened Journal
  import opened Planning
  import opened Rollback
  import opened StagingFacts
  import opened Guarantees
  import opened Outcomes
  import S = SyncPlan

  /** No two of the archive's paths are the same place in the workspace. */
  ghost predicate Injective(where: string -> Path) { forall p, q :: where(p) == where(q) ==> p == q }

  /** The files of the disk, by the archive's paths. */
  ghost predicate Shows(d: Disk, where: string -> Path, files: S.Files) {
    forall p :: Lookup(d, where(p)).Some? == (p in files) && (p in files ==> Lookup(d, where(p)).value.contents == files[p])
  }

  function Known(digest: Option<S.Digest>): Option<Digest> {
    match digest case None => None case Some(known) => Some(Digest(known.contents))
  }

  predicate CarriesChange(change: Change, item: S.Item, where: string -> Path) {
    item.Change? && change.path == where(item.path) && change.contents == item.contents && change.precondition == Known(item.expected)
  }

  predicate CarriesRemoval(removal: FileRemoval, item: S.Item, where: string -> Path) {
    item.Removal? && removal.path == where(item.path) && removal.precondition == Some(Digest(item.was.contents))
  }

  /** The request Apply commits: the plan's changes and removals, and directories for the former. */
  predicate CarriesPlan(request: Request, plan: S.Plan, where: string -> Path) {
    && request.moves == [] && request.removeDirectories == []
    && |request.changes| == |plan.changes| && |request.removals| == |plan.removals|
    && (forall i :: 0 <= i < |plan.changes| ==> CarriesChange(request.changes[i], plan.changes[i], where))
    && (forall i :: 0 <= i < |plan.removals| ==> CarriesRemoval(request.removals[i], plan.removals[i], where))
  }

  lemma ChangeItemAt(request: Request, i: nat)
    requires i < |request.changes|
    ensures |request.directories| + i < |Items(request)| && Items(request)[|request.directories| + i] == ChangeItem(request.changes[i])
  {
    hide Items;
    ItemCount(request);
    ItemAt(request, |request.directories| + i);
  }

  lemma RemovalItemAt(request: Request, i: nat)
    requires i < |request.removals|
    ensures var k := |request.directories| + |request.changes| + |request.moves| + i;
            k < |Items(request)| && Items(request)[k] == RemovalItem(request.removals[i])
  {
    hide Items;
    ItemCount(request);
    ItemAt(request, |request.directories| + |request.changes| + |request.moves| + i);
  }

  lemma AdmittedAt(d: Disk, request: Request, k: nat)
    requires PlanRequest(d, request).Ok? && k < |Items(request)|
    ensures Acceptable(d, Planned(request.directories), Items(request)[k])
  {
    hide Items, PlanRequest, Acceptable;
    var base := Unpack(d, request);
    PlannedEntry(d, request, base, PlanRequest(d, request).value, k);
  }

  /** A request is admitted only while every file the plan names is what the plan expects. */
  lemma StaleIsRefused(d: Disk, request: Request, plan: S.Plan, where: string -> Path, now: S.Files)
    requires CarriesPlan(request, plan, where) && Shows(d, where, now) && !S.Admits(now, plan)
    ensures PlanRequest(d, request).Err?
  {
    hide PlanRequest, Items;
    if PlanRequest(d, request).Ok? {
      forall c | c in plan.changes ensures c.expected == if c.path in now then Some(S.Digest(now[c.path])) else None {
        var i :| 0 <= i < |plan.changes| && plan.changes[i] == c;
        assert CarriesChange(request.changes[i], c, where);
        ChangeItemAt(request, i);
        AdmittedAt(d, request, |request.directories| + i);
        assert Lookup(d, where(c.path)).Some? == (c.path in now);
      }
      forall r | r in plan.removals ensures r.path in now && r.was == S.Digest(now[r.path]) {
        var i :| 0 <= i < |plan.removals| && plan.removals[i] == r;
        assert CarriesRemoval(request.removals[i], r, where);
        RemovalItemAt(request, i);
        AdmittedAt(d, request, |request.directories| + |request.changes| + |request.moves| + i);
        assert Lookup(d, where(r.path)).Some? == (r.path in now);
      }
    }
  }

  // ---- what the commit leaves ----

  /** A path of the archive that the plan does not name is named by no file item. */
  lemma UntouchedUnclaimed(request: Request, plan: S.Plan, where: string -> Path, p: string)
    requires Injective(where) && CarriesPlan(request, plan, where) && S.Untouched(plan, p)
    ensures Unclaimed(request, where(p))
  {
    hide Items;
    forall k | 0 <= k < |Items(request)| && !Items(request)[k].CreateItem? ensures where(p) !in Claims(Items(request)[k]) {
      ItemCount(request);
      ItemAt(request, k);
      var a, b := |request.directories|, |request.changes|;
      if k < a + b {
        assert CarriesChange(request.changes[k - a], plan.changes[k - a], where) && plan.changes[k - a] in plan.changes;
      } else {
        assert CarriesRemoval(request.removals[k - a - b], plan.removals[k - a - b], where) && plan.removals[k - a - b] in plan.removals;
      }
    }
  }

  lemma CommittedItem(before: Disk, request: Request, id: Id, names: seq<string>, entries: seq<Entry>, start: Disk, d: Disk, k: nat)
    requires Prepared(before, request, id, names, entries, start) && Applied(d, start, entries, |entries|) && k < |Items(request)|
    ensures Happened(before, d, Items(request)[k])
  {
    hide Prepared, Items, Happened, Applied;
    ItemOfEntry(before, request, id, names, entries, start, k);
    NamedFilesAt(before, request, id, names, entries, start, d, |entries|, k);
  }

  lemma ChangeMade(before: Disk, request: Request, id: Id, names: seq<string>, entries: seq<Entry>, start: Disk, d: Disk,
                   plan: S.Plan, where: string -> Path, after: S.Files, c: S.Item)
    requires Prepared(before, request, id, names, entries, start) && Applied(d, start, entries, |entries|)
    requires CarriesPlan(request, plan, where) && Shows(d, where, after) && c in plan.changes
    ensures c.Change? && c.path in after && after[c.path] == c.contents
  {
    hide Prepared, Items, Applied;
    var i :| 0 <= i < |plan.changes| && plan.changes[i] == c;
    assert CarriesChange(request.changes[i], c, where);
    ChangeItemAt(request, i);
    CommittedItem(before, request, id, names, entries, start, d, |request.directories| + i);
    assert Lookup(d, where(c.path)).Some? == (c.path in after);
  }

  lemma RemovalMade(before: Disk, request: Request, id: Id, names: seq<string>, entries: seq<Entry>, start: Disk, d: Disk,
                    plan: S.Plan, where: string -> Path, after: S.Files, r: S.Item)
    requires Prepared(before, request, id, names, entries, start) && Applied(d, start, entries, |entries|)
    requires CarriesPlan(request, plan, where) && Shows(d, where, after) && r in plan.removals
    ensures r.path !in after
  {
    hide Prepared, Items, Applied;
    var i :| 0 <= i < |plan.removals| && plan.removals[i] == r;
    assert CarriesRemoval(request.removals[i], r, where);
    RemovalItemAt(request, i);
    CommittedItem(before, request, id, names, entries, start, d, |request.directories| + |request.changes| + |request.moves| + i);
    assert Lookup(d, where(r.path)).Some? == (r.path in after);
  }

  /** Committed, a pull has become what its plan says, from files that were what it expected. */
  lemma PullCommits(before: Disk, request: Request, id: Id, names: seq<string>, entries: seq<Entry>, start: Disk, d: Disk,
                    plan: S.Plan, where: string -> Path, now: S.Files, after: S.Files)
    requires Prepared(before, request, id, names, entries, start) && Applied(d, start, entries, |entries|)
    requires Injective(where) && CarriesPlan(request, plan, where) && Shows(before, where, now) && Shows(d, where, after)
    ensures S.Admits(now, plan) && S.Becomes(now, plan, after)
  {
    hide Prepared, Items, Applied, Injective, PlanRequest, CarriesPlan, S.Untouched;
    assert PlanRequest(before, request).Ok? by { PreparedAdmitted(before, request, id, names, entries, start); }
    if !S.Admits(now, plan) { StaleIsRefused(before, request, plan, where, now); }
    hide S.Admits;
    forall c | c in plan.changes ensures c.Change? && c.path in after && after[c.path] == c.contents {
      ChangeMade(before, request, id, names, entries, start, d, plan, where, after, c);
    }
    forall r | r in plan.removals ensures r.path !in after {
      RemovalMade(before, request, id, names, entries, start, d, plan, where, after, r);
    }
    forall p | S.Untouched(plan, p) ensures (p in after <==> p in now) && (p in now ==> after[p] == now[p]) {
      PathKept(before, request, id, names, entries, start, d, plan, where, p);
      assert Lookup(before, where(p)).Some? == (p in now) && Lookup(d, where(p)).Some? == (p in after);
    }
  }

  lemma PathKept(before: Disk, request: Request, id: Id, names: seq<string>, entries: seq<Entry>, start: Disk, d: Disk,
                 plan: S.Plan, where: string -> Path, p: string)
    requires Prepared(before, request, id, names, entries, start) && Applied(d, start, entries, |entries|)
    requires Injective(where) && CarriesPlan(request, plan, where) && S.Untouched(plan, p)
    ensures Lookup(d, where(p)) == Lookup(before, where(p))
  {
    hide Prepared, CarriesPlan, Injective, Unclaimed;
    if IsTemp(entries, where(p)) {
      TempIsNowhere(before, request, id, names, entries, start, d, where(p));
    } else {
      UntouchedUnclaimed(request, plan, where, p);
      OtherFilesAt(before, request, id, names, entries, start, d, where(p));
    }
  }

  /** So no local edit is lost on the disk either, however late it was made: what the commit of a
      pull overwrites or removes is, when the commit looks, what was last synced. */
  lemma NoEditLostOnDisk(before: Disk, request: Request, id: Id, names: seq<string>, entries: seq<Entry>, start: Disk, d: Disk,
                         files: S.Files, base: Option<S.Manifest>, remote: S.Manifest, plan: S.Plan, where: string -> Path,
                         now: S.Files, after: S.Files, p: string)
    requires Prepared(before, request, id, names, entries, start) && Applied(d, start, entries, |entries|)
    requires Injective(where) && CarriesPlan(request, plan, where) && Shows(before, where, now) && Shows(d, where, after)
    requires S.Exact(S.View(S.BaseDigests(base), S.LocalOf(files, base, remote), S.Digests(remote.files)), plan)
    requires p in now && (p !in after || after[p] != now[p])
    ensures p in S.BaseDigests(base) && S.BaseDigests(base)[p] == S.Digest(now[p])
    ensures p in after ==> p in S.Digests(remote.files) && S.Digests(remote.files)[p] == S.Digest(after[p])
  {
    hide *;
    PullCommits(before, request, id, names, entries, start, d, plan, where, now, after);
    assert S.Pulled(files, base, remote, plan, now, after) by { PulledIs(files, base, remote, plan, now, after); }
    S.NoEditLost(files, base, remote, plan, now, after, p);
  }

  lemma PulledIs(files: S.Files, base: Option<S.Manifest>, remote: S.Manifest, plan: S.Plan, now: S.Files, after: S.Files)
    requires S.Exact(S.View(S.BaseDigests(base), S.LocalOf(files, base, remote), S.Digests(remote.files)), plan)
    requires S.Admits(now, plan) && S.Becomes(now, plan, after)
    ensures S.Pulled(files, base, remote, plan, now, after)
  {
    hide S.Exact, S.Admits, S.Becomes;
  }
}
