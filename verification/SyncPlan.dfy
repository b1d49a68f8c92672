/** The three-way plan of a pull. */
module SyncPlan {
  // The three-way plan of a pull: what a snapshot, the last synced manifest and the files
  // on this disk make of every path.  A digest is modelled by the contents it stands for,
  // so equal digests mean equal contents.

  import opened Results
  import opened Names

  datatype Digest = Digest(contents: string)

  datatype FileEntry = FileEntry(path: string, digest: Digest)
  datatype Manifest = Manifest(origin: string, files: seq<FileEntry>)

  /** `expected` is the digest the file must still have; none when it must not exist. */
  datatype Item = Change(path: string, contents: string, expected: Option<Digest>)
                | Removal(path: string, was: Digest)
                | Conflict(path: string, base: Option<Digest>, local: Digest, remote: Option<Digest>)

  datatype Plan = Plan(changes: seq<Item>, removals: seq<Item>, conflicts: seq<Item>)

  type Files = map<string, string>

  predicate Distinct(files: seq<FileEntry>) {
    forall i, j :: 0 <= i < j < |files| ==> files[i].path != files[j].path
  }

  function Digests(files: seq<FileEntry>): map<string, Digest> {
    if files == [] then map[] else Digests(files[..|files| - 1])[files[|files| - 1].path := files[|files| - 1].digest]
  }

  function BaseDigests(base: Option<Manifest>): map<string, Digest> {
    if base == None then map[] else Digests(base.value.files)
  }

  lemma {:induction false} DigestsAt(files: seq<FileEntry>, i: nat)
    requires Distinct(files) && i < |files|
    ensures files[i].path in Digests(files) && Digests(files)[files[i].path] == files[i].digest
  {
    if i < |files| - 1 {
      DigestsAt(files[..|files| - 1], i);
    }
  }

  lemma {:induction false} DigestsFrom(files: seq<FileEntry>, path: string)
    ensures path in Digests(files) <==> exists i :: 0 <= i < |files| && files[i].path == path
  {
    if files != [] {
      var n := |files| - 1;
      DigestsFrom(files[..n], path);
      if path in Digests(files[..n]) {
        var i :| 0 <= i < n && files[..n][i].path == path;
        assert files[i].path == path;
      }
      if exists i :: 0 <= i < |files| && files[i].path == path {
        var i :| 0 <= i < |files| && files[i].path == path;
        assert i < n ==> files[..n][i].path == path;
      }
    }
  }

  // ---- what becomes of a path ----

  datatype Fate = Unchanged | Changed | Removed | Conflicting

  function FateOf(base: map<string, Digest>, local: map<string, Digest>, remote: map<string, Digest>, path: string): Fate {
    if path in remote then
      if path !in local then Changed
      else if local[path] == remote[path] then Unchanged
      else if path in base && local[path] == base[path] then Changed
      else Conflicting
    else if path in base && path in local then
      if local[path] == base[path] then Removed else Conflicting
    else Unchanged
  }

  function At(digests: map<string, Digest>, path: string): Option<Digest> {
    if path in digests then Some(digests[path]) else None
  }

  // ---- sorting by path ----

  predicate PathSorted(items: seq<Item>) {
    forall i, j :: 0 <= i < j < |items| ==> LexLess(items[i].path, items[j].path)
  }

  predicate PathsDiffer(items: seq<Item>) {
    forall i, j :: 0 <= i < j < |items| ==> items[i].path != items[j].path
  }

  function InsertByPath(item: Item, items: seq<Item>): (r: seq<Item>)
    ensures forall x :: x in r <==> x == item || x in items
  {
    if items != [] && LexLess(items[0].path, item.path) then
      assert forall x :: x in items <==> x == items[0] || x in items[1..];
      [items[0]] + InsertByPath(item, items[1..])
    else [item] + items
  }

  function SortByPath(items: seq<Item>): (r: seq<Item>)
    ensures forall x :: x in r <==> x in items
  {
    if items == [] then [] else
      assert forall x :: x in items <==> x == items[0] || x in items[1..];
      InsertByPath(items[0], SortByPath(items[1..]))
  }

  lemma {:induction false} InsertKeeps(item: Item, items: seq<Item>)
    requires PathSorted(items) && forall x :: x in items ==> x.path != item.path
    ensures PathSorted(InsertByPath(item, items))
  {
    if items != [] {
      assert items[0] in items;
      if LexLess(items[0].path, item.path) {
        InsertKeeps(item, items[1..]);
        var r := InsertByPath(item, items[1..]);
        forall j | 0 <= j < |r| ensures LexLess(items[0].path, r[j].path) {
          assert r[j] in r;
          if r[j] != item { assert r[j] in items[1..]; }
        }
      } else {
        LexTotal(items[0].path, item.path);
        forall j | 0 < j < |items| ensures LexLess(item.path, items[j].path) {
          LexTransitive(item.path, items[0].path, items[j].path);
        }
      }
    }
  }

  lemma {:induction false} SortSorts(items: seq<Item>)
    requires PathsDiffer(items)
    ensures PathSorted(SortByPath(items))
  {
    if items != [] {
      SortSorts(items[1..]);
      forall x | x in items[1..] ensures x.path != items[0].path {
        var i :| 0 <= i < |items| - 1 && items[1..][i] == x;
      }
      InsertKeeps(items[0], SortByPath(items[1..]));
    }
  }

  // ---- planning ----

  /** The fetched files are those of the manifest. */
  predicate Delivered(remote: Manifest, contents: map<string, string>) {
    && Distinct(remote.files)
    && forall i :: 0 <= i < |remote.files| ==> remote.files[i].path in contents && Digest(contents[remote.files[i].path]) == remote.files[i].digest
  }

  datatype View = View(base: map<string, Digest>, local: map<string, Digest>, remote: map<string, Digest>)
  {
    function Fate(path: string): Fate { FateOf(base, local, remote, path) }

    /** What the plan must say about one path. */
    predicate Says(item: Item) {
      match item
      case Change(path, contents, expected) =>
        Fate(path) == Changed && path in remote && Digest(contents) == remote[path] && expected == At(local, path)
      case Removal(path, was) =>
        Fate(path) == Removed && path in local && was == local[path]
      case Conflict(path, b, l, r) =>
        Fate(path) == Conflicting && path in local && l == local[path] && b == At(base, path) && r == At(remote, path)
    }
  }

  /** Every path has exactly its fate: the three lists are sorted by path, sound and complete. */
  ghost predicate Exact(view: View, plan: Plan) {
    && PathSorted(plan.changes) && PathSorted(plan.removals) && PathSorted(plan.conflicts)
    && (forall c :: c in plan.changes <==> c.Change? && view.Says(c))
    && (forall c :: c in plan.removals <==> c.Removal? && view.Says(c))
    && (forall c :: c in plan.conflicts <==> c.Conflict? && view.Says(c))
  }

  ghost predicate ListsRemote(view: View, remote: Manifest, k: nat, items: seq<Item>, conflicts: bool)
    requires k <= |remote.files|
  {
    && PathsDiffer(items)
    && (forall c :: c in items <==> (if conflicts then c.Conflict? else c.Change?) && view.Says(c) && exists i :: 0 <= i < k && remote.files[i].path == c.path)
  }

  method PlanRemote(base: map<string, Digest>, local: map<string, Digest>, remote: Manifest, contents: map<string, string>)
      returns (changes: seq<Item>, conflicts: seq<Item>)
    requires Delivered(remote, contents)
    ensures var view := View(base, local, Digests(remote.files));
            ListsRemote(view, remote, |remote.files|, changes, false) && ListsRemote(view, remote, |remote.files|, conflicts, true)
  {
    hide FateOf, Digests;
    ghost var view := View(base, local, Digests(remote.files));
    changes, conflicts := [], [];
    for k := 0 to |remote.files|
      invariant ListsRemote(view, remote, k, changes, false) && ListsRemote(view, remote, k, conflicts, true)
    {
      var item := remote.files[k];
      DigestsAt(remote.files, k);
      FateOfRemote(view, item.path);
      var present := item.path in local;
      if present && local[item.path] == item.digest {
      } else if present && item.path in base && local[item.path] != base[item.path] {
        conflicts := conflicts + [Conflict(item.path, Some(base[item.path]), local[item.path], Some(item.digest))];
      } else if present && item.path !in base {
        conflicts := conflicts + [Conflict(item.path, None, local[item.path], Some(item.digest))];
      } else {
        var expected := if present then Some(local[item.path]) else None;
        changes := changes + [Change(item.path, contents[item.path], expected)];
      }
    }
  }

  lemma FateOfRemote(view: View, path: string)
    requires path in view.remote
    ensures view.Fate(path) ==
      if path !in view.local then Changed
      else if view.local[path] == view.remote[path] then Unchanged
      else if path in view.base && view.local[path] == view.base[path] then Changed
      else Conflicting
  {}

  ghost predicate ListsLocal(view: View, pending: set<string>, items: seq<Item>, conflicts: bool) {
    && PathsDiffer(items)
    && (forall c :: c in items <==> (if conflicts then c.Conflict? else c.Removal?) && view.Says(c) && c.path !in pending && c.path !in view.remote)
  }

  method PlanLocal(base: map<string, Digest>, local: map<string, Digest>, remote: map<string, Digest>)
      returns (removals: seq<Item>, conflicts: seq<Item>)
    ensures ListsLocal(View(base, local, remote), {}, removals, false) && ListsLocal(View(base, local, remote), {}, conflicts, true)
  {
    hide FateOf;
    ghost var view := View(base, local, remote);
    removals, conflicts := [], [];
    var pending := local.Keys;
    while pending != {}
      invariant pending <= local.Keys
      invariant ListsLocal(view, pending, removals, false) && ListsLocal(view, pending, conflicts, true)
      decreases |pending|
    {
      var path :| path in pending;
      FateOfLocal(view, path);
      if path in remote || path !in base {
      } else if local[path] != base[path] {
        conflicts := conflicts + [Conflict(path, Some(base[path]), local[path], None)];
      } else {
        removals := removals + [Removal(path, local[path])];
      }
      pending := pending - {path};
    }
  }

  lemma FateOfLocal(view: View, path: string)
    requires path in view.local
    ensures path in view.remote || view.Fate(path) ==
      if path !in view.base then Unchanged else if view.local[path] == view.base[path] then Removed else Conflicting
  {}

  /** The plan of a pull; `nothing` reports that the disk already matches. */
  method MakePlan(base: Option<Manifest>, local: map<string, Digest>, remote: Manifest, contents: map<string, string>)
      returns (plan: Plan, nothing: bool)
    requires Delivered(remote, contents) && (base.Some? ==> Distinct(base.value.files))
    ensures Exact(View(BaseDigests(base), local, Digests(remote.files)), plan)
    ensures nothing <==> plan == Plan([], [], [])
  {
    hide FateOf, Digests, BaseDigests;
    var baseDigests := BaseDigests(base);
    var remoteDigests := Digests(remote.files);
    var changes, conflicts := PlanRemote(baseDigests, local, remote, contents);
    var removals, deleted := PlanLocal(baseDigests, local, remoteDigests);
    ghost var view := View(baseDigests, local, remoteDigests);
    Merge(view, remote, changes, conflicts, removals, deleted);
    SortSorts(changes);
    SortSorts(removals);
    SortSorts(conflicts + deleted);
    plan := Plan(SortByPath(changes), SortByPath(removals), SortByPath(conflicts + deleted));
    nothing := |plan.conflicts| == 0 && |plan.changes| == 0 && |plan.removals| == 0;
  }

  lemma Merge(view: View, remote: Manifest, changes: seq<Item>, conflicts: seq<Item>, removals: seq<Item>, deleted: seq<Item>)
    requires view.remote == Digests(remote.files)
    requires ListsRemote(view, remote, |remote.files|, changes, false) && ListsRemote(view, remote, |remote.files|, conflicts, true)
    requires ListsLocal(view, {}, removals, false) && ListsLocal(view, {}, deleted, true)
    ensures PathsDiffer(conflicts + deleted)
    ensures forall c :: c in changes <==> c.Change? && view.Says(c)
    ensures forall c :: c in removals <==> c.Removal? && view.Says(c)
    ensures forall c :: c in conflicts + deleted <==> c.Conflict? && view.Says(c)
  {
    forall c: Item ensures c.path in view.remote <==> exists i :: 0 <= i < |remote.files| && remote.files[i].path == c.path {
      DigestsFrom(remote.files, c.path);
    }
    forall i, j | 0 <= i < |conflicts| && 0 <= j < |deleted| ensures conflicts[i].path != deleted[j].path {
      assert conflicts[i] in conflicts && deleted[j] in deleted;
    }
  }

  // ---- the local side ----

  /** The digests of the files that either manifest knows. */
  function LocalOf(files: Files, base: Option<Manifest>, remote: Manifest): map<string, Digest> {
    map p | p in files && (p in BaseDigests(base) || p in Digests(remote.files)) :: Digest(files[p])
  }

  method AddPaths(files: seq<FileEntry>, known: set<string>) returns (paths: set<string>)
    ensures paths == known + Digests(files).Keys
  {
    paths := known;
    for k := 0 to |files|
      invariant paths == known + Digests(files[..k]).Keys
    {
      assert files[..k + 1][..k] == files[..k];
      paths := paths + {files[k].path};
    }
    assert files[..|files|] == files;
  }

  method LocalDigests(files: Files, remote: Manifest, base: Option<Manifest>) returns (digests: map<string, Digest>)
    ensures digests == LocalOf(files, base, remote)
  {
    hide Digests;
    var paths := AddPaths(remote.files, {});
    if base.Some? { paths := AddPaths(base.value.files, paths); }
    digests := map[];
    var pending := paths;
    while pending != {}
      invariant pending <= paths
      invariant forall p :: p in digests <==> p in files && p in paths && p !in pending
      invariant forall p :: p in digests ==> digests[p] == Digest(files[p])
      decreases |pending|
    {
      var path :| path in pending;
      pending := pending - {path};
      if path in files { digests := digests[path := Digest(files[path])]; }
    }
    assert forall p :: p in paths <==> p in BaseDigests(base) || p in Digests(remote.files);
  }

  // ---- applying ----

  /** Every file is as the plan expects it: what the commit checks before it touches anything. */
  predicate Admits(files: Files, plan: Plan) {
    && (forall c :: c in plan.changes && c.Change? ==> c.expected == if c.path in files then Some(Digest(files[c.path])) else None)
    && (forall r :: r in plan.removals && r.Removal? ==> r.path in files && r.was == Digest(files[r.path]))
  }

  /** The files once the plan's changes and removals are committed. */
  ghost predicate Becomes(files: Files, plan: Plan, after: Files) {
    && (forall c :: c in plan.changes && c.Change? ==> c.path in after && after[c.path] == c.contents)
    && (forall r :: r in plan.removals ==> r.path !in after)
    && (forall p :: Untouched(plan, p) ==> (p in after <==> p in files) && (p in files ==> after[p] == files[p]))
  }

  ghost predicate Untouched(plan: Plan, p: string) {
    (forall c :: c in plan.changes ==> c.path != p) && (forall r :: r in plan.removals ==> r.path != p)
  }

  /** A pull as it happens: the plan made from these files, and applied to the files as they are
      by then, which it does not touch unless they are what it expects. */
  ghost predicate Pulled(files: Files, base: Option<Manifest>, remote: Manifest, plan: Plan, now: Files, after: Files) {
    && Exact(View(BaseDigests(base), LocalOf(files, base, remote), Digests(remote.files)), plan)
    && Admits(now, plan) && Becomes(now, plan, after)
  }

  /** The files the plan leaves alone are as they were when it was made. */
  ghost predicate StillAsPlanned(files: Files, plan: Plan, now: Files) {
    forall p :: Untouched(plan, p) ==> (p in now <==> p in files) && (p in files ==> now[p] == files[p])
  }

  /** The lists are the fates: a path is in the one list its fate names, and in no other. */
  lemma FateListed(view: View, plan: Plan, p: string)
    requires Exact(view, plan)
    ensures (exists c :: c in plan.changes && c.path == p) <==> view.Fate(p) == Changed
    ensures (exists r :: r in plan.removals && r.path == p) <==> view.Fate(p) == Removed
    ensures (exists c :: c in plan.conflicts && c.path == p) <==> view.Fate(p) == Conflicting
  {
    if view.Fate(p) == Changed {
      var c := Change(p, view.remote[p].contents, At(view.local, p));
      assert view.Says(c) && c in plan.changes && c.path == p;
    }
    if view.Fate(p) == Removed {
      var r := Removal(p, view.local[p]);
      assert view.Says(r) && r in plan.removals && r.path == p;
    }
    if view.Fate(p) == Conflicting {
      var c := Conflict(p, At(view.base, p), view.local[p], At(view.remote, p));
      assert view.Says(c) && c in plan.conflicts && c.path == p;
    }
  }

  /** Which list a path is in, by its digest here, in the snapshot and when last synced: fetched when it is
      missing here, or differs from the snapshot and was not touched since; removed when the snapshot dropped
      it and it was not touched since; in conflict when it differs and was touched, or was never synced. */
  lemma PlanTells(files: Files, base: Option<Manifest>, remote: Manifest, plan: Plan, p: string)
    requires Exact(View(BaseDigests(base), LocalOf(files, base, remote), Digests(remote.files)), plan)
    ensures var synced, there := BaseDigests(base), Digests(remote.files);
            var untouched := p in files && p in synced && Digest(files[p]) == synced[p];
            && ((exists c :: c in plan.changes && c.path == p) <==>
                  p in there && (p !in files || (Digest(files[p]) != there[p] && untouched)))
            && ((exists r :: r in plan.removals && r.path == p) <==> p !in there && untouched)
            && ((exists c :: c in plan.conflicts && c.path == p) <==>
                  && p in files && !untouched
                  && if p in there then Digest(files[p]) != there[p] else p in synced)
  {
    hide Digests, BaseDigests, Exact;
    FateListed(View(BaseDigests(base), LocalOf(files, base, remote), Digests(remote.files)), plan, p);
  }

  /** A conflict is meant to be a file changed on both sides since the last sync.  One that is reported
      is, exactly when the snapshot does not have the file as it was last synced; a file edited here
      alone is reported too. */
  lemma ConflictIsMutualIff(files: Files, base: Option<Manifest>, remote: Manifest, plan: Plan, p: string)
    requires Exact(View(BaseDigests(base), LocalOf(files, base, remote), Digests(remote.files)), plan)
    requires exists c :: c in plan.conflicts && c.path == p
    ensures var synced, there := BaseDigests(base), Digests(remote.files);
            var here := LocalOf(files, base, remote);
            At(here, p) != At(synced, p) && At(there, p) != At(synced, p) <==> !(p in there && p in synced && there[p] == synced[p])
  {
    hide Digests, BaseDigests, Exact;
    PlanTells(files, base, remote, plan, p);
  }

  const OneFile: Manifest := Manifest("other", [FileEntry("config", Digest("a"))])

  /** Synced, then edited here and nowhere else: a conflict.  Removed here: fetched again. */
  lemma LocalEditConflicts(plan: Plan, files: Files)
    requires Exact(View(BaseDigests(Some(OneFile)), LocalOf(files, Some(OneFile), OneFile), Digests(OneFile.files)), plan)
    ensures files == map["config" := "b"] ==> exists c :: c in plan.conflicts && c.path == "config"
    ensures files == map[] ==> exists c :: c in plan.changes && c.path == "config"
  {
    hide Exact;
    DigestsAt(OneFile.files, 0);
    PlanTells(files, Some(OneFile), OneFile, plan, "config");
  }

  /** The commit's checks pass exactly when every file the plan names is as it was when it was made. */
  lemma PlanAdmitted(files: Files, base: Option<Manifest>, remote: Manifest, plan: Plan, now: Files)
    requires Exact(View(BaseDigests(base), LocalOf(files, base, remote), Digests(remote.files)), plan)
    ensures Admits(now, plan) <==>
              forall p :: !Untouched(plan, p) ==> (p in now <==> p in files) && (p in files ==> now[p] == files[p])
  {
    hide Digests, BaseDigests, FateOf;
    var view := View(BaseDigests(base), LocalOf(files, base, remote), Digests(remote.files));
    forall c | c in plan.changes ensures c.Change? && view.Says(c) && c.expected == if c.path in files then Some(Digest(files[c.path])) else None {
      ChangeKnown(files, base, remote, c);
    }
    forall r | r in plan.removals ensures r.Removal? && view.Says(r) && r.path in files && r.was == Digest(files[r.path]) {}
    if Admits(now, plan) {
      forall p | !Untouched(plan, p) ensures (p in now <==> p in files) && (p in files ==> now[p] == files[p]) {
        if c :| c in plan.changes && c.path == p {
          assert c.Change?;
        } else {
          var r :| r in plan.removals && r.path == p;
          assert r.Removal?;
        }
      }
    } else {
      assert forall c :: c in plan.changes ==> !Untouched(plan, c.path);
      assert forall r :: r in plan.removals ==> !Untouched(plan, r.path);
    }
  }

  lemma ChangeKnown(files: Files, base: Option<Manifest>, remote: Manifest, c: Item)
    requires View(BaseDigests(base), LocalOf(files, base, remote), Digests(remote.files)).Says(c) && c.Change?
    ensures c.expected == if c.path in files then Some(Digest(files[c.path])) else None
  {
    hide Digests, BaseDigests;
  }

  /** What happens to one path. */
  lemma PathAfter(files: Files, base: Option<Manifest>, remote: Manifest, plan: Plan, now: Files, after: Files, p: string)
    requires Pulled(files, base, remote, plan, now, after)
    ensures var fate := FateOf(BaseDigests(base), LocalOf(files, base, remote), Digests(remote.files), p);
            && (fate == Changed ==> p in Digests(remote.files) && p in after && Digest(after[p]) == Digests(remote.files)[p])
            && (fate == Changed && p in now ==> p in BaseDigests(base) && BaseDigests(base)[p] == Digest(now[p]))
            && (fate == Removed ==> p !in after && p in now && p in BaseDigests(base) && BaseDigests(base)[p] == Digest(now[p]))
            && (fate in {Unchanged, Conflicting} ==> Untouched(plan, p) && (p in after <==> p in now) && (p in now ==> after[p] == now[p]))
  {
    hide FateOf, Digests, BaseDigests;
    var view := View(BaseDigests(base), LocalOf(files, base, remote), Digests(remote.files));
    FateListed(view, plan, p);
    if view.Fate(p) == Changed {
      var c :| c in plan.changes && c.path == p;
      assert view.Says(c);
      if p in now { ExpectedIsBase(view, p); }
    } else if view.Fate(p) == Removed {
      var r :| r in plan.removals && r.path == p;
      assert view.Says(r);
      ExpectedIsBase(view, p);
    } else {
      assert Untouched(plan, p);
    }
  }

  /** What a plan overwrites or removes is what was last synced. */
  lemma ExpectedIsBase(view: View, p: string)
    requires view.Fate(p) == Removed || (view.Fate(p) == Changed && p in view.local)
    ensures p in view.base && p in view.local && view.local[p] == view.base[p]
  {}

  /** No local edit is lost, not even one made since the pull: a file is overwritten or removed only
      when what is there now is what was last synced. */
  lemma NoEditLost(files: Files, base: Option<Manifest>, remote: Manifest, plan: Plan, now: Files, after: Files, p: string)
    requires Pulled(files, base, remote, plan, now, after)
    requires p in now && (p !in after || after[p] != now[p])
    ensures p in BaseDigests(base) && BaseDigests(base)[p] == Digest(now[p])
    ensures p in after ==> p in Digests(remote.files) && Digests(remote.files)[p] == Digest(after[p])
  {
    hide Digests, BaseDigests;
    PathAfter(files, base, remote, plan, now, after, p);
  }

  /** Nothing outside the two manifests is touched, and nothing appears that the snapshot does not hold. */
  lemma OthersUntouched(files: Files, base: Option<Manifest>, remote: Manifest, plan: Plan, now: Files, after: Files, p: string)
    requires Pulled(files, base, remote, plan, now, after)
    requires p !in Digests(remote.files) && (p !in BaseDigests(base) || p !in files)
    ensures (p in after <==> p in now) && (p in now ==> after[p] == now[p])
  {
    hide Digests, BaseDigests;
    PathAfter(files, base, remote, plan, now, after, p);
  }

  /** Without conflicts every path either manifest knows ends as the snapshot has it, unless the plan
      left it alone and it has changed since. */
  lemma Converges(files: Files, base: Option<Manifest>, remote: Manifest, plan: Plan, now: Files, after: Files, p: string)
    requires Pulled(files, base, remote, plan, now, after) && plan.conflicts == []
    requires Untouched(plan, p) ==> (p in now <==> p in files) && (p in files ==> now[p] == files[p])
    requires p in BaseDigests(base) || p in Digests(remote.files)
    ensures p in after <==> p in Digests(remote.files)
    ensures p in after ==> Digest(after[p]) == Digests(remote.files)[p]
  {
    hide Digests, BaseDigests;
    PathAfter(files, base, remote, plan, now, after, p);
    FateListed(View(BaseDigests(base), LocalOf(files, base, remote), Digests(remote.files)), plan, p);
  }

  /** Pulling the same snapshot again finds nothing to do. */
  lemma ReplansToNothing(files: Files, base: Option<Manifest>, remote: Manifest, plan: Plan, now: Files, after: Files, again: Plan)
    requires Pulled(files, base, remote, plan, now, after) && StillAsPlanned(files, plan, now) && plan.conflicts == []
    requires Exact(View(BaseDigests(Some(remote)), LocalOf(after, Some(remote), remote), Digests(remote.files)), again)
    ensures again == Plan([], [], [])
  {
    hide Digests, BaseDigests, Exact;
    var view := View(BaseDigests(Some(remote)), LocalOf(after, Some(remote), remote), Digests(remote.files));
    assert BaseDigests(Some(remote)) == Digests(remote.files) by { BaseOfSynced(remote); }
    forall p ensures view.Fate(p) == Unchanged {
      if p in Digests(remote.files) { Converges(files, base, remote, plan, now, after, p); }
    }
    AllUnchanged(view, again);
  }

  lemma BaseOfSynced(remote: Manifest)
    ensures BaseDigests(Some(remote)) == Digests(remote.files)
  {}

  lemma SaysFate(view: View, item: Item)
    requires view.Says(item)
    ensures view.Fate(item.path) != Unchanged
  {}

  lemma NothingSaid(view: View, items: seq<Item>)
    requires (forall p :: view.Fate(p) == Unchanged) && forall c :: c in items ==> view.Says(c)
    ensures items == []
  {
    hide FateOf;
    if items != [] { SaysFate(view, items[0]); }
  }

  lemma AllUnchanged(view: View, plan: Plan)
    requires Exact(view, plan) && forall p :: view.Fate(p) == Unchanged
    ensures plan == Plan([], [], [])
  {
    hide FateOf;
    NothingSaid(view, plan.changes);
    NothingSaid(view, plan.removals);
    NothingSaid(view, plan.conflicts);
  }
}
