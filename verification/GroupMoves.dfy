/** Where a group's files end up. */
module GroupMoves {
  // Renaming or deleting a group, from the declared names to the files on the disk: which
  // names the groups have afterwards, and where every file is once the request built for
  // the operation has been committed.

  import opened Results
  import opened Disks
  import opened Journal
  import opened Planning
  import opened Rollback
  import opened Guarantees
  import opened Jobs
  import opened Admission
  import opened Outcomes
  import opened Layout

  // ---- names ----

  /** Each declared name keeps its place in the list, and what follows `from` in it follows `to` instead. */
  lemma NamesAfterRename(declared: seq<Group>, from: Group, to: Group, i: nat)
    requires i < |declared|
    ensures |AfterRename(declared, from, to)| == |declared|
    ensures forall rest: Group :: declared[i] == from + rest ==> AfterRename(declared, from, to)[i] == to + rest && Renamed(declared, from, to)[declared[i]] == to + rest
    ensures !(from <= declared[i]) ==> AfterRename(declared, from, to)[i] == declared[i] && declared[i] !in Renamed(declared, from, to)
  {
    forall rest: Group | declared[i] == from + rest
      ensures AfterRename(declared, from, to)[i] == to + rest && Renamed(declared, from, to)[declared[i]] == to + rest
    {
      assert declared[i][|from|..] == rest;
    }
  }

  /** The name lies at or below the group: the group's name and something more, or nothing. */
  ghost predicate AtOrBelow(name: Group, group: Group) { exists rest: Group :: name == group + rest }

  lemma BelowIff(name: Group, group: Group)
    ensures AtOrBelow(name, group) <==> group <= name
  {
    if group <= name { assert name == group + name[|group|..]; }
  }

  /** What a rename and a deletion are refused for: the new name would lie inside the old one, a group stands
      at or below the new name that does not move along, or none stands at or below the old one. */
  lemma RefusalsAre(declared: seq<Group>, from: Group, to: Group)
    ensures from <= to <==> AtOrBelow(to, from)
    ensures Taken(declared, from, to) <==> exists n :: n in declared && AtOrBelow(n, to) && !AtOrBelow(n, from)
    ensures AnyWithin(declared, from) <==> exists n :: n in declared && AtOrBelow(n, from)
  {
    hide AtOrBelow;
    BelowIff(to, from);
    forall n ensures AtOrBelow(n, from) <==> from <= n { BelowIff(n, from); }
    forall n ensures AtOrBelow(n, to) <==> to <= n { BelowIff(n, to); }
    if n :| n in declared && AtOrBelow(n, to) && !AtOrBelow(n, from) {
      var i :| 0 <= i < |declared| && declared[i] == n;
      assert !(from <= declared[i]) && to <= declared[i];
    }
    if n :| n in declared && AtOrBelow(n, from) {
      var i :| 0 <= i < |declared| && declared[i] == n;
      assert from <= declared[i];
    }
    if i :| 0 <= i < |declared| && !(from <= declared[i]) && to <= declared[i] { assert AtOrBelow(declared[i], to); }
    if i :| 0 <= i < |declared| && from <= declared[i] { assert AtOrBelow(declared[i], from); }
  }

  /** A rename that is not refused never makes two groups one. */
  lemma RenameKeepsApart(declared: seq<Group>, from: Group, to: Group, i: nat, j: nat)
    requires i < j < |declared| && declared[i] != declared[j] && !Taken(declared, from, to)
    ensures AfterRename(declared, from, to)[i] != AfterRename(declared, from, to)[j]
  {
    var a, b := declared[i], declared[j];
    if from <= a && from <= b {
      assert a == from + a[|from|..] && b == from + b[|from|..];
      assert (to + a[|from|..])[|to|..] == a[|from|..] && (to + b[|from|..])[|to|..] == b[|from|..];
    }
  }

  /** A deletion drops the group and those nested in it, and keeps the others in their order. */
  lemma {:induction false} NamesAfterDelete(declared: seq<Group>, name: Group)
    ensures forall n :: n in Without(declared, name) <==> n in declared && !(name <= n)
    ensures forall n, m :: Before(Without(declared, name), n, m) <==> Before(declared, n, m) && !(name <= n) && !(name <= m)
  {
    if declared != [] {
      var k := |declared| - 1;
      hide Before;
      var front, kept := declared[..k], Without(declared[..k], name);
      assert declared == front + [declared[k]];
      assert Without(declared, name) == if name <= declared[k] then kept else kept + [declared[k]];
      NamesAfterDelete(front, name);
      forall n, m ensures Before(declared, n, m) <==> Before(front, n, m) || (n in front && m == declared[k]) { BeforeSnoc(front, declared[k], n, m); }
      forall n, m ensures Before(kept + [declared[k]], n, m) <==> Before(kept, n, m) || (n in kept && m == declared[k]) { BeforeSnoc(kept, declared[k], n, m); }
    }
  }

  predicate Before(names: seq<Group>, n: Group, m: Group) { exists i, j :: 0 <= i < j < |names| && names[i] == n && names[j] == m }

  lemma BeforeSnoc(front: seq<Group>, last: Group, n: Group, m: Group)
    ensures Before(front + [last], n, m) <==> Before(front, n, m) || (n in front && m == last)
  {
    var all := front + [last];
    if i, j :| 0 <= i < j < |front| && front[i] == n && front[j] == m { assert all[i] == n && all[j] == m; }
    if n in front && m == last {
      var i :| 0 <= i < |front| && front[i] == n;
      assert all[i] == n && all[|front|] == m;
    }
    if i, j :| 0 <= i < j < |all| && all[i] == n && all[j] == m { assert j < |front| ==> front[i] == n && front[j] == m; }
  }

  // ---- files ----

  /** A file directly inside the connections or the keys of a declared group at or below this one. */
  predicate Belongs(declared: seq<Group>, group: Group, p: Path) {
    |p| >= 2 && p[0] in {"connections", "keys"} && p[1..|p| - 1] in declared && group <= p[1..|p| - 1]
  }

  /** Its place after a rename: what follows the old name in its path follows the new one. */
  function RenamedPlace(declared: seq<Group>, from: Group, to: Group, p: Path): Path {
    if Belongs(declared, from, p) then [p[0]] + to + p[|from| + 1..] else p
  }

  /** Its place after a deletion: directly inside the destination. */
  function DeletedPlace(declared: seq<Group>, name: Group, destination: Group, p: Path): Path {
    if Belongs(declared, name, p) then [p[0]] + destination + [p[|p| - 1]] else p
  }

  lemma RenameMoves(d: Disk, declared: seq<Group>, from: Group, to: Group, p: Path, q: Path)
    ensures FileMoves(d, Renamed(declared, from, to), p, q) <==>
              p in d.files && Belongs(declared, from, p) && q == RenamedPlace(declared, from, to, p)
  {
    if Belongs(declared, from, p) {
      var name := p[1..|p| - 1];
      assert name[|from|..] + [p[|p| - 1]] == p[|from| + 1..];
      assert [p[0]] + (to + name[|from|..]) + [p[|p| - 1]] == [p[0]] + to + (name[|from|..] + [p[|p| - 1]]);
    }
  }

  lemma DeleteMoves(d: Disk, declared: seq<Group>, name: Group, destination: Group, p: Path, q: Path)
    ensures FileMoves(d, Flattened(declared, name, destination), p, q) <==>
              p in d.files && Belongs(declared, name, p) && q == DeletedPlace(declared, name, destination, p)
  {}

  ghost predicate ChangesIt(changes: seq<Change>, p: Path) { exists i :: 0 <= i < |changes| && changes[i].path == p }

  /** Files that move are where they were sent, the others where they were, and there are no more:
      the very same files, but for those the request rewrites. */
  ghost predicate Relocated(before: Disk, renamed: map<Group, Group>, changes: seq<Change>, now: Disk) {
    && (forall p, q :: FileMoves(before, renamed, p, q) ==> p !in now.files && q in now.files && now.files[q] == before.files[p])
    && (forall p :: p in before.files && !ChangesIt(changes, p) && (forall q :: !FileMoves(before, renamed, p, q)) ==>
          p in now.files && now.files[p] == before.files[p])
    && (forall q :: q in now.files && !ChangesIt(changes, q) ==>
          (exists p :: FileMoves(before, renamed, p, q)) || (q in before.files && forall x :: !FileMoves(before, renamed, q, x)))
  }

  lemma MovesOnce(before: Disk, renamed: map<Group, Group>, p: Path, q: Path, x: Path)
    requires FileMoves(before, renamed, p, q) && FileMoves(before, renamed, p, x)
    ensures q == x
  {}

  lemma SentThere(job: Job, renamed: map<Group, Group>, changes: seq<Change>, now: Disk, p: Path, q: Path)
    requires AsAsked(job.before, job.request, now) && Carries(job.before, renamed, changes, job.request) && FileMoves(job.before, renamed, p, q)
    ensures p in job.before.files && p !in now.files && q in now.files && now.files[q] == job.before.files[p]
  {
    hide NamedPaths;
    var i :| 0 <= i < |job.request.moves| && job.request.moves[i].from == p;
    var m := job.request.moves[i];
    assert m in job.request.moves;
    MovesOnce(job.before, renamed, p, m.to, q);
  }

  /** What a request that carries out a plan may name. */
  lemma NamedBy(job: Job, renamed: map<Group, Group>, changes: seq<Change>, p: Path)
    requires Carries(job.before, renamed, changes, job.request) && p in NamedPaths(job.request) && !ChangesIt(changes, p)
    ensures p in job.request.directories || (exists q :: FileMoves(job.before, renamed, p, q)) || (exists x :: FileMoves(job.before, renamed, x, p))
  {
    hide FileMoves;
    var request := job.request;
    var n :| 0 <= n < |NamedPaths(request)| && NamedPaths(request)[n] == p;
    var a, b, c := |request.directories|, |request.changes|, |request.moves|;
    if a + b <= n < a + b + c {
      assert request.moves[n - a - b] in request.moves;
    } else if a + b + c <= n {
      assert request.moves[n - a - b - c] in request.moves;
    }
  }

  lemma StaysPut(job: Job, renamed: map<Group, Group>, changes: seq<Change>, now: Disk, p: Path)
    requires AsAsked(job.before, job.request, now) && Carries(job.before, renamed, changes, job.request)
    requires PlanRequest(job.before, job.request).Ok? && p in job.before.files && !ChangesIt(changes, p)
    requires forall q :: !FileMoves(job.before, renamed, p, q)
    ensures p in now.files && now.files[p] == job.before.files[p]
  {
    hide FileMoves, NamedPaths, PlanRequest;
    PlacesAreNew(job, renamed, changes, p);
    if p in NamedPaths(job.request) { NamedBy(job, renamed, changes, p); }
  }

  /** No file stands where one is sent or where a directory is created. */
  lemma PlacesAreNew(job: Job, renamed: map<Group, Group>, changes: seq<Change>, p: Path)
    requires PlanRequest(job.before, job.request).Ok? && Carries(job.before, renamed, changes, job.request)
    ensures p in job.request.directories ==> p !in job.before.files
    ensures (exists x :: FileMoves(job.before, renamed, x, p)) ==> p !in job.before.files
  {
    hide FileMoves, NamedPaths, PlanRequest;
    AdmittedIff(job.before, job.request);
    if i :| 0 <= i < |job.request.directories| && job.request.directories[i] == p { assert DirectoryPlace(job.before, p); }
    if x :| FileMoves(job.before, renamed, x, p) {
      var i :| 0 <= i < |job.request.moves| && job.request.moves[i].to == p;
      assert MoveAdmissible(job.before, job.request.moves[i], job.request.directories);
    }
  }

  lemma ComesFrom(job: Job, renamed: map<Group, Group>, changes: seq<Change>, now: Disk, q: Path)
    requires AsAsked(job.before, job.request, now) && Carries(job.before, renamed, changes, job.request)
    requires WellFormed(now) && PlanRequest(job.before, job.request).Ok? && q in now.files && !ChangesIt(changes, q)
    ensures (exists p :: FileMoves(job.before, renamed, p, q)) || (q in job.before.files && forall x :: !FileMoves(job.before, renamed, q, x))
  {
    hide FileMoves, NamedPaths, PlanRequest;
    if q in NamedPaths(job.request) {
      NamedBy(job, renamed, changes, q);
      CreatedIsNoFile(job, now, q);
    }
    forall x ensures !FileMoves(job.before, renamed, q, x) {
      if FileMoves(job.before, renamed, q, x) { SentThere(job, renamed, changes, now, q, x); }
    }
  }

  /** A directory that is created is not removed. */
  lemma NotGone(job: Job, q: Path)
    requires PlanRequest(job.before, job.request).Ok? && q in job.request.directories
    ensures q !in job.request.removeDirectories
  {
    hide PlanRequest;
    AdmittedIff(job.before, job.request);
    JoinedApart(NamedPaths(job.request), job.request.removeDirectories);
    assert q in NamedPaths(job.request);
  }

  lemma CreatedIsNoFile(job: Job, now: Disk, q: Path)
    requires PlanRequest(job.before, job.request).Ok? && AsAsked(job.before, job.request, now) && WellFormed(now)
    ensures q in job.request.directories ==> q !in now.files
  {
    hide PlanRequest, NamedPaths;
    if q in job.request.directories {
      NotGone(job, q);
      assert q in now.dirs;
    }
  }

  lemma CommittedRelocates(job: Job, renamed: map<Group, Group>, changes: seq<Change>, now: Disk)
    requires job.Valid() && Carries(job.before, renamed, changes, job.request) && Reached(now, job.start, job.entries, |job.entries|)
    ensures Relocated(job.before, renamed, changes, now)
  {
    hide FileMoves, AsAsked, Carries, PlanRequest, Applied, WellFormed;
    CommittedAsAsked(job, now);
    forall p, q | FileMoves(job.before, renamed, p, q) ensures p in job.before.files && p !in now.files && q in now.files && now.files[q] == job.before.files[p] {
      SentThere(job, renamed, changes, now, p, q);
    }
    forall p | p in job.before.files && !ChangesIt(changes, p) && (forall q :: !FileMoves(job.before, renamed, p, q))
      ensures p in now.files && now.files[p] == job.before.files[p]
    {
      StaysPut(job, renamed, changes, now, p);
    }
    forall q | q in now.files && !ChangesIt(changes, q)
      ensures (exists p :: FileMoves(job.before, renamed, p, q)) || (q in job.before.files && forall x :: !FileMoves(job.before, renamed, q, x))
    {
      ComesFrom(job, renamed, changes, now, q);
    }
  }

  /** Every file is at its place afterwards, as it was, and no file is anywhere else. */
  ghost predicate AtPlace(before: Disk, place: Path -> Path, changes: seq<Change>, now: Disk) {
    && (forall p :: p in before.files && (!ChangesIt(changes, p) || place(p) != p) ==> place(p) in now.files && now.files[place(p)] == before.files[p])
    && (forall q :: q in now.files && !ChangesIt(changes, q) ==> exists p :: p in before.files && place(p) == q)
  }

  lemma RelocatedAtPlace(before: Disk, renamed: map<Group, Group>, place: Path -> Path, changes: seq<Change>, now: Disk)
    requires Relocated(before, renamed, changes, now)
    requires forall p, q :: FileMoves(before, renamed, p, q) ==> p in before.files && q == place(p)
    requires forall p :: p in before.files ==> FileMoves(before, renamed, p, place(p)) || place(p) == p
    ensures AtPlace(before, place, changes, now)
  {
    hide FileMoves;
    forall p | p in before.files && (!ChangesIt(changes, p) || place(p) != p) ensures place(p) in now.files && now.files[place(p)] == before.files[p] {
      if q :| FileMoves(before, renamed, p, q) { assert q == place(p); }
    }
    forall q | q in now.files && !ChangesIt(changes, q) ensures exists p :: p in before.files && place(p) == q {
      if p :| FileMoves(before, renamed, p, q) {
        assert place(p) == q;
      } else {
        assert place(q) == q;
      }
    }
  }

  /** A committed rename: every file directly inside a group at or below the old name is at the same place
      below the new one, every other file where it was. */
  lemma RenameCommitted(job: Job, declared: seq<Group>, from: Group, to: Group, changes: seq<Change>, now: Disk)
    requires job.Valid() && Carries(job.before, Renamed(declared, from, to), changes, job.request)
    requires Reached(now, job.start, job.entries, |job.entries|)
    ensures AtPlace(job.before, p => RenamedPlace(declared, from, to, p), changes, now)
  {
    hide *;
    var renamed := Renamed(declared, from, to);
    CommittedRelocates(job, renamed, changes, now);
    forall p, q ensures FileMoves(job.before, renamed, p, q) <==> p in job.before.files && Belongs(declared, from, p) && q == RenamedPlace(declared, from, to, p) {
      RenameMoves(job.before, declared, from, to, p, q);
    }
    forall p | !Belongs(declared, from, p) ensures RenamedPlace(declared, from, to, p) == p { PlaceKept(declared, from, to, p); }
    RelocatedAtPlace(job.before, renamed, p => RenamedPlace(declared, from, to, p), changes, now);
  }

  lemma PlaceKept(declared: seq<Group>, from: Group, to: Group, p: Path)
    requires !Belongs(declared, from, p)
    ensures RenamedPlace(declared, from, to, p) == p && DeletedPlace(declared, from, to, p) == p
  {}

  /** A committed deletion: those files are directly inside the destination, every other file where it was. */
  lemma DeletionCommitted(job: Job, declared: seq<Group>, name: Group, destination: Group, changes: seq<Change>, now: Disk)
    requires job.Valid() && Carries(job.before, Flattened(declared, name, destination), changes, job.request)
    requires Reached(now, job.start, job.entries, |job.entries|)
    ensures AtPlace(job.before, p => DeletedPlace(declared, name, destination, p), changes, now)
  {
    hide *;
    var renamed := Flattened(declared, name, destination);
    CommittedRelocates(job, renamed, changes, now);
    forall p, q ensures FileMoves(job.before, renamed, p, q) <==> p in job.before.files && Belongs(declared, name, p) && q == DeletedPlace(declared, name, destination, p) {
      DeleteMoves(job.before, declared, name, destination, p, q);
    }
    forall p | !Belongs(declared, name, p) ensures DeletedPlace(declared, name, destination, p) == p { PlaceKept(declared, name, destination, p); }
    RelocatedAtPlace(job.before, renamed, p => DeletedPlace(declared, name, destination, p), changes, now);
  }
}
