/** When a group rename or deletion commits. */
module Relocation {
  // When a rename or a deletion of a group commits: what is moved must not land inside a
  // directory the same request gives up.  A deletion never does that.  A rename does it
  // when the new name is above the old one and a group with a file in it repeats, inside
  // the old one, the segments that lead down from the new name to a group given up.  If
  // such a file lands directly in the directory given up, the planner refuses the request;
  // otherwise it is admitted and its commit stops half way.

  import opened Results
  import opened Text
  import opened Disks
  import opened Journal
  import opened Planning
  import opened StagingFacts
  import opened Admission
  import opened Guarantees
  import opened Layout

  // ---- a directory that is left empty ----

  /** Every file at any depth below it is moving. */
  lemma {:induction false} EmptiedMoves(d: Disk, ours: set<Path>, moving: set<Path>, dir: Path, p: Path)
    requires WellFormed(d) && Empties(d, ours, moving, dir) && p in d.files && dir < p
    ensures p in moving
    decreases |p| - |dir|
  {
    EmptiesWhen(d, ours, moving, dir);
    if Parent(p) == dir {
      assert IsChild(p, dir);
    } else {
      var child := p[..|dir| + 1];
      assert Parent(child) == p[..|dir|] == dir;
      assert IsChild(child, dir) && child < p;
      AboveIsDirectory(d, p, child);
      EmptiedMoves(d, ours, moving, child, p);
    }
  }

  /** Every directory at any depth below it is given up too. */
  lemma {:induction false} EmptiedGoes(d: Disk, ours: set<Path>, moving: set<Path>, dir: Path, p: Path)
    requires WellFormed(d) && Empties(d, ours, moving, dir) && p in d.dirs && dir < p
    ensures p in ours
    decreases |p| - |dir|
  {
    EmptiesWhen(d, ours, moving, dir);
    var child := p[..|dir| + 1];
    assert Parent(child) == p[..|dir|] == dir;
    assert IsChild(child, dir);
    if child != p {
      AboveIsDirectory(d, p, child);
      EmptiedGoes(d, ours, moving, child, p);
    }
  }

  /** A directory that does not empty holds something that stays. */
  lemma {:induction false} SomethingStays(d: Disk, ours: set<Path>, moving: set<Path>, dir: Path)
    requires WellFormed(d) && dir in d.dirs && !Empties(d, ours, moving, dir)
    ensures exists q :: dir < q && ((q in d.files && q !in moving) || (q in d.dirs && q !in ours))
    decreases |Below(d, dir)|
  {
    EmptiesWhen(d, ours, moving, dir);
    if f :| f in d.files && IsChild(f, dir) && f !in moving {
      ChildIsBeneath(f, dir);
    } else {
      var q :| q in d.dirs && IsChild(q, dir) && !(q in ours && Empties(d, ours, moving, q));
      ChildIsBeneath(q, dir);
      if q in ours {
        ChildSmaller(d, dir, q);
        SomethingStays(d, ours, moving, q);
        var r :| q < r && ((r in d.files && r !in moving) || (r in d.dirs && r !in ours));
        assert dir < r;
      }
    }
  }

  lemma DirectoryResolves(d: Disk, p: Path)
    requires WellFormed(d) && p in d.dirs && p != []
    ensures ResolvesDirectory(d, p)
  {
    assert p[..|p|] == p;
    forall k | 0 < k <= |p| ensures p[..k] !in d.files {
      if k < |p| { AboveIsDirectory(d, p, p[..k]); }
    }
  }

  // ---- the conditions ----

  /** A directory the plan gives up. */
  predicate GivenUp(d: Disk, renamed: map<Group, Group>, x: Path) {
    x in Sources(renamed) && Empties(d, Sources(renamed), MovingFiles(d, renamed), x)
  }

  /** What it takes to be given up: only files that move, and only affected directories, below. */
  lemma GivenUpIff(d: Disk, renamed: map<Group, Group>, x: Path)
    requires WellFormed(d)
    ensures GivenUp(d, renamed, x) <==>
      && x in Sources(renamed) && x in d.dirs
      && (forall q :: q in d.files && x < q ==> q in MovingFiles(d, renamed))
      && (forall q :: q in d.dirs && x < q ==> q in Sources(renamed))
  {
    hide Empties, Sources, MovingFiles;
    if GivenUp(d, renamed, x) {
      GivenUpStands(d, renamed, x);
      forall q | q in d.files && x < q ensures q in MovingFiles(d, renamed) {
        EmptiedMoves(d, Sources(renamed), MovingFiles(d, renamed), x, q);
      }
      forall q | q in d.dirs && x < q ensures q in Sources(renamed) {
        EmptiedGoes(d, Sources(renamed), MovingFiles(d, renamed), x, q);
      }
    } else if x in d.dirs && x in Sources(renamed) {
      SomethingStays(d, Sources(renamed), MovingFiles(d, renamed), x);
    }
  }

  /** No file lands inside a directory that is given up. */
  ghost predicate TargetsClear(d: Disk, renamed: map<Group, Group>) {
    forall from, to, x :: FileMoves(d, renamed, from, to) && GivenUp(d, renamed, x) ==> !(x < to)
  }

  /** No file lands directly in a directory that is given up. */
  ghost predicate CreatedStand(d: Disk, renamed: map<Group, Group>) {
    forall from, to :: FileMoves(d, renamed, from, to) && to != [] ==> !GivenUp(d, renamed, Parent(to))
  }

  /** No file lands on the way to where another one goes. */
  ghost predicate FilesApart(d: Disk, renamed: map<Group, Group>) {
    forall from, to, from2, to2 :: FileMoves(d, renamed, from, to) && FileMoves(d, renamed, from2, to2) ==> !(to < to2)
  }

  /** The other files the request writes: one that is there and stays, or one outside both trees. */
  predicate ChangesClear(d: Disk, renamed: map<Group, Group>, changes: seq<Change>) {
    forall i :: 0 <= i < |changes| ==>
      var p := changes[i].path;
      p !in MovingFiles(d, renamed) && (p in d.files || (p != [] && p[0] !in {Connections, Keys}))
  }

  /** No affected group's new place is an affected group, or inside one. */
  predicate GroupsClear(renamed: map<Group, Group>) {
    forall n, m :: n in renamed && m in renamed ==> !(m <= renamed[n])
  }

  lemma SourceShape(renamed: map<Group, Group>, x: Path)
    requires x in Sources(renamed)
    ensures x != [] && x[0] in {Connections, Keys} && x[1..] in renamed
  {}

  lemma TargetShape(d: Disk, renamed: map<Group, Group>, from: Path, to: Path)
    requires FileMoves(d, renamed, from, to)
    ensures |from| >= 2 && from in MovingFiles(d, renamed) && from[1..|from| - 1] in renamed && from[0] in {Connections, Keys}
    ensures to == [from[0]] + renamed[from[1..|from| - 1]] + [from[|from| - 1]]
    ensures to != [] && Parent(to) == [from[0]] + renamed[from[1..|from| - 1]]
  {}

  lemma GroupsClearSuffices(d: Disk, renamed: map<Group, Group>)
    requires GroupsClear(renamed)
    ensures TargetsClear(d, renamed)
  {
    forall from, to, x | FileMoves(d, renamed, from, to) && GivenUp(d, renamed, x) ensures !(x < to) {
      SourceShape(renamed, x);
      TargetShape(d, renamed, from, to);
      var n := from[1..|from| - 1];
      assert to[1..|to| - 1] == renamed[n];
    }
  }

  // ---- deleting ----

  lemma {:induction false} WithoutName(declared: seq<Group>, name: Group, g: Group)
    requires g in Layout.Without(declared, name)
    ensures !(name <= g)
  {
    if g !in Layout.Without(declared[..|declared| - 1], name) {} else { WithoutName(declared[..|declared| - 1], name, g); }
  }

  /** A deletion never moves a file into what it removes, nor one onto the way of another. */
  lemma DeletionIsClear(d: Disk, declared: seq<Group>, name: Group, destination: Group)
    requires name != [] && (destination != [] ==> !(name <= destination))
    ensures GroupsClear(Flattened(declared, name, destination)) && FilesApart(d, Flattened(declared, name, destination))
  {
    var renamed := Flattened(declared, name, destination);
    forall from, to, from2, to2 | FileMoves(d, renamed, from, to) && FileMoves(d, renamed, from2, to2) ensures !(to < to2) {
      TargetShape(d, renamed, from, to);
      TargetShape(d, renamed, from2, to2);
      assert |to| == |to2|;
    }
  }

  // ---- renaming ----

  /** A file of group n lands inside the directory of group m, which is given up: m repeats,
      inside the old name, the segments that lead down from the new name to n. */
  ghost predicate LandsIn(d: Disk, declared: seq<Group>, from: Group, to: Group, root: string, file: Path, n: Group, m: Group) {
    && root in {Connections, Keys} && n in declared && m in declared && from <= m
    && file in d.files && IsChild(file, GroupDirectory(root, n))
    && to < from && RepeatsAt(from, to, n, m)
    && GivenUp(d, Renamed(declared, from, to), GroupDirectory(root, m))
  }

  predicate RepeatsAt(from: Group, to: Group, n: Group, m: Group)
    requires to <= from <= m
  {
    from + m[|to|..] <= n
  }

  /** ... and directly in it when n is that repetition and nothing more. */
  ghost predicate LandsAt(d: Disk, declared: seq<Group>, from: Group, to: Group, root: string, file: Path, n: Group, m: Group) {
    LandsIn(d, declared, from, to, root, file, n, m) && n == from + m[|to|..]
  }

  lemma RepeatIsInside(from: Group, to: Group, n: Group, m: Group)
    requires !(from <= to) && from <= n && from <= m
    ensures m <= NewName(from, to, n) <==> to < from && RepeatsAt(from, to, n, m)
    ensures m == NewName(from, to, n) <==> to < from && n == from + m[|to|..]
  {}

  /** Where a file of the tree goes when its group is renamed. */
  lemma RenamedMove(d: Disk, declared: seq<Group>, from: Group, to: Group, root: string, file: Path, n: Group) returns (target: Path)
    requires root in {Connections, Keys} && n in declared && from <= n && file in d.files && IsChild(file, GroupDirectory(root, n))
    ensures FileMoves(d, Renamed(declared, from, to), file, target)
    ensures target != [] && Parent(target) == GroupDirectory(root, NewName(from, to, n))
  {
    assert file[1..|file| - 1] == n;
    target := GroupDirectory(root, NewName(from, to, n)) + [file[|file| - 1]];
    assert Relocates(d, Renamed(declared, from, to), root, file, target);
  }

  lemma LandingSeen(d: Disk, declared: seq<Group>, from: Group, to: Group, file: Path, target: Path, x: Path) returns (root: string, n: Group, m: Group)
    requires !(from <= to) && FileMoves(d, Renamed(declared, from, to), file, target)
    requires GivenUp(d, Renamed(declared, from, to), x) && x < target
    ensures LandsIn(d, declared, from, to, root, file, n, m)
    ensures target != [] && x == Parent(target) ==> LandsAt(d, declared, from, to, root, file, n, m)
  {
    hide Empties;
    var renamed := Renamed(declared, from, to);
    TargetShape(d, renamed, file, target);
    SourceShape(renamed, x);
    root, n, m := file[0], file[1..|file| - 1], x[1..];
    assert x == GroupDirectory(root, m) by { assert x[0] == target[0]; }
    assert m <= NewName(from, to, n) by { assert x <= Parent(target); }
    RepeatIsInside(from, to, n, m);
    assert IsChild(file, GroupDirectory(root, n));
  }

  /** A rename keeps clear of the directories it gives up exactly when no file lands in one. */
  lemma RenameIsClearIff(d: Disk, declared: seq<Group>, from: Group, to: Group)
    requires !(from <= to)
    ensures TargetsClear(d, Renamed(declared, from, to)) <==> !exists root, file, n, m :: LandsIn(d, declared, from, to, root, file, n, m)
    ensures CreatedStand(d, Renamed(declared, from, to)) <==> !exists root, file, n, m :: LandsAt(d, declared, from, to, root, file, n, m)
  {
    hide Empties, FileMoves, GivenUp;
    var renamed := Renamed(declared, from, to);
    if !TargetsClear(d, renamed) {
      var file, target, x :| FileMoves(d, renamed, file, target) && GivenUp(d, renamed, x) && x < target;
      var root, n, m := LandingSeen(d, declared, from, to, file, target, x);
    }
    if !CreatedStand(d, renamed) {
      var file, target :| FileMoves(d, renamed, file, target) && target != [] && GivenUp(d, renamed, Parent(target));
      assert Parent(target) < target;
      var root, n, m := LandingSeen(d, declared, from, to, file, target, Parent(target));
    }
    forall root, file, n, m | LandsIn(d, declared, from, to, root, file, n, m) ensures !TargetsClear(d, renamed) {
      LandingMoves(d, declared, from, to, root, file, n, m);
    }
    forall root, file, n, m | LandsAt(d, declared, from, to, root, file, n, m) ensures !CreatedStand(d, renamed) {
      LandingMoves(d, declared, from, to, root, file, n, m);
    }
  }

  lemma LandingMoves(d: Disk, declared: seq<Group>, from: Group, to: Group, root: string, file: Path, n: Group, m: Group)
    requires !(from <= to) && LandsIn(d, declared, from, to, root, file, n, m)
    ensures !TargetsClear(d, Renamed(declared, from, to))
    ensures LandsAt(d, declared, from, to, root, file, n, m) ==> !CreatedStand(d, Renamed(declared, from, to))
  {
    hide Empties, FileMoves;
    assert from <= from + m[|to|..] <= n;
    var target := RenamedMove(d, declared, from, to, root, file, n);
    RepeatIsInside(from, to, n, m);
    assert GroupDirectory(root, m) <= Parent(target) < target;
  }

  lemma RenameKeepsApart(d: Disk, declared: seq<Group>, from: Group, to: Group)
    requires WellFormed(d)
    ensures FilesApart(d, Renamed(declared, from, to))
  {
    var renamed := Renamed(declared, from, to);
    forall a, ta, b, tb | FileMoves(d, renamed, a, ta) && FileMoves(d, renamed, b, tb) ensures !(ta < tb) {
      TargetShape(d, renamed, a, ta);
      TargetShape(d, renamed, b, tb);
      if ta < tb {
        OldPlaces(from, to, a, ta, b, tb);
        AboveIsDirectory(d, b, a);
      }
    }
  }

  /** Renaming puts the same segments under another name, so what lies above what does not change. */
  lemma OldPlaces(from: Group, to: Group, a: Path, ta: Path, b: Path, tb: Path)
    requires |a| >= 2 && |b| >= 2 && from <= a[1..|a| - 1] && from <= b[1..|b| - 1]
    requires ta == [a[0]] + NewName(from, to, a[1..|a| - 1]) + [a[|a| - 1]]
    requires tb == [b[0]] + NewName(from, to, b[1..|b| - 1]) + [b[|b| - 1]]
    requires ta < tb
    ensures a < b
  {
    var k := 1 + |to|;
    assert ta[0] == tb[0];
    assert ta[k..] == tb[k..][..|ta| - k];
    assert a == [a[0]] + from + ta[k..];
    assert b == [b[0]] + from + tb[k..];
  }

  // ---- what the request keeps apart ----

  lemma CarriedMove(d: Disk, renamed: map<Group, Group>, changes: seq<Change>, request: Request, to: Path)
    requires Carries(d, renamed, changes, request) && MovesTo(request, to)
    ensures exists from :: FileMoves(d, renamed, from, to)
  {
    hide Empties, FileMoves, Sources, MovingFiles, CreatesDirectory;
    var i :| 0 <= i < |request.moves| && request.moves[i].to == to;
    assert request.moves[i] in request.moves;
    assert FileMoves(d, renamed, request.moves[i].from, to);
  }

  lemma CarriedPlaces(d: Disk, renamed: map<Group, Group>, changes: seq<Change>, request: Request, p: Path)
    requires Carries(d, renamed, changes, request)
    ensures MovesTo(request, p) ==> exists from :: FileMoves(d, renamed, from, p)
    ensures CreatesDirectory(request, p) ==> exists from, to :: FileMoves(d, renamed, from, to) && to != [] && p == Parent(to)
  {
    hide Empties, FileMoves, Sources, MovingFiles, MovesTo, MovesFrom;
    if MovesTo(request, p) { CarriedMove(d, renamed, changes, request, p); }
    if CreatesDirectory(request, p) {
      var to :| MovesTo(request, to) && to != [] && p == Parent(to);
      CarriedMove(d, renamed, changes, request, to);
      var from :| FileMoves(d, renamed, from, to);
      assert FileMoves(d, renamed, from, to) && to != [] && p == Parent(to);
    }
  }

  lemma CarriedChanges(d: Disk, renamed: map<Group, Group>, changes: seq<Change>, request: Request)
    requires Carries(d, renamed, changes, request)
    ensures request.changes == changes
  {
    hide Empties, FileMoves, MovingFiles, Sources;
  }

  lemma ChangeStaysOut(d: Disk, renamed: map<Group, Group>, changes: seq<Change>, x: Path, i: nat)
    requires WellFormed(d) && ChangesClear(d, renamed, changes) && GivenUp(d, renamed, x) && i < |changes|
    ensures !(x < changes[i].path)
  {
    hide Empties;
    var p := changes[i].path;
    SourceShape(renamed, x);
    if x < p && p in d.files { EmptiedMoves(d, Sources(renamed), MovingFiles(d, renamed), x, p); }
  }

  lemma CreatedResolves(d: Disk, request: Request, q: Path)
    requires PlanItems(d, Planned(request.directories), Items(request)).Ok? && CreatesDirectory(request, q)
    ensures ResolvesDirectory(d, q)
  {
    hide PlanItems, Items, Planned;
    var i :| 0 <= i < |request.directories| && request.directories[i] == q;
    ItemCount(request);
    ItemAt(request, i);
    ItemsAdmittedIff(d, Planned(request.directories), Items(request));
    assert Acceptable(d, Planned(request.directories), Items(request)[i]);
  }

  lemma ClearIsSeparate(d: Disk, renamed: map<Group, Group>, changes: seq<Change>, request: Request)
    requires WellFormed(d) && Carries(d, renamed, changes, request) && ChangesClear(d, renamed, changes) && FilesApart(d, renamed)
    requires PlanItems(d, Planned(request.directories), Items(request)).Ok? && TargetsClear(d, renamed)
    ensures Separate(d, request)
  {
    hide Empties, FileMoves, PlanItems, Items, ChangesClear, MovingFiles, Sources, Carries, WellFormed, Placing, CreatesDirectory, ChangesAt, MovesTo, TargetsClear, FilesApart;
    forall dir, p | dir in request.removeDirectories && dir in d.dirs && Placing(request, p) ensures !Beneath(p, dir) {
      PlacedOutside(d, renamed, changes, request, dir, p);
    }
    forall p, q | CreatesDirectory(request, q) && (ChangesAt(request, p) || MovesTo(request, p)) ensures !(p < q) {
      NotOnTheWay(d, renamed, changes, request, p, q);
    }
  }

  lemma SeparateIsClear(d: Disk, renamed: map<Group, Group>, changes: seq<Change>, request: Request)
    requires Carries(d, renamed, changes, request) && Separate(d, request)
    ensures TargetsClear(d, renamed)
  {
    hide Empties, FileMoves, MovingFiles, Sources, Carries, MovesTo, CreatesDirectory, ChangesAt;
    forall from, to, x | FileMoves(d, renamed, from, to) && GivenUp(d, renamed, x) ensures !(x < to) {
      CarriedBoth(d, renamed, changes, request, from, to, x);
      assert Placing(request, to);
    }
  }

  lemma CarriedBoth(d: Disk, renamed: map<Group, Group>, changes: seq<Change>, request: Request, from: Path, to: Path, x: Path)
    requires Carries(d, renamed, changes, request) && FileMoves(d, renamed, from, to) && GivenUp(d, renamed, x)
    ensures x in request.removeDirectories && x in d.dirs && MovesTo(request, to)
  {
    hide Empties, FileMoves, MovingFiles, Sources, MovesTo, CreatesDirectory;
    GivenUpStands(d, renamed, x);
  }

  /** The request commits cleanly exactly when no moved file lands inside a directory it gives up. */
  lemma LayoutSeparateIff(d: Disk, renamed: map<Group, Group>, changes: seq<Change>, request: Request)
    requires WellFormed(d) && Carries(d, renamed, changes, request) && ChangesClear(d, renamed, changes) && FilesApart(d, renamed)
    requires PlanItems(d, Planned(request.directories), Items(request)).Ok?
    ensures Separate(d, request) <==> TargetsClear(d, renamed)
  {
    hide *;
    if TargetsClear(d, renamed) { ClearIsSeparate(d, renamed, changes, request); }
    if Separate(d, request) { SeparateIsClear(d, renamed, changes, request); }
  }

  lemma GivenUpStands(d: Disk, renamed: map<Group, Group>, x: Path)
    requires GivenUp(d, renamed, x)
    ensures x in d.dirs
  {}

  lemma PlacedOutside(d: Disk, renamed: map<Group, Group>, changes: seq<Change>, request: Request, dir: Path, p: Path)
    requires WellFormed(d) && Carries(d, renamed, changes, request) && ChangesClear(d, renamed, changes) && TargetsClear(d, renamed)
    requires dir in request.removeDirectories && Placing(request, p)
    ensures !(dir < p)
  {
    hide Empties, FileMoves, ChangesClear, MovingFiles, Sources;
    assert GivenUp(d, renamed, dir);
    CarriedPlaces(d, renamed, changes, request, p);
    if ChangesAt(request, p) {
      var i :| 0 <= i < |request.changes| && request.changes[i].path == p;
      ChangeStaysOut(d, renamed, changes, dir, i);
    } else if CreatesDirectory(request, p) {
      var from, to :| FileMoves(d, renamed, from, to) && to != [] && p == Parent(to);
      assert dir < p ==> dir < to;
    }
  }

  lemma OnTheWay(d: Disk, p: Path, q: Path)
    requires p < q && ResolvesDirectory(d, q)
    ensures p != [] ==> p !in d.files && p[0] == q[0]
  {
    assert q[..|p|] == p;
  }

  lemma NotOnTheWay(d: Disk, renamed: map<Group, Group>, changes: seq<Change>, request: Request, p: Path, q: Path)
    requires WellFormed(d) && Carries(d, renamed, changes, request) && ChangesClear(d, renamed, changes) && FilesApart(d, renamed)
    requires PlanItems(d, Planned(request.directories), Items(request)).Ok?
    requires CreatesDirectory(request, q) && (ChangesAt(request, p) || MovesTo(request, p))
    ensures !(p < q)
  {
    hide Empties, FileMoves, PlanItems, Items, MovingFiles, Sources, Carries, ResolvesDirectory;
    assert request.changes == changes by { CarriedChanges(d, renamed, changes, request); }
    CarriedPlaces(d, renamed, changes, request, p);
    CarriedPlaces(d, renamed, changes, request, q);
    CreatedResolves(d, request, q);
    var from, to :| FileMoves(d, renamed, from, to) && to != [] && q == Parent(to);
    if p < q {
      assert p < to;
      if ChangesAt(request, p) {
        var i :| 0 <= i < |request.changes| && request.changes[i].path == p;
        TargetShape(d, renamed, from, to);
        OnTheWay(d, p, q);
      }
    }
  }

  /** The planner admits it exactly when no file lands directly in a directory it gives up. */
  lemma LayoutAdmitted(d: Disk, renamed: map<Group, Group>, changes: seq<Change>, request: Request)
    requires WellFormed(d) && Carries(d, renamed, changes, request) && ChangesClear(d, renamed, changes) && !IsEmptyRequest(request)
    requires PlanItems(d, Planned(request.directories), Items(request)).Ok?
    ensures PlanRequest(d, request).Ok? <==> CreatedStand(d, renamed)
  {
    hide *;
    if CreatedStand(d, renamed) {
      CreatedStandPasses(d, renamed, changes, request);
    } else {
      CreatedAndGivenUp(d, renamed, changes, request);
    }
  }

  lemma ClaimsAt(items: seq<Item>, k: nat, p: Path)
    requires k < |items| && p in Claims(items[k])
    ensures p in AllClaims(items)
  {
    hide Claims;
  }

  /** A directory that is both created and given up is claimed twice. */
  lemma CreatedAndGivenUp(d: Disk, renamed: map<Group, Group>, changes: seq<Change>, request: Request)
    requires Carries(d, renamed, changes, request) && !CreatedStand(d, renamed)
    ensures PlanRequest(d, request).Err?
  {
    hide Empties, FileMoves, MovingFiles, Sources, PlanRequest, Items, AllClaims;
    var from, to :| FileMoves(d, renamed, from, to) && to != [] && GivenUp(d, renamed, Parent(to));
    var q := Parent(to);
    assert MovesTo(request, to);
    assert CreatesDirectory(request, q);
    var k :| 0 <= k < |request.directories| && request.directories[k] == q;
    ItemCount(request);
    ItemAt(request, k);
    ClaimsAt(Items(request), k, q);
    AdmittedByItem(d, request);
  }

  lemma CreatedStandPasses(d: Disk, renamed: map<Group, Group>, changes: seq<Change>, request: Request)
    requires WellFormed(d) && Carries(d, renamed, changes, request)
    requires CreatedStand(d, renamed) && !IsEmptyRequest(request)
    requires PlanItems(d, Planned(request.directories), Items(request)).Ok?
    ensures PlanRequest(d, request).Ok?
  {
    hide PlanRequest, PlanItems, Items, Planned, Carries, CreatedStand, WellFormed, IsChild, AllClaims, ResolvesDirectory, ItemsAdmissible;
    ItemsAdmittedIff(d, Planned(request.directories), Items(request));
    AdmittedByItem(d, request);
    RemovedOnce(d, renamed, changes, request);
    forall x | x in request.removeDirectories
      ensures ResolvesDirectory(d, x) && x !in AllClaims(Items(request))
      ensures forall q :: (q in d.files || q in d.dirs) && IsChild(q, x) ==> q in AllClaims(Items(request)) || q in request.removeDirectories
    {
      RemovedIsClaimed(d, renamed, changes, request, x);
      DirectoryResolves(d, x);
    }
  }

  lemma RemovedOnce(d: Disk, renamed: map<Group, Group>, changes: seq<Change>, request: Request)
    requires Carries(d, renamed, changes, request)
    ensures forall i, j :: 0 <= i < j < |request.removeDirectories| ==> request.removeDirectories[i] != request.removeDirectories[j]
  {
    hide Empties, FileMoves, Sources, MovingFiles;
  }

  /** A removed directory is claimed by nothing else; its files are claimed and its directories removed. */
  lemma RemovedIsClaimed(d: Disk, renamed: map<Group, Group>, changes: seq<Change>, request: Request, x: Path)
    requires WellFormed(d) && Carries(d, renamed, changes, request) && CreatedStand(d, renamed) && x in request.removeDirectories
    requires ItemsAdmissible(d, Planned(request.directories), Items(request))
    ensures x in d.dirs && x != [] && x !in AllClaims(Items(request))
    ensures forall q :: q in d.files && IsChild(q, x) ==> q in AllClaims(Items(request))
    ensures forall q :: q in d.dirs && IsChild(q, x) ==> q in request.removeDirectories
  {
    hide Empties, FileMoves, Items, MovingFiles, Sources, CreatedStand, WellFormed, Planned, IsChild, Claims, ItemsAdmissible;
    assert GivenUp(d, renamed, x);
    GivenUpStands(d, renamed, x);
    SourceShape(renamed, x);
    EmptiesWhen(d, Sources(renamed), MovingFiles(d, renamed), x);
    forall k | 0 <= k < |Items(request)| ensures x !in Claims(Items(request)[k]) {
      DirectoryNotClaimed(d, renamed, changes, request, x, k);
    }
    forall q | q in d.files && IsChild(q, x) ensures q in AllClaims(Items(request)) {
      MovedIsClaimed(d, renamed, changes, request, q);
    }
  }

  lemma CarriedFrom(d: Disk, renamed: map<Group, Group>, changes: seq<Change>, request: Request, q: Path)
    requires Carries(d, renamed, changes, request) && q in MovingFiles(d, renamed)
    ensures MovesFrom(request, q)
  {
    hide Empties, FileMoves, MovingFiles, Sources, CreatesDirectory, MovesTo;
    MovingAre(d, renamed, q);
  }

  lemma MovedIsClaimed(d: Disk, renamed: map<Group, Group>, changes: seq<Change>, request: Request, q: Path)
    requires Carries(d, renamed, changes, request) && q in MovingFiles(d, renamed)
    ensures q in AllClaims(Items(request))
  {
    hide Carries, Items, MovingFiles, AllClaims;
    CarriedFrom(d, renamed, changes, request, q);
    var i :| 0 <= i < |request.moves| && request.moves[i].from == q;
    var k := |request.directories| + |request.changes| + i;
    ItemCount(request);
    ItemAt(request, k);
    ClaimsAt(Items(request), k, q);
  }

  lemma DirectoryNotClaimed(d: Disk, renamed: map<Group, Group>, changes: seq<Change>, request: Request, x: Path, k: nat)
    requires Carries(d, renamed, changes, request) && CreatedStand(d, renamed) && GivenUp(d, renamed, x) && x in d.dirs
    requires ItemsAdmissible(d, Planned(request.directories), Items(request)) && k < |Items(request)|
    ensures x !in Claims(Items(request)[k])
  {
    hide Empties, Relocates, Items, MovingFiles, Sources, GivenUp, Planned;
    ItemAt(request, k);
    ItemCount(request);
    assert Acceptable(d, Planned(request.directories), Items(request)[k]);
    if k < |request.directories| {
      var q := request.directories[k];
      assert CreatesDirectory(request, q);
      CarriedPlaces(d, renamed, changes, request, q);
      var from, to :| FileMoves(d, renamed, from, to) && to != [] && q == Parent(to);
    }
  }

  // ---- what a rewritten reference does ----

  /** A file that is both rewritten and moved makes the whole request inadmissible. */
  lemma RewrittenAndMovedRefused(d: Disk, request: Request, i: nat, j: nat)
    requires i < |request.changes| && j < |request.moves| && request.changes[i].path == request.moves[j].from
    ensures PlanRequest(d, request).Err?
  {
    hide Items, PlanRequest;
    var a, b := |request.directories| + i, |request.directories| + |request.changes| + j;
    ItemCount(request);
    ItemAt(request, a);
    ItemAt(request, b);
    assert request.changes[i].path in Claims(Items(request)[a]) && request.changes[i].path in Claims(Items(request)[b]);
    AdmittedByItem(d, request);
  }

  // ---- what becomes of the commit ----

  /** What a layout request comes to: it is refused exactly when a file would land directly in a
      directory given up, and its commit goes through exactly when none lands inside one at all. */
  lemma LayoutOutcome(d: Disk, renamed: map<Group, Group>, changes: seq<Change>, request: Request,
                      id: Id, names: seq<string>, entries: seq<Entry>, start: Disk)
    requires WellFormed(d) && Carries(d, renamed, changes, request) && ChangesClear(d, renamed, changes) && FilesApart(d, renamed)
    requires PlanItems(d, Planned(request.directories), Items(request)).Ok? && !IsEmptyRequest(request)
    ensures PlanRequest(d, request).Ok? <==> CreatedStand(d, renamed)
    ensures TargetsClear(d, renamed) ==> CreatedStand(d, renamed)
    ensures Prepared(d, request, id, names, entries, start) ==> (Run(start, entries, |entries|).Some? <==> TargetsClear(d, renamed))
  {
    hide *;
    LayoutAdmitted(d, renamed, changes, request);
    LayoutSeparateIff(d, renamed, changes, request);
    ClearIsStanding(d, renamed);
    if Prepared(d, request, id, names, entries, start) { CommitGoesThroughIffSeparate(d, request, id, names, entries, start); }
  }

  lemma ClearIsStanding(d: Disk, renamed: map<Group, Group>)
    ensures TargetsClear(d, renamed) ==> CreatedStand(d, renamed)
  {
    hide FileMoves, GivenUp;
    assert forall to: Path :: to != [] ==> Parent(to) < to;
  }

  /** A deletion that is admitted item by item is admitted, and once prepared its commit goes through. */
  lemma DeletionCommits(d: Disk, declared: seq<Group>, name: Group, destination: Group, changes: seq<Change>, request: Request,
                        id: Id, names: seq<string>, entries: seq<Entry>, start: Disk)
    requires WellFormed(d) && name != [] && (destination != [] ==> !(name <= destination))
    requires Carries(d, Flattened(declared, name, destination), changes, request)
    requires ChangesClear(d, Flattened(declared, name, destination), changes) && !IsEmptyRequest(request)
    requires PlanItems(d, Planned(request.directories), Items(request)).Ok?
    ensures PlanRequest(d, request).Ok?
    ensures Prepared(d, request, id, names, entries, start) ==> Run(start, entries, |entries|).Some?
  {
    hide *;
    var renamed := Flattened(declared, name, destination);
    DeletionIsClear(d, declared, name, destination);
    GroupsClearSuffices(d, renamed);
    LayoutOutcome(d, renamed, changes, request, id, names, entries, start);
  }

  /** The commit of a prepared rename goes through exactly when no file lands in a directory given up. */
  lemma RenameCommits(d: Disk, declared: seq<Group>, from: Group, to: Group, changes: seq<Change>, request: Request,
                      id: Id, names: seq<string>, entries: seq<Entry>, start: Disk)
    requires WellFormed(d) && !(from <= to)
    requires Carries(d, Renamed(declared, from, to), changes, request)
    requires ChangesClear(d, Renamed(declared, from, to), changes) && !IsEmptyRequest(request)
    requires PlanItems(d, Planned(request.directories), Items(request)).Ok?
    ensures var lands := exists root, file, n, m :: LandsIn(d, declared, from, to, root, file, n, m);
            && (!lands ==> PlanRequest(d, request).Ok?)
            && (Prepared(d, request, id, names, entries, start) ==> (Run(start, entries, |entries|).Some? <==> !lands))
  {
    hide *;
    RenameIsClearIff(d, declared, from, to);
    RenameKeepsApart(d, declared, from, to);
    LayoutOutcome(d, Renamed(declared, from, to), changes, request, id, names, entries, start);
  }

  /** A rename whose files do land in one is refused exactly when one of them lands directly in
      it; otherwise it is admitted, and its commit stops half way. */
  lemma RepeatedRenameSticks(d: Disk, declared: seq<Group>, from: Group, to: Group, changes: seq<Change>, request: Request,
                             id: Id, names: seq<string>, entries: seq<Entry>, start: Disk)
    requires WellFormed(d) && !(from <= to)
    requires Carries(d, Renamed(declared, from, to), changes, request)
    requires ChangesClear(d, Renamed(declared, from, to), changes) && !IsEmptyRequest(request)
    requires PlanItems(d, Planned(request.directories), Items(request)).Ok?
    requires exists root, file, n, m :: LandsIn(d, declared, from, to, root, file, n, m)
    ensures PlanRequest(d, request).Err? <==> exists root, file, n, m :: LandsAt(d, declared, from, to, root, file, n, m)
    ensures Prepared(d, request, id, names, entries, start) ==> Run(start, entries, |entries|) == None
  {
    hide *;
    RenameIsClearIff(d, declared, from, to);
    RenameKeepsApart(d, declared, from, to);
    LayoutOutcome(d, Renamed(declared, from, to), changes, request, id, names, entries, start);
  }
}
