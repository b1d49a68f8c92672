/** Which requests are admitted. */
module Admission {
  // Which requests Commit admits, without the order in which it looks, and what a refusal
  // says.  First item by item: what each asks for is acceptable by itself, no two claim the
  // same path, and every directory to be removed holds nothing but what the request moves,
  // removes or removes with it.  Then in terms of the request and the disk alone.

  import opened Results
  import opened Text
  import opened Disks
  import opened Planning
  import opened StagingFacts

  ghost predicate ItemsAdmissible(d: Disk, planned: set<Path>, items: seq<Item>) {
    && (forall i :: 0 <= i < |items| ==> Acceptable(d, planned, items[i]))
    && (forall i, j :: 0 <= i < j < |items| ==> Claims(items[i]) !! Claims(items[j]))
  }

  function AllClaims(items: seq<Item>): set<Path> {
    set i, p | 0 <= i < |items| && p in Claims(items[i]) :: p
  }

  /** The directories are different, none is a file's place or claimed, and whatever one holds is
      claimed or goes too. */
  ghost predicate RemovalsAdmissible(d: Disk, claimed: set<Path>, dirs: seq<Path>) {
    && (forall i, j :: 0 <= i < j < |dirs| ==> dirs[i] != dirs[j])
    && (forall p :: p in dirs ==> ResolvesDirectory(d, p) && p !in claimed)
    && (forall p, q :: p in dirs && p in d.dirs && (q in d.files || q in d.dirs) && IsChild(q, p) ==> q in claimed || q in dirs)
  }

  ghost predicate AdmissibleByItem(d: Disk, request: Request) {
    && !IsEmptyRequest(request)
    && ItemsAdmissible(d, Planned(request.directories), Items(request))
    && RemovalsAdmissible(d, AllClaims(Items(request)), request.removeDirectories)
  }

  // ---- the items ----

  lemma AcceptedWhen(d: Disk, planned: set<Path>, claimed: set<Path>, item: Item)
    requires Acceptable(d, planned, item) && Claims(item) !! claimed
    ensures ItemError(d, planned, claimed, item).None?
  {}

  lemma {:induction false} ItemsPass(d: Disk, planned: set<Path>, items: seq<Item>)
    requires ItemsAdmissible(d, planned, items)
    ensures PlanItems(d, planned, items).Ok? && PlanItems(d, planned, items).value.claimed == AllClaims(items)
  {
    hide ItemError, ItemEntry, Claims, Acceptable;
    if items != [] {
      var n := |items| - 1;
      assert forall i :: 0 <= i < n ==> items[..n][i] == items[i];
      ItemsPass(d, planned, items[..n]);
      assert Claims(items[n]) !! AllClaims(items[..n]);
      AcceptedWhen(d, planned, AllClaims(items[..n]), items[n]);
      assert AllClaims(items) == AllClaims(items[..n]) + Claims(items[n]);
    }
  }

  lemma ItemsAdmittedIff(d: Disk, planned: set<Path>, items: seq<Item>)
    ensures PlanItems(d, planned, items).Ok? <==> ItemsAdmissible(d, planned, items)
    ensures PlanItems(d, planned, items).Ok? ==> PlanItems(d, planned, items).value.claimed == AllClaims(items)
  {
    hide PlanItems, Acceptable, Claims;
    if PlanItems(d, planned, items).Ok? { PlannedItems(d, planned, items); }
    if ItemsAdmissible(d, planned, items) { ItemsPass(d, planned, items); }
  }

  // ---- the removals ----

  function SetOf(dirs: seq<Path>): set<Path> { set i | 0 <= i < |dirs| :: dirs[i] }

  /** What the loop asks of directory k. */
  ghost predicate PassesAt(d: Disk, claimed: set<Path>, dirs: seq<Path>, k: nat)
    requires k < |dirs|
  {
    && ResolvesDirectory(d, dirs[k]) && dirs[k] !in claimed + SetOf(dirs[..k])
    && (dirs[k] in d.dirs ==> ContentsClaimed(d, claimed + SetOf(dirs[..k + 1]), dirs[k]))
  }

  lemma {:induction false} RemovalsPassIff(d: Disk, base: Plan, dirs: seq<Path>)
    ensures PlanRemovals(d, base, dirs).Ok? <==> forall k :: 0 <= k < |dirs| ==> PassesAt(d, base.claimed, dirs, k)
    ensures PlanRemovals(d, base, dirs).Ok? ==> PlanRemovals(d, base, dirs).value.claimed == base.claimed + SetOf(dirs)
  {
    hide ContentsClaimed, ResolvesDirectory;
    if dirs != [] {
      var n := |dirs| - 1;
      RemovalsPassIff(d, base, dirs[..n]);
      forall k | 0 <= k < n ensures PassesAt(d, base.claimed, dirs[..n], k) <==> PassesAt(d, base.claimed, dirs, k) {
        assert dirs[..n][..k] == dirs[..k] && dirs[..n][..k + 1] == dirs[..k + 1];
      }
      assert dirs[..n + 1] == dirs;
      assert SetOf(dirs) == SetOf(dirs[..n]) + {dirs[n]};
      assert base.claimed + SetOf(dirs[..n]) + {dirs[n]} == base.claimed + SetOf(dirs);
      var before := PlanRemovals(d, base, dirs[..n]);
      if before.Ok? {
        assert RemovalStep(d, before.value, dirs[n]).Ok? <==> PassesAt(d, base.claimed, dirs, n);
      } else {
        var k :| 0 <= k < n && !PassesAt(d, base.claimed, dirs[..n], k);
        assert !PassesAt(d, base.claimed, dirs, k);
      }
    }
  }

  /** In deepest-first order what a directory holds comes before it. */
  lemma InOrderIff(d: Disk, claimed: set<Path>, dirs: seq<Path>)
    requires DeepFirst(dirs)
    ensures (forall k :: 0 <= k < |dirs| ==> PassesAt(d, claimed, dirs, k)) <==> RemovalsAdmissible(d, claimed, dirs)
  {
    hide ResolvesDirectory;
    if forall k :: 0 <= k < |dirs| ==> PassesAt(d, claimed, dirs, k) {
      forall i, j | 0 <= i < j < |dirs| ensures dirs[i] != dirs[j] {
        assert PassesAt(d, claimed, dirs, j) && dirs[..j][i] == dirs[i];
      }
      forall p | p in dirs
        ensures ResolvesDirectory(d, p) && p !in claimed
        ensures forall q :: p in d.dirs && (q in d.files || q in d.dirs) && IsChild(q, p) ==> q in claimed || q in dirs
      {
        var k :| 0 <= k < |dirs| && dirs[k] == p;
        assert PassesAt(d, claimed, dirs, k);
      }
    }
    if RemovalsAdmissible(d, claimed, dirs) {
      forall k | 0 <= k < |dirs| ensures PassesAt(d, claimed, dirs, k) {
        var p := dirs[k];
        assert p in dirs;
        forall q | p in d.dirs && (q in d.files || q in d.dirs) && IsChild(q, p) ensures q in claimed + SetOf(dirs[..k + 1]) {
          if q !in claimed {
            var j :| 0 <= j < |dirs| && dirs[j] == q;
            assert |q| == |p| + 1 && j < k;
            assert dirs[..k + 1][j] == q;
          }
        }
      }
    }
  }

  lemma AdmissibleInAnyOrder(d: Disk, claimed: set<Path>, a: seq<Path>, b: seq<Path>)
    requires multiset(a) == multiset(b) && RemovalsAdmissible(d, claimed, a)
    ensures RemovalsAdmissible(d, claimed, b)
  {
    hide ResolvesDirectory, IsChild;
    forall p ensures p in a <==> p in b {
      assert p in multiset(a) <==> p in multiset(b);
    }
    forall i, j | 0 <= i < j < |b| ensures b[i] != b[j] {
      if b[i] == b[j] {
        Once(a, b[i]);
        Twice(b, i, j);
      }
    }
  }

  /** Item by item, whatever order things are named in. */
  lemma AdmittedByItem(d: Disk, request: Request)
    ensures PlanRequest(d, request).Ok? <==> AdmissibleByItem(d, request)
  {
    hide PlanItems, PlanRemovals, Items, Deepest, DeepFirst, ItemsAdmissible, RemovalsAdmissible, AllClaims;
    var planned, items, dirs := Planned(request.directories), Items(request), Deepest(request.removeDirectories);
    ItemsAdmittedIff(d, planned, items);
    DeepestSorts(request.removeDirectories);
    if PlanItems(d, planned, items).Ok? {
      var base := PlanItems(d, planned, items).value;
      RemovalsPassIff(d, base, dirs);
      InOrderIff(d, base.claimed, dirs);
      if RemovalsAdmissible(d, base.claimed, dirs) { AdmissibleInAnyOrder(d, base.claimed, dirs, request.removeDirectories); }
      if RemovalsAdmissible(d, base.claimed, request.removeDirectories) { AdmissibleInAnyOrder(d, base.claimed, request.removeDirectories, dirs); }
    }
  }

  // ---- in terms of the request ----

  /** A file can stand there: it is no directory, and every directory above it is there or comes with these. */
  ghost predicate FilePlace(d: Disk, p: Path, creates: seq<Path>) {
    && p != [] && p !in d.dirs
    && forall q: Path :: q != [] && q < p ==> q !in d.files && (q in d.dirs || exists i :: 0 <= i < |creates| && q <= creates[i])
  }

  /** A directory can stand there: no file is in the way. */
  ghost predicate DirectoryPlace(d: Disk, p: Path) {
    p != [] && forall q: Path :: q != [] && q <= p ==> q !in d.files
  }

  ghost predicate ChangeAdmissible(d: Disk, change: Change, creates: seq<Path>) {
    && FilePlace(d, change.path, creates)
    && change.precondition == if change.path in d.files then Some(Digest(d.files[change.path].contents)) else None
  }

  ghost predicate MoveAdmissible(d: Disk, move: FileMove, creates: seq<Path>) {
    && FilePlace(d, move.from, []) && FilePlace(d, move.to, creates)
    && move.from in d.files && move.to !in d.files
    && move.precondition == Some(Digest(d.files[move.from].contents))
  }

  ghost predicate RemovalAdmissible(d: Disk, removal: FileRemoval) {
    FilePlace(d, removal.path, []) && removal.path in d.files && removal.precondition == Some(Digest(d.files[removal.path].contents))
  }

  /** Everything a request creates, writes, moves, moves onto or removes. */
  function NamedPaths(request: Request): (paths: seq<Path>) {
    request.directories
    + seq(|request.changes|, i requires 0 <= i < |request.changes| => request.changes[i].path)
    + seq(|request.moves|, i requires 0 <= i < |request.moves| => request.moves[i].from)
    + seq(|request.moves|, i requires 0 <= i < |request.moves| => request.moves[i].to)
    + seq(|request.removals|, i requires 0 <= i < |request.removals| => request.removals[i].path)
  }

  ghost predicate Admissible(d: Disk, request: Request) {
    var named, gone := NamedPaths(request), request.removeDirectories;
    && named + gone != []
    && (forall i, j :: 0 <= i < j < |named + gone| ==> (named + gone)[i] != (named + gone)[j])
    && (forall i :: 0 <= i < |request.directories| ==> DirectoryPlace(d, request.directories[i]))
    && (forall i :: 0 <= i < |request.changes| ==> ChangeAdmissible(d, request.changes[i], request.directories))
    && (forall i :: 0 <= i < |request.moves| ==> MoveAdmissible(d, request.moves[i], request.directories))
    && (forall i :: 0 <= i < |request.removals| ==> RemovalAdmissible(d, request.removals[i]))
    && (forall i :: 0 <= i < |gone| ==> DirectoryPlace(d, gone[i]))
    && (forall i, q: Path :: 0 <= i < |gone| && gone[i] in d.dirs && (q in d.files || q in d.dirs) && gone[i] < q && |q| == |gone[i]| + 1 ==>
          q in named + gone)
  }

  lemma PlaceIff(d: Disk, p: Path, creates: seq<Path>)
    ensures ResolvesForWrite(d, p, Planned(creates)) <==> FilePlace(d, p, creates)
  {
    forall q: Path | q != [] && q <= p ensures q in Planned(creates) <==> exists i :: 0 <= i < |creates| && q <= creates[i] {
      if i :| 0 <= i < |creates| && q <= creates[i] { assert creates[i][..|q|] == q; }
    }
    if ResolvesForWrite(d, p, Planned(creates)) {
      forall q: Path | q != [] && q < p
        ensures q !in d.files && (q in d.dirs || exists i :: 0 <= i < |creates| && q <= creates[i])
      {
        assert p[..|q|] == q;
      }
    }
  }

  lemma NothingPlannedThere()
    ensures Planned([]) == {}
  {}

  lemma DirectoryPlaceIff(d: Disk, p: Path)
    ensures ResolvesDirectory(d, p) <==> DirectoryPlace(d, p)
  {
    if ResolvesDirectory(d, p) {
      forall q: Path | q != [] && q <= p ensures q !in d.files { assert p[..|q|] == q; }
    }
  }

  ghost predicate ItemAdmissible(d: Disk, creates: seq<Path>, item: Item) {
    match item
    case CreateItem(dir) => DirectoryPlace(d, dir)
    case ChangeItem(change) => ChangeAdmissible(d, change, creates)
    case MoveItem(move) => MoveAdmissible(d, move, creates) && move.from != move.to
    case RemovalItem(removal) => RemovalAdmissible(d, removal)
  }

  lemma AcceptableIff(d: Disk, creates: seq<Path>, item: Item)
    ensures Acceptable(d, Planned(creates), item) <==> ItemAdmissible(d, creates, item)
  {
    hide FilePlace, DirectoryPlace, ResolvesForWrite, ResolvesDirectory, Planned;
    NothingPlannedThere();
    match item
    case CreateItem(dir) => DirectoryPlaceIff(d, dir);
    case ChangeItem(change) => PlaceIff(d, change.path, creates);
    case MoveItem(move) =>
      PlaceIff(d, move.from, []);
      PlaceIff(d, move.to, creates);
    case RemovalItem(removal) => PlaceIff(d, removal.path, []);
  }

  /** The item that the n-th named path belongs to. */
  function Owner(request: Request, n: nat): (k: int) {
    n - if n < |request.directories| + |request.changes| + |request.moves| then 0 else |request.moves|
  }

  lemma OwnerClaims(request: Request, n: nat)
    requires n < |NamedPaths(request)|
    ensures 0 <= Owner(request, n) < |Items(request)| && NamedPaths(request)[n] in Claims(Items(request)[Owner(request, n)])
  {}

  lemma OwnersDiffer(request: Request, n: nat, m: nat)
    requires n < m < |NamedPaths(request)| && Owner(request, n) == Owner(request, m)
    ensures var k := Owner(request, n);
            && 0 <= k < |Items(request)| && Items(request)[k].MoveItem?
            && NamedPaths(request)[n] == Items(request)[k].move.from && NamedPaths(request)[m] == Items(request)[k].move.to
  {}

  lemma ClaimedAt(request: Request, k: nat, p: Path) returns (n: nat)
    requires k < |Items(request)| && p in Claims(Items(request)[k])
    ensures n < |NamedPaths(request)| && NamedPaths(request)[n] == p && Owner(request, n) == k
  {
    var item := Items(request)[k];
    n := if item.RemovalItem? || (item.MoveItem? && p != item.move.from) then k + |request.moves| else k;
  }

  ghost predicate ItemsApart(request: Request) {
    && (forall i, j :: 0 <= i < j < |Items(request)| ==> Claims(Items(request)[i]) !! Claims(Items(request)[j]))
    && (forall i :: 0 <= i < |Items(request)| && Items(request)[i].MoveItem? ==> Items(request)[i].move.from != Items(request)[i].move.to)
  }

  predicate NoRepeats(paths: seq<Path>) { forall i, j :: 0 <= i < j < |paths| ==> paths[i] != paths[j] }

  lemma ApartIff(request: Request)
    ensures ItemsApart(request) <==> NoRepeats(NamedPaths(request))
    ensures forall p :: p in AllClaims(Items(request)) <==> p in NamedPaths(request)
  {
    hide Items, Claims, Owner, NamedPaths;
    var named, items := NamedPaths(request), Items(request);
    if ItemsApart(request) {
      forall i, j | 0 <= i < j < |named| ensures named[i] != named[j] {
        OwnerClaims(request, i);
        OwnerClaims(request, j);
        if Owner(request, i) == Owner(request, j) { OwnersDiffer(request, i, j); }
      }
    }
    if NoRepeats(named) {
      forall i, j | 0 <= i < j < |items| ensures Claims(items[i]) !! Claims(items[j]) {
        forall p | p in Claims(items[i]) && p in Claims(items[j]) ensures false {
          var n := ClaimedAt(request, i, p);
          var m := ClaimedAt(request, j, p);
          assert false;
        }
      }
      forall i | 0 <= i < |items| && items[i].MoveItem? ensures items[i].move.from != items[i].move.to { MoveApart(request, i); }
    }
    forall p ensures p in AllClaims(items) <==> p in named {
      if p in AllClaims(items) {
        var i :| 0 <= i < |items| && p in Claims(items[i]);
        var n := ClaimedAt(request, i, p);
      }
      if p in named {
        var n :| 0 <= n < |named| && named[n] == p;
        OwnerClaims(request, n);
      }
    }
  }

  lemma MoveApart(request: Request, i: nat)
    requires NoRepeats(NamedPaths(request)) && i < |Items(request)| && Items(request)[i].MoveItem?
    ensures Items(request)[i].move.from != Items(request)[i].move.to
  {
    var named := NamedPaths(request);
    assert named[i] == Items(request)[i].move.from && named[i + |request.moves|] == Items(request)[i].move.to;
  }

  ghost predicate EachAdmissible(d: Disk, request: Request) {
    && (forall i :: 0 <= i < |request.directories| ==> DirectoryPlace(d, request.directories[i]))
    && (forall i :: 0 <= i < |request.changes| ==> ChangeAdmissible(d, request.changes[i], request.directories))
    && (forall i :: 0 <= i < |request.moves| ==> MoveAdmissible(d, request.moves[i], request.directories))
    && (forall i :: 0 <= i < |request.removals| ==> RemovalAdmissible(d, request.removals[i]))
  }

  lemma EachIff(d: Disk, request: Request)
    ensures ItemsAdmissible(d, Planned(request.directories), Items(request)) <==> EachAdmissible(d, request) && NoRepeats(NamedPaths(request))
  {
    hide Acceptable, DirectoryPlace, ChangeAdmissible, MoveAdmissible, RemovalAdmissible, Planned, Claims, NamedPaths, NoRepeats;
    ApartIff(request);
    var items, creates := Items(request), request.directories;
    var a, b, c := |request.directories|, |request.changes|, |request.moves|;
    forall i | 0 <= i < |items| ensures Acceptable(d, Planned(creates), items[i]) <==> ItemAdmissible(d, creates, items[i]) {
      AcceptableIff(d, creates, items[i]);
    }
    if ItemsAdmissible(d, Planned(creates), items) {
      forall i | 0 <= i < |items| ensures ItemAdmissible(d, creates, items[i]) {
        assert Acceptable(d, Planned(creates), items[i]);
      }
      forall i | 0 <= i < |request.directories| ensures DirectoryPlace(d, request.directories[i]) {
        assert ItemAdmissible(d, creates, items[i]);
      }
      forall i | 0 <= i < |request.changes| ensures ChangeAdmissible(d, request.changes[i], creates) {
        assert ItemAdmissible(d, creates, items[a + i]);
      }
      forall i | 0 <= i < |request.moves| ensures MoveAdmissible(d, request.moves[i], creates) {
        assert ItemAdmissible(d, creates, items[a + b + i]);
      }
      forall i | 0 <= i < |request.removals| ensures RemovalAdmissible(d, request.removals[i]) {
        assert ItemAdmissible(d, creates, items[a + b + c + i]);
      }
    }
  }

  lemma JoinedApart(named: seq<Path>, gone: seq<Path>)
    ensures NoRepeats(named + gone) <==> NoRepeats(named) && NoRepeats(gone) && forall p :: p in gone ==> p !in named
  {
    var all := named + gone;
    if NoRepeats(all) {
      forall i, j | 0 <= i < j < |named| ensures named[i] != named[j] { assert all[i] != all[j]; }
      forall i, j | 0 <= i < j < |gone| ensures gone[i] != gone[j] { assert all[|named| + i] != all[|named| + j]; }
      forall i, j | 0 <= i < |named| && 0 <= j < |gone| ensures named[i] != gone[j] { assert all[i] != all[|named| + j]; }
    }
    if NoRepeats(named) && NoRepeats(gone) && forall p :: p in gone ==> p !in named {
      forall i, j | 0 <= i < j < |all| ensures all[i] != all[j] {
        if i < |named| <= j { assert all[j] in gone && all[i] in named; }
      }
    }
  }

  ghost predicate GoneAdmissible(d: Disk, named: seq<Path>, gone: seq<Path>) {
    && (forall i :: 0 <= i < |gone| ==> DirectoryPlace(d, gone[i]))
    && (forall i, q: Path :: 0 <= i < |gone| && gone[i] in d.dirs && (q in d.files || q in d.dirs) && gone[i] < q && |q| == |gone[i]| + 1 ==>
          q in named + gone)
  }

  lemma ChildIff(q: Path, p: Path)
    ensures IsChild(q, p) <==> p < q && |q| == |p| + 1
  {
    if IsChild(q, p) { assert q == p + [q[|q| - 1]]; }
    if p < q && |q| == |p| + 1 { assert q[..|p|] == p; }
  }

  lemma GoneIff(d: Disk, claimed: set<Path>, named: seq<Path>, gone: seq<Path>)
    requires forall p :: p in claimed <==> p in named
    ensures RemovalsAdmissible(d, claimed, gone) <==> GoneAdmissible(d, named, gone) && NoRepeats(gone) && forall p :: p in gone ==> p !in named
  {
    hide IsChild, DirectoryPlace, ResolvesDirectory;
    forall p ensures ResolvesDirectory(d, p) <==> DirectoryPlace(d, p) { DirectoryPlaceIff(d, p); }
    forall q: Path, p: Path ensures IsChild(q, p) <==> p < q && |q| == |p| + 1 { ChildIff(q, p); }
    if GoneAdmissible(d, named, gone) && NoRepeats(gone) && forall p :: p in gone ==> p !in named {
      forall p, q | p in gone && p in d.dirs && (q in d.files || q in d.dirs) && IsChild(q, p) ensures q in claimed || q in gone {
        var i :| 0 <= i < |gone| && gone[i] == p;
        assert gone[i] < q && q in named + gone;
      }
    }
  }

  /** A request is admitted exactly when it names something and nothing twice, every path it names
      can be what it is to be, every file it rewrites, moves or removes is what was expected, no file
      is moved onto another, and a directory to be removed holds nothing that is not named too. */
  lemma AdmittedIff(d: Disk, request: Request)
    ensures PlanRequest(d, request).Ok? <==> Admissible(d, request)
  {
    hide PlanRequest, Items, AllClaims, ItemsAdmissible, RemovalsAdmissible, DirectoryPlace, ChangeAdmissible, MoveAdmissible, RemovalAdmissible, NoRepeats;
    var named, gone := NamedPaths(request), request.removeDirectories;
    AdmittedByItem(d, request);
    EachIff(d, request);
    ApartIff(request);
    JoinedApart(named, gone);
    GoneIff(d, AllClaims(Items(request)), named, gone);
    assert IsEmptyRequest(request) <==> named + gone == [];
    AdmissibleParts(d, request);
  }

  lemma AdmissibleParts(d: Disk, request: Request)
    ensures var named, gone := NamedPaths(request), request.removeDirectories;
            Admissible(d, request) <==> named + gone != [] && NoRepeats(named + gone) && EachAdmissible(d, request) && GoneAdmissible(d, named, gone)
  {
    hide NamedPaths, DirectoryPlace, ChangeAdmissible, MoveAdmissible, RemovalAdmissible;
  }

  // ---- what a refusal says ----

  ghost predicate NoPlace(d: Disk, request: Request, p: Path) {
    || (p in request.directories + request.removeDirectories && !DirectoryPlace(d, p))
    || (exists i :: 0 <= i < |request.changes| && request.changes[i].path == p && !FilePlace(d, p, request.directories))
    || (exists i :: 0 <= i < |request.moves| && request.moves[i].from == p && !FilePlace(d, p, []))
    || (exists i :: 0 <= i < |request.moves| && request.moves[i].to == p && !FilePlace(d, p, request.directories))
    || (exists i :: 0 <= i < |request.removals| && request.removals[i].path == p && !FilePlace(d, p, []))
  }

  /** The file is there and is not what the request expected, or the request expected one and there is none. */
  ghost predicate Unexpected(d: Disk, request: Request, p: Path) {
    var found := if p in d.files then Some(Digest(d.files[p].contents)) else None;
    || (exists i :: 0 <= i < |request.changes| && request.changes[i].path == p && request.changes[i].precondition != found)
    || (p in d.files && exists i :: 0 <= i < |request.moves| && request.moves[i].from == p && request.moves[i].precondition != found)
    || (p in d.files && exists i :: 0 <= i < |request.removals| && request.removals[i].path == p && request.removals[i].precondition != found)
  }

  ghost predicate SourceMissing(d: Disk, request: Request) {
    || (exists i :: 0 <= i < |request.moves| && request.moves[i].from !in d.files)
    || (exists i :: 0 <= i < |request.removals| && request.removals[i].path !in d.files)
  }

  ghost predicate TargetTaken(d: Disk, request: Request) { exists i :: 0 <= i < |request.moves| && request.moves[i].to in d.files }

  /** A directory to be removed holds something that the request does not name. */
  ghost predicate LeftInside(d: Disk, request: Request) {
    exists i, q: Path :: 0 <= i < |request.removeDirectories| && (q in d.files || q in d.dirs)
      && request.removeDirectories[i] < q && |q| == |request.removeDirectories[i]| + 1
      && q !in NamedPaths(request) + request.removeDirectories
  }

  ghost predicate Truthful(d: Disk, request: Request, error: Error) {
    match error
    case NoChanges => NamedPaths(request) + request.removeDirectories == []
    case DuplicatePath => !NoRepeats(NamedPaths(request) + request.removeDirectories)
    case DirectoryNotEmpty => LeftInside(d, request)
    case MoveTargetExists => TargetTaken(d, request)
    case MissingSource => SourceMissing(d, request)
    case ConflictError(p) => Unexpected(d, request, p)
    case Unresolvable(p) => NoPlace(d, request, p)
    case Invalid => false
  }

  lemma {:induction false} RefusedItem(d: Disk, planned: set<Path>, items: seq<Item>) returns (k: nat)
    requires PlanItems(d, planned, items).Err?
    ensures k < |items| && ItemError(d, planned, AllClaims(items[..k]), items[k]) == Some(PlanItems(d, planned, items).error)
    ensures ItemsAdmissible(d, planned, items[..k])
  {
    hide ItemError, Acceptable, Claims, AllClaims;
    var n := |items| - 1;
    if PlanItems(d, planned, items[..n]).Err? {
      k := RefusedItem(d, planned, items[..n]);
      assert items[..n][..k] == items[..k];
    } else {
      k := n;
      ItemsAdmittedIff(d, planned, items[..n]);
    }
  }

  lemma ItemTells(d: Disk, request: Request, k: nat, error: Error)
    requires k < |Items(request)| && ItemError(d, Planned(request.directories), AllClaims(Items(request)[..k]), Items(request)[k]) == Some(error)
    ensures error != DuplicatePath ==> Truthful(d, request, error)
    ensures error == DuplicatePath ==> !ItemsApart(request)
  {
    hide FilePlace, DirectoryPlace, ResolvesForWrite, ResolvesDirectory, Planned, NamedPaths, NoRepeats, LeftInside;
    NothingPlannedThere();
    var item, creates := Items(request)[k], request.directories;
    ItemFrom(request, k);
    match item
    case CreateItem(dir) => DirectoryPlaceIff(d, dir);
    case ChangeItem(change) => PlaceIff(d, change.path, creates);
    case MoveItem(move) =>
      PlaceIff(d, move.from, []);
      PlaceIff(d, move.to, creates);
    case RemovalItem(removal) => PlaceIff(d, removal.path, []);
  }

  lemma ItemFrom(request: Request, k: nat)
    requires k < |Items(request)|
    ensures var item := Items(request)[k];
            match item
            case CreateItem(dir) => dir in request.directories
            case ChangeItem(change) => change in request.changes
            case MoveItem(move) => move in request.moves
            case RemovalItem(removal) => removal in request.removals
  {}

  lemma {:induction false} RefusedRemoval(d: Disk, base: Plan, dirs: seq<Path>) returns (k: nat, so: Plan)
    requires PlanRemovals(d, base, dirs).Err?
    ensures k < |dirs| && so.claimed == base.claimed + SetOf(dirs[..k])
    ensures RemovalStep(d, so, dirs[k]) == PlanRemovals(d, base, dirs)
  {
    hide RemovalStep, SetOf;
    var n := |dirs| - 1;
    var before := PlanRemovals(d, base, dirs[..n]);
    if before.Err? {
      k, so := RefusedRemoval(d, base, dirs[..n]);
      assert dirs[..n][..k] == dirs[..k];
    } else {
      k, so := n, before.value;
      RemovalsPassIff(d, base, dirs[..n]);
    }
  }

  /** What a directory holds comes before it. */
  lemma DeeperCameBefore(dirs: seq<Path>, k: nat, q: Path)
    requires DeepFirst(dirs) && k < |dirs| && |q| > |dirs[k]|
    ensures q in dirs ==> q in SetOf(dirs[..k])
  {
    if q in dirs {
      var j :| 0 <= j < |dirs| && dirs[j] == q;
      assert dirs[..k][j] == q;
    }
  }

  lemma RemovalTells(d: Disk, request: Request, dirs: seq<Path>, k: nat, so: Plan)
    requires DeepFirst(dirs) && multiset(dirs) == multiset(request.removeDirectories) && k < |dirs|
    requires so.claimed == AllClaims(Items(request)) + SetOf(dirs[..k]) && RemovalStep(d, so, dirs[k]).Err?
    ensures Truthful(d, request, RemovalStep(d, so, dirs[k]).error)
  {
    hide Items, NamedPaths, AllClaims, DirectoryPlace, ResolvesDirectory, Claims, ItemsApart;
    var gone, p, named := request.removeDirectories, dirs[k], NamedPaths(request);
    DirectoryPlaceIff(d, p);
    ApartIff(request);
    forall q ensures q in dirs <==> q in gone { assert q in multiset(dirs) <==> q in multiset(gone); }
    assert p in gone;
    if p in so.claimed {
      JoinedApart(named, gone);
      if p !in named {
        var j :| 0 <= j < k && dirs[j] == p;
        Twice(dirs, j, k);
        assert multiset(gone)[p] > 1;
        if NoRepeats(gone) { Once(gone, p); }
      }
    } else if RemovalStep(d, so, p).error == DirectoryNotEmpty {
      var q :| (q in d.files || q in d.dirs) && IsChild(q, p) && q !in so.claimed + {p};
      ChildIff(q, p);
      DeeperCameBefore(dirs, k, q);
      var i :| 0 <= i < |gone| && gone[i] == p;
      assert gone[i] < q;
    }
  }

  /** A refused request hears what is wrong with it. */
  lemma RefusalTells(d: Disk, request: Request)
    requires PlanRequest(d, request).Err?
    ensures Truthful(d, request, PlanRequest(d, request).error)
  {
    hide PlanItems, PlanRemovals, Items, Planned, Deepest, DeepFirst, ItemError, RemovalStep, NamedPaths, Truthful, AllClaims, NoRepeats;
    var planned, items, dirs := Planned(request.directories), Items(request), Deepest(request.removeDirectories);
    if IsEmptyRequest(request) {
      NothingNamed(d, request);
    } else if PlanItems(d, planned, items).Err? {
      var k := RefusedItem(d, planned, items);
      ItemTells(d, request, k, PlanItems(d, planned, items).error);
      ApartIff(request);
      if PlanItems(d, planned, items).error == DuplicatePath { RepeatTells(d, request); }
    } else {
      var base := PlanItems(d, planned, items).value;
      ItemsAdmittedIff(d, planned, items);
      DeepestSorts(request.removeDirectories);
      var k, so := RefusedRemoval(d, base, dirs);
      RemovalTells(d, request, dirs, k, so);
    }
  }

  lemma NothingNamed(d: Disk, request: Request)
    requires IsEmptyRequest(request)
    ensures Truthful(d, request, NoChanges)
  {}

  lemma RepeatTells(d: Disk, request: Request)
    requires !NoRepeats(NamedPaths(request))
    ensures Truthful(d, request, DuplicatePath)
  {
    hide NamedPaths;
    JoinedApart(NamedPaths(request), request.removeDirectories);
  }
}
