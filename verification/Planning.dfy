/** Requests, their checks, and their entries. */
module Planning {
  // What a request asks for, which requests are admitted on a given disk, and the
  // journal entries an admitted one turns into.

  import opened Results
  import opened Disks
  import opened Journal

  datatype Change = Change(path: Path, contents: string, precondition: Option<Digest>, skipBackup: bool)
  datatype FileMove = FileMove(from: Path, to: Path, precondition: Option<Digest>)
  datatype FileRemoval = FileRemoval(path: Path, precondition: Option<Digest>, backup: bool)

  datatype Request = Request(directories: seq<Path>, changes: seq<Change>, moves: seq<FileMove>,
                             removals: seq<FileRemoval>, removeDirectories: seq<Path>)

  datatype Error = NoChanges | DuplicatePath | DirectoryNotEmpty | MoveTargetExists | MissingSource
                 | ConflictError(path: Path) | Unresolvable(path: Path) | Invalid

  /** One thing a request asks of a file or asks to be created. */
  datatype Item = CreateItem(dir: Path) | ChangeItem(change: Change) | MoveItem(move: FileMove) | RemovalItem(removal: FileRemoval)

  function Creates(dirs: seq<Path>): seq<Item> {
    seq(|dirs|, i requires 0 <= i < |dirs| => CreateItem(dirs[i]))
  }

  /** The order in which Commit looks at them: directories, changes, moves, removals. */
  function Items(request: Request): seq<Item> {
    Creates(request.directories)
    + seq(|request.changes|, i requires 0 <= i < |request.changes| => ChangeItem(request.changes[i]))
    + seq(|request.moves|, i requires 0 <= i < |request.moves| => MoveItem(request.moves[i]))
    + seq(|request.removals|, i requires 0 <= i < |request.removals| => RemovalItem(request.removals[i]))
  }

  function ItemRank(item: Item): nat {
    match item case CreateItem(_) => 0 case ChangeItem(_) => 1 case MoveItem(_) => 2 case RemovalItem(_) => 3
  }

  lemma ItemsInOrder(request: Request)
    ensures forall i, j :: 0 <= i < j < |Items(request)| ==> ItemRank(Items(request)[i]) <= ItemRank(Items(request)[j])
  {}

  /** Every directory the request creates, and everything above it. */
  function Planned(creates: seq<Path>): set<Path> {
    set i, k | 0 <= i < |creates| && 0 < k <= |creates[i]| :: creates[i][..k]
  }

  function Claims(item: Item): set<Path> {
    match item
    case CreateItem(dir) => {dir}
    case ChangeItem(change) => {change.path}
    case MoveItem(move) => {move.from, move.to}
    case RemovalItem(removal) => {removal.path}
  }

  // ---- resolving a path ----

  /** A directory that exists or can be made: nothing on the way is a file. */
  predicate ResolvesDirectory(d: Disk, p: Path) {
    p != [] && forall k :: 0 < k <= |p| ==> p[..k] !in d.files
  }

  /** A file that exists or can be made under the given coming directories. */
  predicate ResolvesForWrite(d: Disk, p: Path, planned: set<Path>) {
    && p != [] && p !in d.dirs
    && forall k :: 0 < k < |p| ==> p[..k] !in d.files && (p[..k] in d.dirs || p[..k] in planned)
  }

  function CurrentDigest(d: Disk, p: Path): Option<Digest> {
    if p in d.files then Some(Digest(d.files[p].contents)) else None
  }

  function CurrentMode(d: Disk, p: Path): Mode {
    if p in d.files then d.files[p].mode & FILE_PERMISSION else FILE_PERMISSION
  }

  /** The first thing wrong with an item, in the order Commit asks. */
  function ItemError(d: Disk, planned: set<Path>, claimed: set<Path>, item: Item): Option<Error> {
    match item
    case CreateItem(dir) =>
      if !ResolvesDirectory(d, dir) then Some(Unresolvable(dir))
      else if dir in claimed then Some(DuplicatePath) else None
    case ChangeItem(change) =>
      if !ResolvesForWrite(d, change.path, planned) then Some(Unresolvable(change.path))
      else if change.path in claimed then Some(DuplicatePath)
      else if CurrentDigest(d, change.path) != change.precondition then Some(ConflictError(change.path)) else None
    case MoveItem(move) =>
      if !ResolvesForWrite(d, move.from, {}) then Some(Unresolvable(move.from))
      else if !ResolvesForWrite(d, move.to, planned) then Some(Unresolvable(move.to))
      else if move.from in claimed || move.to in claimed || move.from == move.to then Some(DuplicatePath)
      else if move.to in d.files then Some(MoveTargetExists)
      else SourceError(d, move.from, move.precondition)
    case RemovalItem(removal) =>
      if !ResolvesForWrite(d, removal.path, {}) then Some(Unresolvable(removal.path))
      else if removal.path in claimed then Some(DuplicatePath)
      else SourceError(d, removal.path, removal.precondition)
  }

  function SourceError(d: Disk, p: Path, precondition: Option<Digest>): Option<Error> {
    if p !in d.files then Some(MissingSource)
    else if CurrentDigest(d, p) != precondition then Some(ConflictError(p)) else None
  }

  const DIRECTORY_PERMISSION: Mode := 0x1C0

  function ItemEntry(d: Disk, item: Item): Entry {
    match item
    case CreateItem(dir) =>
      Entry(MakeDir, dir, [], None, None, false, dir in d.dirs, DIRECTORY_PERMISSION, None, None)
    case ChangeItem(change) =>
      Entry(Write, change.path, [], None, None, change.skipBackup, change.path in d.files,
            CurrentMode(d, change.path), Some(Digest(change.contents)), CurrentDigest(d, change.path))
    case MoveItem(move) =>
      Entry(Move, move.from, move.to, None, None, false, true,
            CurrentMode(d, move.from), CurrentDigest(d, move.from), CurrentDigest(d, move.from))
    case RemovalItem(removal) =>
      Entry(RemoveFile, removal.path, [], None, None, !removal.backup, true,
            CurrentMode(d, removal.path), CurrentDigest(d, removal.path), CurrentDigest(d, removal.path))
  }

  datatype Plan = Plan(entries: seq<Entry>, claimed: set<Path>)

  function PlanItems(d: Disk, planned: set<Path>, items: seq<Item>): Result<Plan, Error> {
    if items == [] then Ok(Plan([], {}))
    else
      var item := items[|items| - 1];
      var before := PlanItems(d, planned, items[..|items| - 1]);
      if before.Err? then before
      else
        var error := ItemError(d, planned, before.value.claimed, item);
        if error.Some? then Err(error.value)
        else Ok(Plan(before.value.entries + [ItemEntry(d, item)], before.value.claimed + Claims(item)))
  }

  // ---- directory removals ----

  function RemoveDirEntry(p: Path): Entry {
    Entry(RemoveDir, p, [], None, None, false, true, DIRECTORY_PERMISSION, None, None)
  }

  /** Everything in the directory is claimed. */
  predicate ContentsClaimed(d: Disk, claimed: set<Path>, p: Path) {
    && (forall q :: q in d.files && IsChild(q, p) ==> q in claimed)
    && (forall q :: q in d.dirs && IsChild(q, p) ==> q in claimed)
  }

  function RemovalStep(d: Disk, so: Plan, p: Path): Result<Plan, Error> {
    if !ResolvesDirectory(d, p) then Err(Unresolvable(p))
    else if p in so.claimed then Err(DuplicatePath)
    else
      var claimed := so.claimed + {p};
      if p !in d.dirs then Ok(Plan(so.entries, claimed))
      else if !ContentsClaimed(d, claimed, p) then Err(DirectoryNotEmpty)
      else Ok(Plan(so.entries + [RemoveDirEntry(p)], claimed))
  }

  /** The removals in the order they are applied; one whose directory is already gone is dropped. */
  function PlanRemovals(d: Disk, before: Plan, dirs: seq<Path>): Result<Plan, Error> {
    if dirs == [] then Ok(before)
    else
      var so := PlanRemovals(d, before, dirs[..|dirs| - 1]);
      if so.Err? then so else RemovalStep(d, so.value, dirs[|dirs| - 1])
  }

  /** Deepest first, otherwise in the order given. */
  function InsertDeepest(p: Path, sorted: seq<Path>): seq<Path> {
    if sorted == [] || |sorted[0]| < |p| then [p] + sorted
    else [sorted[0]] + InsertDeepest(p, sorted[1..])
  }

  function Deepest(dirs: seq<Path>): seq<Path> {
    if dirs == [] then [] else InsertDeepest(dirs[|dirs| - 1], Deepest(dirs[..|dirs| - 1]))
  }

  predicate DeepFirst(dirs: seq<Path>) {
    forall i, j :: 0 <= i < j < |dirs| ==> |dirs[i]| >= |dirs[j]|
  }

  lemma {:induction false} InsertedSame(p: Path, sorted: seq<Path>)
    ensures multiset(InsertDeepest(p, sorted)) == multiset(sorted) + multiset{p}
  {
    if sorted != [] && |sorted[0]| >= |p| {
      InsertedSame(p, sorted[1..]);
      assert sorted == [sorted[0]] + sorted[1..];
    }
  }

  lemma {:induction false} InsertedDeepFirst(p: Path, sorted: seq<Path>)
    requires DeepFirst(sorted)
    ensures DeepFirst(InsertDeepest(p, sorted))
  {
    if sorted != [] && |sorted[0]| >= |p| {
      var rest := InsertDeepest(p, sorted[1..]);
      InsertedDeepFirst(p, sorted[1..]);
      InsertedSame(p, sorted[1..]);
      forall j | 0 <= j < |rest| ensures |rest[j]| <= |sorted[0]| {
        assert rest[j] in multiset(rest);
      }
    }
  }

  lemma {:induction false} DeepestSorts(dirs: seq<Path>)
    ensures DeepFirst(Deepest(dirs)) && multiset(Deepest(dirs)) == multiset(dirs)
  {
    if dirs != [] {
      DeepestSorts(dirs[..|dirs| - 1]);
      InsertedDeepFirst(dirs[|dirs| - 1], Deepest(dirs[..|dirs| - 1]));
      InsertedSame(dirs[|dirs| - 1], Deepest(dirs[..|dirs| - 1]));
      assert dirs == dirs[..|dirs| - 1] + [dirs[|dirs| - 1]];
    }
  }

  predicate IsEmptyRequest(request: Request) {
    request.directories == [] && request.changes == [] && request.moves == [] && request.removals == []
    && request.removeDirectories == []
  }

  function PlanRequest(d: Disk, request: Request): Result<Plan, Error> {
    if IsEmptyRequest(request) then Err(NoChanges)
    else
      var items := PlanItems(d, Planned(request.directories), Items(request));
      if items.Err? then items else PlanRemovals(d, items.value, Deepest(request.removeDirectories))
  }

  // ---- the planning loops of Commit ----

  method PlanItemsLoop(d: Disk, planned: set<Path>, items: seq<Item>) returns (result: Result<Plan, Error>)
    ensures result == PlanItems(d, planned, items)
  {
    var entries: seq<Entry>, claimed: set<Path> := [], {};
    for index := 0 to |items|
      invariant PlanItems(d, planned, items[..index]) == Ok(Plan(entries, claimed))
    {
      assert items[..index + 1][..index] == items[..index];
      var error := ItemError(d, planned, claimed, items[index]);
      if error.Some? {
        FirstErrorStands(d, planned, items, index + 1);
        return Err(error.value);
      }
      claimed := claimed + Claims(items[index]);
      entries := entries + [ItemEntry(d, items[index])];
    }
    assert items[..|items|] == items;
    return Ok(Plan(entries, claimed));
  }

  lemma {:induction false} FirstErrorStands(d: Disk, planned: set<Path>, items: seq<Item>, n: nat)
    requires n <= |items| && PlanItems(d, planned, items[..n]).Err?
    ensures PlanItems(d, planned, items) == PlanItems(d, planned, items[..n])
    decreases |items| - n
  {
    if n == |items| {
      assert items[..n] == items;
    } else {
      assert items[..n + 1][..n] == items[..n];
      FirstErrorStands(d, planned, items, n + 1);
    }
  }

  method PlanRemovalsLoop(d: Disk, before: Plan, dirs: seq<Path>) returns (result: Result<Plan, Error>)
    ensures result == PlanRemovals(d, before, Deepest(dirs))
  {
    var ordered := Deepest(dirs);
    var plan := before;
    for index := 0 to |ordered|
      invariant PlanRemovals(d, before, ordered[..index]) == Ok(plan)
    {
      var target := ordered[index];
      assert ordered[..index + 1][..index] == ordered[..index];
      var step := RemovalStep(d, plan, target);
      if step.Err? {
        FirstRefusalStands(d, before, ordered, index + 1);
        return step;
      }
      plan := step.value;
    }
    assert ordered[..|ordered|] == ordered;
    return Ok(plan);
  }

  lemma {:induction false} FirstRefusalStands(d: Disk, before: Plan, dirs: seq<Path>, n: nat)
    requires n <= |dirs| && PlanRemovals(d, before, dirs[..n]).Err?
    ensures PlanRemovals(d, before, dirs) == PlanRemovals(d, before, dirs[..n])
    decreases |dirs| - n
  {
    if n == |dirs| {
      assert dirs[..n] == dirs;
    } else {
      assert dirs[..n + 1][..n] == dirs[..n];
      FirstRefusalStands(d, before, dirs, n + 1);
    }
  }

  method PlanRequestLoop(d: Disk, request: Request) returns (result: Result<Plan, Error>)
    ensures result == PlanRequest(d, request)
  {
    if IsEmptyRequest(request) { return Err(NoChanges); }
    var items := PlanItemsLoop(d, Planned(request.directories), Items(request));
    if items.Err? { return items; }
    result := PlanRemovalsLoop(d, items.value, request.removeDirectories);
  }
}
