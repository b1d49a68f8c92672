/** Journal entries and what they do to a disk. */
module Journal {
  // Journal entries and what applying or undoing them does to a disk.
  //
  // `start` is the disk as staging left it: new contents wait in temporary files, new
  // directories exist, nothing named by the request has changed.  The theorems describe
  // every later disk by how many entries have been applied to `start`.

  import opened Results
  import opened Disks

  datatype Action = Write | Move | RemoveFile | MakeDir | RemoveDir

  type Id = string

  /** Where the sealed copy of a replaced file is kept. */
  datatype BackupKey = BackupKey(id: Id, path: Path)

  datatype Entry = Entry(action: Action, path: Path, target: Path, temp: Option<Path>,
                         backup: Option<BackupKey>, noBackup: bool, hadPrevious: bool,
                         mode: Mode, digest: Option<Digest>, previousDigest: Option<Digest>)

  datatype Status = Staging | Staged | Completed | RolledBack

  datatype Record = Record(id: Id, status: Status, committed: nat, entries: seq<Entry>)

  predicate OnDirectory(e: Entry) { e.action == MakeDir || e.action == RemoveDir }

  // ---- applying ----

  /** The call that commits one entry. */
  function Effect(d: Disk, e: Entry): Option<Disk> {
    match e.action
    case Write => if e.temp.None? then None else Rename(d, e.temp.value, e.path)
    case Move => Rename(d, e.path, e.target)
    case RemoveFile => (match Remove(d, e.path) case Removed(after) => Some(after) case _ => None)
    case MakeDir => EnsureDir(d, e.path)
    case RemoveDir => (match Remove(d, e.path) case Removed(after) => Some(after) case Absent => Some(d) case NotEmpty => None)
  }

  /** `start` with its first k entries applied. */
  function Run(start: Disk, entries: seq<Entry>, k: nat): Option<Disk>
    requires k <= |entries|
  {
    if k == 0 then Some(start)
    else
      var before := Run(start, entries, k - 1);
      if before.None? then None else Effect(before.value, entries[k - 1])
  }

  // ---- what staging guarantees ----

  /** The files an entry may change. */
  function Touches(e: Entry): set<Path> {
    match e.action
    case Write => if e.temp.None? then {e.path} else {e.path, e.temp.value}
    case Move => {e.path, e.target}
    case RemoveFile => {e.path}
    case MakeDir => {}
    case RemoveDir => {}
  }

  ghost predicate Disjoint(entries: seq<Entry>) {
    forall i, j :: 0 <= i < j < |entries| ==> Touches(entries[i]) !! Touches(entries[j])
  }

  function Rank(a: Action): nat {
    match a case MakeDir => 0 case Write => 1 case Move => 2 case RemoveFile => 3 case RemoveDir => 4
  }

  /** Directories first, directory removals last. */
  ghost predicate InOrder(entries: seq<Entry>) {
    forall i, j :: 0 <= i < j < |entries| ==> Rank(entries[i].action) <= Rank(entries[j].action)
  }

  ghost predicate DeepestFirst(entries: seq<Entry>) {
    forall i, j :: 0 <= i < j < |entries| && entries[i].action == RemoveDir && entries[j].action == RemoveDir ==>
      |entries[i].path| >= |entries[j].path|
  }

  /** What one entry may rely on when nothing has been applied. */
  ghost predicate Ready(start: Disk, e: Entry) {
    match e.action
    case Write =>
      && e.temp.Some? && e.temp.value != e.path && e.temp.value in start.files
      && e.path != [] && Parent(e.path) in start.dirs
    case Move =>
      && e.path != e.target && e.path in start.files && e.target !in start.files
      && e.target != [] && Parent(e.target) in start.dirs
    case RemoveFile => e.path in start.files
    case MakeDir => e.path in start.dirs
    case RemoveDir => e.path in start.dirs && e.path != []
  }

  /** The place a file is to take is not a directory.  Planning does not rule this out
      when the place is also on the way to a directory the same request creates. */
  ghost predicate Placed(start: Disk, e: Entry) {
    (e.action == Write ==> e.path !in start.dirs) && (e.action == Move ==> e.target !in start.dirs)
  }

  /** The paths an entry is about, as planned. */
  function About(e: Entry): set<Path> {
    if e.action == Move then {e.path, e.target} else {e.path}
  }

  predicate MakesNew(e: Entry) { e.action == MakeDir && !e.hadPrevious }

  /** No other entry is about the directory an entry makes or removes, and no directory
      is removed below a new one. */
  ghost predicate Apart(entries: seq<Entry>) {
    && (forall i, j :: 0 <= i < |entries| && 0 <= j < |entries| && i != j && OnDirectory(entries[i]) ==>
          entries[i].path !in About(entries[j]))
    && (forall i, j :: 0 <= i < |entries| && 0 <= j < |entries| && MakesNew(entries[i]) && entries[j].action == RemoveDir ==>
          !(entries[i].path <= entries[j].path))
  }

  ghost predicate StagedOn(start: Disk, entries: seq<Entry>) {
    && WellFormed(start) && Disjoint(entries) && InOrder(entries) && DeepestFirst(entries) && Apart(entries)
    && forall i :: 0 <= i < |entries| ==> Ready(start, entries[i])
  }

  // ---- the files, entry by entry ----

  /** The entry has happened. */
  ghost predicate Done(d: Disk, start: Disk, e: Entry) {
    match e.action
    case Write => e.temp.Some? && Lookup(d, e.path) == Lookup(start, e.temp.value) && e.temp.value !in d.files
    case Move => Lookup(d, e.target) == Lookup(start, e.path) && e.path !in d.files
    case RemoveFile => e.path !in d.files
    case MakeDir => true
    case RemoveDir => true
  }

  /** The entry has not happened. */
  ghost predicate Waiting(d: Disk, start: Disk, e: Entry) {
    forall p :: p in Touches(e) ==> Lookup(d, p) == Lookup(start, p)
  }

  function Touched(entries: seq<Entry>): set<Path> {
    set i, p | 0 <= i < |entries| && p in Touches(entries[i]) :: p
  }

  ghost predicate Elsewhere(d: Disk, start: Disk, entries: seq<Entry>) {
    forall p :: p !in Touched(entries) ==> Lookup(d, p) == Lookup(start, p)
  }

  /** Exactly the first k entries have happened to the files. */
  ghost predicate Applied(d: Disk, start: Disk, entries: seq<Entry>, k: nat)
    requires k <= |entries|
  {
    && (forall i :: 0 <= i < k ==> Done(d, start, entries[i]))
    && (forall i :: k <= i < |entries| ==> Waiting(d, start, entries[i]))
    && Elsewhere(d, start, entries)
  }

  /** The directories whose removal is among the first k entries. */
  function RemovedDirs(entries: seq<Entry>, k: nat): set<Path>
    requires k <= |entries|
  {
    set i | 0 <= i < k && entries[i].action == RemoveDir :: entries[i].path
  }

  // ---- one entry at a time ----

  lemma EffectKeepsTree(d: Disk, e: Entry)
    requires WellFormed(d) && Effect(d, e).Some?
    ensures WellFormed(Effect(d, e).value)
  {
    match e.action
    case Write =>
    case Move =>
    case RemoveFile =>
    case MakeDir => EnsureDirKeepsTree(d, e.path);
    case RemoveDir =>
  }

  lemma EffectDone(d: Disk, start: Disk, e: Entry)
    requires Ready(start, e) && Waiting(d, start, e) && Effect(d, e).Some?
    ensures Done(Effect(d, e).value, start, e)
  {
    match e.action {
      case Write => assert e.temp.value in Touches(e) && e.path in Touches(e);
      case Move => assert e.path in Touches(e) && e.target in Touches(e);
      case RemoveFile =>
      case MakeDir =>
      case RemoveDir =>
    }
  }

  // ---- forwards: the state after k entries ----

  /** Exactly the first k entries have happened, to files and directories alike. */
  ghost predicate Reached(d: Disk, start: Disk, entries: seq<Entry>, k: nat)
    requires k <= |entries|
  {
    && WellFormed(d) && Applied(d, start, entries, k) && d.dirs == start.dirs - RemovedDirs(entries, k)
    && forall i :: 0 <= i < k ==> Placed(start, entries[i])
  }

  lemma NothingRemovedYet(entries: seq<Entry>, k: nat)
    requires InOrder(entries) && k < |entries| && entries[k].action != RemoveDir
    ensures RemovedDirs(entries, k) == {}
  {
    forall i | 0 <= i < k ensures entries[i].action != RemoveDir {
      assert Rank(entries[i].action) <= Rank(entries[k].action);
    }
  }

  lemma StartReached(start: Disk, entries: seq<Entry>)
    requires WellFormed(start)
    ensures Reached(start, start, entries, 0)
  {
    assert RemovedDirs(entries, 0) == {};
  }

  /** A directory of the staged disk is not a file now. */
  lemma DirectoryStaysNoFile(d: Disk, start: Disk, entries: seq<Entry>, k: nat, p: Path)
    requires StagedOn(start, entries) && k <= |entries| && Applied(d, start, entries, k) && p in start.dirs
    requires forall i :: 0 <= i < k ==> Placed(start, entries[i])
    ensures p !in d.files
  {
    forall i | 0 <= i < |entries| && p in Touches(entries[i]) ensures p !in d.files {
      assert Ready(start, entries[i]);
      if i >= k { assert Waiting(d, start, entries[i]); }
    }
    assert p !in Touched(entries) ==> Lookup(d, p) == Lookup(start, p);
  }

  lemma OthersUnmoved(d: Disk, after: Disk, start: Disk, entries: seq<Entry>, k: nat)
    requires Disjoint(entries) && k < |entries| && Applied(d, start, entries, k)
    requires Done(after, start, entries[k])
    requires forall p :: p !in Touches(entries[k]) ==> Lookup(after, p) == Lookup(d, p)
    ensures Applied(after, start, entries, k + 1)
  {
    forall i | 0 <= i < k ensures Done(after, start, entries[i]) {
      SameFilesSameDone(d, after, start, entries[i], entries[k]);
    }
    forall i | k + 1 <= i < |entries| ensures Waiting(after, start, entries[i]) {
      assert Touches(entries[k]) !! Touches(entries[i]);
    }
    forall p | p !in Touched(entries) ensures Lookup(after, p) == Lookup(start, p) {
      assert p !in Touches(entries[k]);
    }
  }

  lemma SameFilesSameDone(d: Disk, after: Disk, start: Disk, e: Entry, other: Entry)
    requires Touches(e) !! Touches(other) && Done(d, start, e)
    requires forall p :: p !in Touches(other) ==> Lookup(after, p) == Lookup(d, p)
    ensures Done(after, start, e)
  {
    assert forall p :: p in Touches(e) ==> p !in Touches(other);
    match e.action {
      case Write => assert e.temp.value in Touches(e) && e.path in Touches(e);
      case Move => assert e.path in Touches(e) && e.target in Touches(e);
      case RemoveFile => assert e.path in Touches(e);
      case MakeDir =>
      case RemoveDir =>
    }
  }

  lemma ReachedStep(d: Disk, start: Disk, entries: seq<Entry>, k: nat)
    requires StagedOn(start, entries) && k < |entries| && Reached(d, start, entries, k)
    requires Effect(d, entries[k]).Some?
    ensures Reached(Effect(d, entries[k]).value, start, entries, k + 1)
  {
    var e := entries[k];
    var after := Effect(d, e).value;
    assert Ready(start, e);
    EffectKeepsTree(d, e);
    if OnDirectory(e) { DirectoryStaysNoFile(d, start, entries, k, e.path); }
    assert e.action == RemoveFile ==> e.path in d.files by { assert Waiting(d, start, e); }
    forall p | p !in Touches(e) ensures Lookup(after, p) == Lookup(d, p) {}
    EffectDone(d, start, e);
    OthersUnmoved(d, after, start, entries, k);
    RemovedStep(d, start, entries, k);
    if e.action == Write || e.action == Move { NothingRemovedYet(entries, k); }
  }

  lemma RemovedStep(d: Disk, start: Disk, entries: seq<Entry>, k: nat)
    requires StagedOn(start, entries) && k < |entries| && Reached(d, start, entries, k)
    requires Effect(d, entries[k]).Some?
    ensures Effect(d, entries[k]).value.dirs == start.dirs - RemovedDirs(entries, k + 1)
  {
    var e := entries[k];
    assert Ready(start, e);
    match e.action {
      case Write =>
      case Move =>
      case RemoveFile => assert e.path in d.files by { assert Waiting(d, start, e); }
      case MakeDir =>
        NothingRemovedYet(entries, k);
        PrefixesPresent(d, e.path);
      case RemoveDir => DirectoryStaysNoFile(d, start, entries, k, e.path);
    }
  }

  /** The description leaves no room: two disks that k entries lead to are the same. */
  lemma ReachedUnique(d: Disk, other: Disk, start: Disk, entries: seq<Entry>, k: nat)
    requires StagedOn(start, entries) && k <= |entries|
    requires Reached(d, start, entries, k) && Reached(other, start, entries, k)
    ensures d == other
  {
    forall p ensures Lookup(d, p) == Lookup(other, p) {
      if p in Touched(entries) {
        var i :| 0 <= i < |entries| && p in Touches(entries[i]);
        if i < k {
          assert Done(d, start, entries[i]) && Done(other, start, entries[i]);
        } else {
          assert Waiting(d, start, entries[i]) && Waiting(other, start, entries[i]);
        }
      } else {
        assert Lookup(d, p) == Lookup(start, p) == Lookup(other, p);
      }
    }
    SameLookupSameFiles(d, other);
  }

  lemma SameLookupSameFiles(d: Disk, other: Disk)
    requires forall p :: Lookup(d, p) == Lookup(other, p)
    ensures d.files == other.files
  {
    forall p ensures p in d.files <==> p in other.files { assert Lookup(d, p) == Lookup(other, p); }
    forall p | p in d.files ensures d.files[p] == other.files[p] { assert Lookup(d, p) == Lookup(other, p); }
  }

  /** However far it got, the run is in the state its count describes. */
  lemma {:induction false} RunReaches(start: Disk, entries: seq<Entry>, k: nat)
    requires StagedOn(start, entries) && k <= |entries| && Run(start, entries, k).Some?
    ensures Reached(Run(start, entries, k).value, start, entries, k)
  {
    if k == 0 {
      StartReached(start, entries);
    } else {
      RunReaches(start, entries, k - 1);
      ReachedStep(Run(start, entries, k - 1).value, start, entries, k - 1);
    }
  }

  /** Until directories are removed, nothing but a crash can stop the run. */
  lemma FileEntryGoesThrough(d: Disk, start: Disk, entries: seq<Entry>, k: nat)
    requires StagedOn(start, entries) && k < |entries| && Reached(d, start, entries, k)
    requires entries[k].action != RemoveDir && Placed(start, entries[k])
    ensures Effect(d, entries[k]).Some?
  {
    var e := entries[k];
    assert Ready(start, e) && Waiting(d, start, e);
    NothingRemovedYet(entries, k);
    match e.action {
      case Write => assert e.temp.value in Touches(e);
      case Move => assert e.path in Touches(e);
      case RemoveFile => assert e.path in Touches(e);
      case MakeDir => PrefixesPresent(d, e.path);
      case RemoveDir =>
    }
  }

  /** An entry that has already happened is refused again when it is about a file, and
      changes nothing when it is about a directory. */
  lemma AppliedAgain(d: Disk, start: Disk, entries: seq<Entry>, i: nat)
    requires StagedOn(start, entries) && i < |entries| && Reached(d, start, entries, i + 1)
    ensures Effect(d, entries[i]) == if OnDirectory(entries[i]) then Some(d) else None
  {
    var e := entries[i];
    assert Ready(start, e) && Done(d, start, e);
    match e.action {
      case Write =>
      case Move =>
      case RemoveFile =>
      case MakeDir =>
        NothingRemovedYet(entries, i);
        PrefixesPresent(d, e.path);
      case RemoveDir =>
        assert e.path in RemovedDirs(entries, i + 1);
        DirectoryStaysNoFile(d, start, entries, i + 1, e.path);
    }
  }

  // ---- directory removals ----

  predicate Leaves(e: Entry, p: Path) {
    ((e.action == Move || e.action == RemoveFile) && e.path == p) || (e.action == Write && e.temp == Some(p))
  }

  predicate Arrives(e: Entry, p: Path) {
    (e.action == Write && e.path == p) || (e.action == Move && e.target == p)
  }

  /** By the time entry i is reached, its directory has been vacated. */
  ghost predicate Vacated(start: Disk, entries: seq<Entry>, i: nat)
    requires i < |entries|
  {
    && (forall p :: p in start.files && IsChild(p, entries[i].path) ==>
          exists j :: 0 <= j < |entries| && Leaves(entries[j], p))
    && (forall p :: p in start.dirs && IsChild(p, entries[i].path) ==> p in RemovedDirs(entries, i))
    && (forall j, p :: 0 <= j < |entries| && Arrives(entries[j], p) ==> !IsChild(p, entries[i].path))
  }

  lemma FileEntriesFirst(entries: seq<Entry>, i: nat, j: nat)
    requires InOrder(entries) && i < |entries| && j < |entries|
    requires entries[i].action == RemoveDir && entries[j].action != RemoveDir
    ensures j < i
  {
    assert Rank(entries[j].action) < Rank(entries[i].action);
  }

  lemma LeftIsGone(d: Disk, start: Disk, entries: seq<Entry>, k: nat, j: nat, p: Path)
    requires StagedOn(start, entries) && k <= |entries| && Applied(d, start, entries, k)
    requires j < k && Leaves(entries[j], p)
    ensures p !in d.files
  {
    assert Done(d, start, entries[j]);
  }

  lemma VacatedIsEmpty(d: Disk, start: Disk, entries: seq<Entry>, i: nat)
    requires StagedOn(start, entries) && i < |entries| && entries[i].action == RemoveDir
    requires Reached(d, start, entries, i) && Vacated(start, entries, i)
    ensures !HasChild(d, entries[i].path) && Effect(d, entries[i]).Some?
  {
    var dir := entries[i].path;
    assert Ready(start, entries[i]);
    DirectoryStaysNoFile(d, start, entries, i, dir);
    forall p | p in d.files ensures !IsChild(p, dir) {
      if IsChild(p, dir) { ChildWouldBeLeft(d, start, entries, i, p); }
    }
    forall p | p in d.dirs ensures !IsChild(p, dir) {
      assert p in start.dirs && p !in RemovedDirs(entries, i);
    }
  }

  lemma LeaverIsGone(d: Disk, start: Disk, entries: seq<Entry>, i: nat, p: Path)
    requires StagedOn(start, entries) && i < |entries| && entries[i].action == RemoveDir
    requires Applied(d, start, entries, i)
    requires exists j :: 0 <= j < |entries| && Leaves(entries[j], p)
    ensures p !in d.files
  {
    var j :| 0 <= j < |entries| && Leaves(entries[j], p);
    assert Leaves(entries[j], p);
    FileEntriesFirst(entries, i, j);
    LeftIsGone(d, start, entries, i, j, p);
  }

  lemma TouchedComesOrGoes(start: Disk, entries: seq<Entry>, p: Path)
    requires StagedOn(start, entries) && p in Touched(entries)
    requires forall j :: 0 <= j < |entries| ==> !Arrives(entries[j], p)
    ensures exists j :: 0 <= j < |entries| && Leaves(entries[j], p)
  {
    var j :| 0 <= j < |entries| && p in Touches(entries[j]);
    assert Ready(start, entries[j]) && !Arrives(entries[j], p);
    assert Leaves(entries[j], p);
  }

  lemma ChildWouldBeLeft(d: Disk, start: Disk, entries: seq<Entry>, i: nat, p: Path)
    requires StagedOn(start, entries) && i < |entries| && entries[i].action == RemoveDir
    requires Reached(d, start, entries, i) && Vacated(start, entries, i)
    requires IsChild(p, entries[i].path)
    ensures p !in d.files
  {
    hide Effect, Rank, Done, Waiting, Ready, Arrives, Leaves;
    if p in Touched(entries) {
      TouchedComesOrGoes(start, entries, p);
      LeaverIsGone(d, start, entries, i, p);
    } else {
      assert Lookup(d, p) == Lookup(start, p);
      if p in start.files { LeaverIsGone(d, start, entries, i, p); }
    }
  }

  /** If every directory to be removed is vacated, the run goes through to the end. */
  lemma {:induction false} RunGoesThrough(start: Disk, entries: seq<Entry>, k: nat)
    requires StagedOn(start, entries) && k <= |entries|
    requires forall i :: 0 <= i < |entries| ==> Placed(start, entries[i])
    requires forall i :: 0 <= i < |entries| && entries[i].action == RemoveDir ==> Vacated(start, entries, i)
    ensures Run(start, entries, k).Some?
  {
    if k > 0 {
      RunGoesThrough(start, entries, k - 1);
      RunReaches(start, entries, k - 1);
      var d := Run(start, entries, k - 1).value;
      if entries[k - 1].action == RemoveDir {
        VacatedIsEmpty(d, start, entries, k - 1);
      } else {
        FileEntryGoesThrough(d, start, entries, k - 1);
      }
    }
  }

  /** Conversely a run that went through left nothing inside a removed directory. */
  lemma GoneThroughLeavesNothing(start: Disk, entries: seq<Entry>, i: nat, j: nat, p: Path)
    requires StagedOn(start, entries) && Run(start, entries, |entries|).Some?
    requires i < |entries| && j < |entries| && entries[i].action == RemoveDir
    requires Arrives(entries[j], p) || (entries[j].action == MakeDir && entries[j].path == p)
    requires entries[j].action == MakeDir ==> p !in RemovedDirs(entries, |entries|)
    ensures !Beneath(p, entries[i].path)
  {
    var d := Run(start, entries, |entries|).value;
    RunReaches(start, entries, |entries|);
    assert Done(d, start, entries[j]) && Ready(start, entries[j]);
    assert p in d.files || p in d.dirs;
    assert entries[i].path in RemovedDirs(entries, |entries|);
    if Beneath(p, entries[i].path) {
      AboveIsDirectory(d, p, entries[i].path);
      assert false;
    }
  }
}
