/** Undoing committed entries, last first. */
module Rollback {
  // Undoing committed entries, last first, and completing what is left.
  //
  // Neither a rollback nor a completion keeps a record of what an earlier rollback got
  // to, so the states they meet are described by a set and two counts: the entries below
  // `applied` have happened, the journal has recorded the first `committed` of them, which
  // is as many or one fewer, and those in `undone` have been taken back since.  Every
  // step of either loop leads from one such state to another.

  import opened Results
  import opened Disks
  import opened Journal

  /** What a restored file looks like: the old bytes, and no more than 0600. */
  function Tighten(file: File): File { File(file.contents, file.mode & FILE_PERMISSION) }

  /** The call that undoes one entry; `saved` is the opened backup, if there is one. */
  function Undo(d: Disk, e: Entry, saved: Option<string>): Option<Disk> {
    match e.action
    case Move => Rename(d, e.target, e.path)
    case MakeDir =>
      if e.hadPrevious then Some(d)
      else if e.path in d.files then None
      else (match Remove(d, e.path) case Removed(after) => Some(after) case _ => Some(d))
    case RemoveDir => EnsureDir(d, e.path)
    case _ =>
      if e.hadPrevious then
        if saved.None? then None else Put(d, e.path, File(saved.value, e.mode))
      else (match Remove(d, e.path) case Removed(after) => Some(after) case Absent => Some(d) case NotEmpty => None)
  }

  /** Entries a rollback refuses to touch once they are committed. */
  predicate Irreversible(e: Entry) {
    (e.action == RemoveFile && e.noBackup) || (e.action == Write && e.hadPrevious && e.noBackup)
  }

  /** The entry tells the truth about the file it replaced, and its backup opens. */
  ghost predicate Faithful(start: Disk, e: Entry, saved: Option<string>) {
    e.action == Write || e.action == RemoveFile ==>
      && (e.hadPrevious <==> e.path in start.files)
      && (e.hadPrevious && !e.noBackup ==>
            saved == Some(start.files[e.path].contents) && e.mode == start.files[e.path].mode & FILE_PERMISSION)
  }

  /** The file is as it was before the transaction. */
  ghost predicate Undone(d: Disk, start: Disk, e: Entry) {
    match e.action
    case Write =>
      && e.temp.Some? && e.temp.value !in d.files
      && Lookup(d, e.path) == (if e.path in start.files then Some(Tighten(start.files[e.path])) else None)
    case Move => Lookup(d, e.path) == Lookup(start, e.path) && e.target !in d.files
    case RemoveFile => e.path in start.files ==> Lookup(d, e.path) == Some(Tighten(start.files[e.path]))
    case MakeDir => true
    case RemoveDir => true
  }

  /** The entry has not happened; its temporary may already have been thrown away. */
  ghost predicate Still(d: Disk, start: Disk, e: Entry) {
    forall p :: p in Touches(e) ==> Lookup(d, p) == Lookup(start, p) || (e.temp == Some(p) && p !in d.files)
  }

  ghost predicate Counts(entries: seq<Entry>, undone: set<nat>, committed: nat, applied: nat) {
    committed <= applied <= committed + 1 && applied <= |entries| && forall i :: i in undone ==> i < committed
  }

  function UpTo(n: nat): (all: set<nat>)
    ensures forall i: nat :: i in all <==> i < n
  {
    if n == 0 then {} else UpTo(n - 1) + {n - 1}
  }

  ghost predicate Mixed(d: Disk, start: Disk, entries: seq<Entry>, undone: set<nat>, committed: nat, applied: nat)
    requires Counts(entries, undone, committed, applied)
  {
    && (forall i :: 0 <= i < applied && i !in undone ==> Done(d, start, entries[i]))
    && (forall i :: i in undone ==> Undone(d, start, entries[i]))
    && (forall i :: applied <= i < |entries| ==> Still(d, start, entries[i]))
    && Elsewhere(d, start, entries)
  }

  /** The directories whose recorded removal has not been taken back. */
  ghost function Standing(entries: seq<Entry>, undone: set<nat>, committed: nat): set<Path>
    requires committed <= |entries|
  {
    set i | 0 <= i < committed && i !in undone && entries[i].action == RemoveDir :: entries[i].path
  }

  /** A directory whose removal happened without being recorded. */
  function InDoubt(entries: seq<Entry>, committed: nat, applied: nat): set<Path>
    requires committed <= applied <= |entries|
  {
    set i | committed <= i < applied && entries[i].action == RemoveDir :: entries[i].path
  }

  /** The new directories whose making has been taken back. */
  ghost function Unmade(entries: seq<Entry>, undone: set<nat>): set<Path> {
    set i | 0 <= i < |entries| && i in undone && MakesNew(entries[i]) :: entries[i].path
  }

  ghost predicate DirsStand(d: Disk, start: Disk, entries: seq<Entry>, undone: set<nat>, committed: nat, applied: nat)
    requires Counts(entries, undone, committed, applied)
  {
    && d.dirs <= start.dirs - Standing(entries, undone, committed)
    && start.dirs - Standing(entries, undone, committed) - InDoubt(entries, committed, applied) - Unmade(entries, undone) <= d.dirs
  }

  ghost predicate Unwinding(d: Disk, start: Disk, entries: seq<Entry>, undone: set<nat>, committed: nat, applied: nat)
    requires Counts(entries, undone, committed, applied)
  {
    && WellFormed(d)
    && Mixed(d, start, entries, undone, committed, applied)
    && DirsStand(d, start, entries, undone, committed, applied)
    && forall i :: 0 <= i < applied ==> Placed(start, entries[i])
  }

  /** A commit that stopped is such a state, with nothing undone. */
  lemma ReachedUnwinds(d: Disk, start: Disk, entries: seq<Entry>, committed: nat, applied: nat)
    requires Counts(entries, {}, committed, applied) && Reached(d, start, entries, applied)
    ensures Unwinding(d, start, entries, {}, committed, applied)
  {}

  // ---- what undoing one entry does ----

  lemma UndoKeepsTree(d: Disk, e: Entry, saved: Option<string>)
    requires WellFormed(d) && Undo(d, e, saved).Some?
    ensures WellFormed(Undo(d, e, saved).value)
  {
    match e.action {
      case Move =>
      case MakeDir =>
      case RemoveDir => EnsureDirKeepsTree(d, e.path);
      case _ =>
    }
  }

  lemma SameFilesSameUndone(d: Disk, after: Disk, start: Disk, e: Entry, other: Entry)
    requires Touches(e) !! Touches(other) && Undone(d, start, e)
    requires forall p :: p !in Touches(other) ==> Lookup(after, p) == Lookup(d, p)
    ensures Undone(after, start, e)
  {
    assert forall p :: p in Touches(e) ==> p !in Touches(other);
    match e.action {
      case Write => assert e.temp.value in Touches(e) && e.path in Touches(e);
      case Move => assert e.path in Touches(e) && e.target in Touches(e);
      case RemoveFile => assert e.path in Touches(e);
      case MakeDir =>
      case RemoveDir =>
    }
  }

  lemma StillFrame(d: Disk, after: Disk, start: Disk, e: Entry, other: Entry)
    requires Touches(e) !! Touches(other) && Still(d, start, e)
    requires forall p :: p !in Touches(other) ==> Lookup(after, p) == Lookup(d, p)
    ensures Still(after, start, e)
  {
    assert forall p :: p in Touches(e) ==> p !in Touches(other);
  }

  /** When one entry's files change, the others stay in the state they were in. */
  lemma OthersAsBefore(d: Disk, after: Disk, start: Disk, entries: seq<Entry>, undone: set<nat>, committed: nat, applied: nat,
                       i: nat, m: nat)
    requires Counts(entries, undone, committed, applied) && Disjoint(entries) && i < |entries| && m < |entries| && m != i
    requires Mixed(d, start, entries, undone, committed, applied)
    requires forall p :: p !in Touches(entries[i]) ==> Lookup(after, p) == Lookup(d, p)
    ensures m in undone ==> Undone(after, start, entries[m])
    ensures m < applied && m !in undone ==> Done(after, start, entries[m])
    ensures m >= applied ==> Still(after, start, entries[m])
  {
    hide Done, Undone, Still, Touches;
    assert Touches(entries[m]) !! Touches(entries[i]) by {
      if m < i { assert Touches(entries[m]) !! Touches(entries[i]); } else { assert Touches(entries[i]) !! Touches(entries[m]); }
    }
    if m in undone {
      SameFilesSameUndone(d, after, start, entries[m], entries[i]);
    } else if m < applied {
      SameFilesSameDone(d, after, start, entries[m], entries[i]);
    } else {
      StillFrame(d, after, start, entries[m], entries[i]);
    }
  }

  lemma ElsewhereFrame(d: Disk, after: Disk, start: Disk, entries: seq<Entry>, i: nat)
    requires Elsewhere(d, start, entries) && i < |entries|
    requires forall p :: p !in Touches(entries[i]) ==> Lookup(after, p) == Lookup(d, p)
    ensures Elsewhere(after, start, entries)
  {
    forall p | p !in Touched(entries) ensures Lookup(after, p) == Lookup(start, p) {
      assert p !in Touches(entries[i]);
    }
  }

  /** Entry i alone changed, from standing (or already undone) to undone. */
  lemma OnlyOneUndone(d: Disk, after: Disk, start: Disk, entries: seq<Entry>, undone: set<nat>, committed: nat, applied: nat, i: nat)
    requires Counts(entries, undone, committed, applied) && Disjoint(entries) && i < committed
    requires Mixed(d, start, entries, undone, committed, applied)
    requires Undone(after, start, entries[i])
    requires forall p :: p !in Touches(entries[i]) ==> Lookup(after, p) == Lookup(d, p)
    ensures Mixed(after, start, entries, undone + {i}, committed, applied)
  {
    hide Done, Undone, Still, Touches, Elsewhere;
    ElsewhereFrame(d, after, start, entries, i);
    forall m | 0 <= m < |entries| && m != i
      ensures m in undone ==> Undone(after, start, entries[m])
      ensures m < applied && m !in undone ==> Done(after, start, entries[m])
      ensures m >= applied ==> Still(after, start, entries[m])
    {
      OthersAsBefore(d, after, start, entries, undone, committed, applied, i, m);
    }
  }

  lemma DirectoryIsNoFile(d: Disk, start: Disk, entries: seq<Entry>, undone: set<nat>, committed: nat, applied: nat, p: Path)
    requires StagedOn(start, entries) && Counts(entries, undone, committed, applied)
    requires Unwinding(d, start, entries, undone, committed, applied) && p in start.dirs
    ensures p !in d.files
  {
    forall i | 0 <= i < |entries| && p in Touches(entries[i]) ensures p !in d.files {
      assert Ready(start, entries[i]);
      if i >= applied {
        assert Still(d, start, entries[i]);
      } else {
        assert Placed(start, entries[i]);
        assert Done(d, start, entries[i]) || Undone(d, start, entries[i]);
      }
    }
    assert p !in Touched(entries) ==> Lookup(d, p) == Lookup(start, p);
  }

  /** One step of the rollback loop, at entry i.  The loop starts at the last committed
      entry even when an earlier attempt already undid some. */
  lemma UndoStep(d: Disk, start: Disk, entries: seq<Entry>, undone: set<nat>, committed: nat, applied: nat,
                 i: nat, saved: Option<string>)
    requires StagedOn(start, entries) && Counts(entries, undone, committed, applied) && i < committed
    requires forall m :: i < m < committed ==> m in undone
    requires i in undone ==> entries[i].action != Move
    requires Unwinding(d, start, entries, undone, committed, applied)
    requires Faithful(start, entries[i], saved) && !Irreversible(entries[i])
    requires Undo(d, entries[i], saved).Some?
    ensures Unwinding(Undo(d, entries[i], saved).value, start, entries, undone + {i}, committed, applied)
  {
    hide DirsStand, Elsewhere, Apart;
    var e := entries[i];
    var after := Undo(d, e, saved).value;
    assert Ready(start, e) && Placed(start, e);
    assert d.dirs <= start.dirs by { DirsInStart(d, start, entries, undone, committed, applied); }
    if OnDirectory(e) { DirectoryIsNoFile(d, start, entries, undone, committed, applied, e.path); }
    UndoKeepsTree(d, e, saved);
    forall p | p !in Touches(e) ensures Lookup(after, p) == Lookup(d, p) {}
    assert Undone(after, start, e);
    OnlyOneUndone(d, after, start, entries, undone, committed, applied, i);
    UndoDirs(d, start, entries, undone, committed, applied, i, saved);
  }

  lemma DirsInStart(d: Disk, start: Disk, entries: seq<Entry>, undone: set<nat>, committed: nat, applied: nat)
    requires Counts(entries, undone, committed, applied) && DirsStand(d, start, entries, undone, committed, applied)
    ensures d.dirs <= start.dirs
  {}

  lemma UndoDirs(d: Disk, start: Disk, entries: seq<Entry>, undone: set<nat>, committed: nat, applied: nat,
                 i: nat, saved: Option<string>)
    requires StagedOn(start, entries) && Counts(entries, undone, committed, applied) && i < committed
    requires forall m :: i < m < committed ==> m in undone
    requires DirsStand(d, start, entries, undone, committed, applied)
    requires Undo(d, entries[i], saved).Some? && (!OnDirectory(entries[i]) ==> entries[i].path !in d.dirs)
    ensures DirsStand(Undo(d, entries[i], saved).value, start, entries, undone + {i}, committed, applied)
  {
    hide Disjoint, InOrder, DeepestFirst, Apart, Ready, WellFormed;
    var e := entries[i];
    var after := Undo(d, e, saved).value;
    assert Ready(start, e);
    if e.action == RemoveDir {
      assert e.path in Prefixes(e.path) by { PrefixesOf(e.path, e.path); }
      assert Prefixes(e.path) <= start.dirs by { RemovedPrefixes(start, entries, i); }
      assert Prefixes(e.path) !! Standing(entries, undone + {i}, committed) by {
        RemadeIsNotStanding(entries, undone + {i}, committed, i);
      }
    }
  }

  lemma RemovedPrefixes(start: Disk, entries: seq<Entry>, i: nat)
    requires StagedOn(start, entries) && i < |entries| && entries[i].action == RemoveDir
    ensures Prefixes(entries[i].path) <= start.dirs
  {
    assert Ready(start, entries[i]);
    PrefixesPresent(start, entries[i].path);
  }

  lemma PrefixAsLong(p: Path, q: Path)
    ensures p <= q && |p| >= |q| ==> p == q
  {}

  /** What lies on the way to a directory does not go before it. */
  lemma RemadeIsNotStanding(entries: seq<Entry>, undone: set<nat>, committed: nat, i: nat)
    requires DeepestFirst(entries) && Apart(entries) && i < committed <= |entries| && entries[i].action == RemoveDir
    requires forall m :: i < m < committed ==> m in undone
    ensures (Prefixes(entries[i].path) - {entries[i].path}) !! Standing(entries, undone, committed)
    ensures i in undone ==> Prefixes(entries[i].path) !! Standing(entries, undone, committed)
  {
    forall j | 0 <= j < committed && j !in undone && entries[j].action == RemoveDir && j != i
      ensures entries[j].path !in Prefixes(entries[i].path)
    {
      assert |entries[j].path| >= |entries[i].path|;
      assert entries[j].path in About(entries[j]);
      PrefixesOf(entries[i].path, entries[j].path);
      PrefixAsLong(entries[j].path, entries[i].path);
    }
  }

  /** Undoing an entry that stands takes nothing but the directory of the file it was at. */
  lemma UndoGoesThrough(d: Disk, start: Disk, entries: seq<Entry>, undone: set<nat>, committed: nat, applied: nat,
                        i: nat, saved: Option<string>)
    requires StagedOn(start, entries) && Counts(entries, undone, committed, applied) && i < committed && i !in undone
    requires Unwinding(d, start, entries, undone, committed, applied) && entries[i].path != []
    requires Faithful(start, entries[i], saved) && !Irreversible(entries[i])
    ensures Undo(d, entries[i], saved).Some? <==> OnDirectory(entries[i]) || Parent(entries[i].path) in d.dirs
  {
    hide Apart, Elsewhere;
    var e := entries[i];
    assert Ready(start, e) && Done(d, start, e) && Placed(start, e);
    if OnDirectory(e) {
      DirectoryIsNoFile(d, start, entries, undone, committed, applied, e.path);
      if e.action == RemoveDir { PrefixesAreNoFiles(d, start, entries, undone, committed, applied, e.path); }
    }
  }

  lemma PrefixesAreNoFiles(d: Disk, start: Disk, entries: seq<Entry>, undone: set<nat>, committed: nat, applied: nat, p: Path)
    requires StagedOn(start, entries) && Counts(entries, undone, committed, applied)
    requires Unwinding(d, start, entries, undone, committed, applied) && p in start.dirs
    ensures EnsureDir(d, p).Some?
  {
    PrefixesPresent(start, p);
    forall k | 0 <= k <= |p| ensures p[..k] !in d.files {
      assert p[..k] in Prefixes(p);
      DirectoryIsNoFile(d, start, entries, undone, committed, applied, p[..k]);
    }
  }

  /** An entry an earlier attempt already undid can be undone again, unless it is a
      move: the moved file is no longer at its target. */
  lemma UndoAgain(d: Disk, start: Disk, entries: seq<Entry>, undone: set<nat>, committed: nat, applied: nat, i: nat, saved: Option<string>)
    requires StagedOn(start, entries) && Counts(entries, undone, committed, applied) && i in undone
    requires Unwinding(d, start, entries, undone, committed, applied)
    requires Faithful(start, entries[i], saved) && !Irreversible(entries[i])
    ensures Undo(d, entries[i], saved).Some? <==> entries[i].action != Move
  {
    hide Apart, Elsewhere;
    var e := entries[i];
    assert Ready(start, e) && Undone(d, start, e) && Placed(start, e);
    if OnDirectory(e) {
      DirectoryIsNoFile(d, start, entries, undone, committed, applied, e.path);
      if e.action == RemoveDir { PrefixesAreNoFiles(d, start, entries, undone, committed, applied, e.path); }
    }
  }

  /** Every entry that was recorded is undone, the temporaries are gone, and the directories
      stand again: all but one in doubt and the new ones. */
  ghost predicate Restored(d: Disk, start: Disk, entries: seq<Entry>, committed: nat, applied: nat)
    requires Counts(entries, UpTo(committed), committed, applied)
  {
    && Mixed(d, start, entries, UpTo(committed), committed, applied)
    && (forall i :: committed <= i < |entries| && entries[i].temp.Some? ==> entries[i].temp.value !in d.files)
    && start.dirs - InDoubt(entries, committed, applied) - Unmade(entries, UpTo(committed)) <= d.dirs <= start.dirs
  }

  /** More of the original directories standing does no harm. */
  lemma DirsMayGrow(d: Disk, after: Disk, start: Disk, entries: seq<Entry>, undone: set<nat>, committed: nat, applied: nat)
    requires Counts(entries, undone, committed, applied) && Unwinding(d, start, entries, undone, committed, applied)
    requires after.files == d.files && d.dirs <= after.dirs <= start.dirs - Standing(entries, undone, committed) && WellFormed(after)
    ensures Unwinding(after, start, entries, undone, committed, applied)
  {
    assert forall p :: Lookup(after, p) == Lookup(d, p);
    forall i | i in undone ensures Undone(after, start, entries[i]) { assert Undone(d, start, entries[i]); }
    forall i | 0 <= i < applied && i !in undone ensures Done(after, start, entries[i]) { assert Done(d, start, entries[i]); }
    forall i | applied <= i < |entries| ensures Still(after, start, entries[i]) { assert Still(d, start, entries[i]); }
  }

  /** Throwing away the temporary of an entry that will not happen. */
  lemma TempThrownAway(d: Disk, after: Disk, start: Disk, entries: seq<Entry>, undone: set<nat>, committed: nat, applied: nat, i: nat)
    requires StagedOn(start, entries) && Counts(entries, undone, committed, applied) && committed <= i < |entries|
    requires Unwinding(d, start, entries, undone, committed, applied) && entries[i].temp.Some?
    requires entries[i].action == Write
    requires after == d.(files := d.files - {entries[i].temp.value})
    ensures Unwinding(after, start, entries, undone, committed, applied)
  {
    hide Apart, Elsewhere, Disjoint, InOrder, DeepestFirst;
    var e := entries[i];
    assert e.temp.value in Touches(e) && Ready(start, e);
    assert forall p :: p != e.temp.value ==> Lookup(after, p) == Lookup(d, p);
    ElsewhereFrame(d, after, start, entries, i);
    forall m | 0 <= m < |entries| && m != i
      ensures m in undone ==> Undone(after, start, entries[m])
      ensures m < applied && m !in undone ==> Done(after, start, entries[m])
      ensures m >= applied ==> Still(after, start, entries[m])
    {
      OthersAsBefore(d, after, start, entries, undone, committed, applied, i, m);
    }
    if i < applied { assert Done(d, start, e); } else { assert Still(d, start, e); }
  }

  // ---- completing ----

  /** What Complete applies: entries k up to n, on whatever disk it finds. */
  function RunFrom(d: Disk, entries: seq<Entry>, k: nat, n: nat): Option<Disk>
    requires k <= n <= |entries|
  {
    if k == n then Some(d)
    else
      var before := RunFrom(d, entries, k, n - 1);
      if before.None? then None else Effect(before.value, entries[n - 1])
  }

  lemma StillHappens(d: Disk, start: Disk, e: Entry)
    requires Ready(start, e) && Still(d, start, e) && Effect(d, e).Some?
    ensures Done(Effect(d, e).value, start, e)
  {
    match e.action {
      case Write => assert e.temp.value in Touches(e) && e.path in Touches(e);
      case Move => assert e.path in Touches(e) && e.target in Touches(e);
      case RemoveFile =>
      case MakeDir =>
      case RemoveDir =>
    }
  }

  /** A file entry that has happened cannot happen again. */
  lemma DoneIsRefused(d: Disk, start: Disk, e: Entry)
    requires WellFormed(start) && Ready(start, e) && Done(d, start, e) && d.dirs <= start.dirs && !OnDirectory(e)
    ensures Effect(d, e) == None
  {}

  /** Nobody but its own entry makes or removes a directory that is still to be made. */
  lemma OwnDirectoryStands(d: Disk, start: Disk, entries: seq<Entry>, undone: set<nat>, committed: nat, applied: nat, k: nat, p: Path)
    requires StagedOn(start, entries) && Counts(entries, undone, committed, applied)
    requires DirsStand(d, start, entries, undone, committed, applied)
    requires committed <= k < |entries| && entries[k].action != RemoveDir && p in About(entries[k]) && p in start.dirs
    ensures p in d.dirs
  {
    forall i | 0 <= i < applied && OnDirectory(entries[i]) && i != k ensures entries[i].path != p {
      assert entries[i].path !in About(entries[k]);
    }
  }

  /** The directory above one still to be removed stands. */
  lemma AboveNextStands(d: Disk, start: Disk, entries: seq<Entry>, undone: set<nat>, committed: nat, applied: nat)
    requires StagedOn(start, entries) && Counts(entries, undone, committed, applied) && committed < |entries|
    requires DirsStand(d, start, entries, undone, committed, applied) && entries[committed].action == RemoveDir
    ensures entries[committed].path != [] && Parent(entries[committed].path) in d.dirs
  {
    var e := entries[committed];
    assert Ready(start, e);
    var up := Parent(e.path);
    forall i | 0 <= i < applied && entries[i].action == RemoveDir ensures entries[i].path != up {
      assert i < committed ==> |entries[i].path| >= |e.path|;
    }
    forall i | 0 <= i < |entries| && MakesNew(entries[i]) ensures entries[i].path != up {
      assert !(entries[i].path <= e.path);
      assert up <= e.path;
    }
  }

  lemma RecordedRemoval(entries: seq<Entry>, undone: set<nat>, c: nat)
    requires c < |entries| && forall i :: i in undone ==> i < c
    ensures Standing(entries, undone, c + 1) ==
              Standing(entries, undone, c) + (if entries[c].action == RemoveDir then {entries[c].path} else {})
    ensures InDoubt(entries, c, c + 1) == if entries[c].action == RemoveDir then {entries[c].path} else {}
    ensures InDoubt(entries, c, c) == {} && InDoubt(entries, c + 1, c + 1) == {}
  {}

  /** One turn of the loop that completes, before and after it has been recorded. */
  lemma CompleteStep(d: Disk, start: Disk, entries: seq<Entry>, undone: set<nat>, c: nat, applied: nat)
    requires StagedOn(start, entries) && Counts(entries, undone, c, applied) && c < |entries|
    requires Unwinding(d, start, entries, undone, c, applied) && Effect(d, entries[c]).Some?
    ensures var after := Effect(d, entries[c]).value;
            && Unwinding(after, start, entries, undone, c, c + 1) && Unwinding(after, start, entries, undone, c + 1, c + 1)
            && after.dirs == d.dirs - (if entries[c].action == RemoveDir then {entries[c].path} else {})
            && forall p :: p !in Touches(entries[c]) ==> Lookup(after, p) == Lookup(d, p)
  {
    hide DirsStand, Apart, Elsewhere, Standing, Unmade;
    var e := entries[c];
    var after := Effect(d, e).value;
    assert Ready(start, e);
    DirsInStart(d, start, entries, undone, c, applied);
    EffectKeepsTree(d, e);
    EffectDirs(d, start, entries, undone, c, applied);
    forall p | p !in Touches(e) ensures Lookup(after, p) == Lookup(d, p) {}
    assert Done(after, start, e) by {
      if c < applied {
        assert Done(d, start, e);
        if !OnDirectory(e) { DoneIsRefused(d, start, e); }
      } else {
        StillHappens(d, start, e);
      }
    }
    OnlyOneDone(d, after, start, entries, undone, c, applied);
    CompleteDirs(d, after, start, entries, undone, c, applied);
  }

  lemma EffectDirs(d: Disk, start: Disk, entries: seq<Entry>, undone: set<nat>, c: nat, applied: nat)
    requires StagedOn(start, entries) && Counts(entries, undone, c, applied) && c < |entries|
    requires Unwinding(d, start, entries, undone, c, applied) && Effect(d, entries[c]).Some?
    ensures Effect(d, entries[c]).value.dirs == d.dirs - (if entries[c].action == RemoveDir then {entries[c].path} else {})
    ensures OnDirectory(entries[c]) ==> Effect(d, entries[c]).value.files == d.files
    ensures Placed(start, entries[c])
  {
    hide DirsStand, Apart, Elsewhere, Mixed;
    var e := entries[c];
    assert Ready(start, e);
    match e.action {
      case Write => if e.path in start.dirs { OwnDirectoryStands(d, start, entries, undone, c, applied, c, e.path); }
      case Move => if e.target in start.dirs { OwnDirectoryStands(d, start, entries, undone, c, applied, c, e.target); }
      case RemoveFile => DirsInStart(d, start, entries, undone, c, applied);
      case MakeDir =>
        OwnDirectoryStands(d, start, entries, undone, c, applied, c, e.path);
        PrefixesPresent(d, e.path);
      case RemoveDir => DirectoryIsNoFile(d, start, entries, undone, c, applied, e.path);
    }
  }

  lemma OnlyOneDone(d: Disk, after: Disk, start: Disk, entries: seq<Entry>, undone: set<nat>, c: nat, applied: nat)
    requires Counts(entries, undone, c, applied) && Disjoint(entries) && c < |entries|
    requires Mixed(d, start, entries, undone, c, applied)
    requires Done(after, start, entries[c])
    requires forall p :: p !in Touches(entries[c]) ==> Lookup(after, p) == Lookup(d, p)
    ensures Mixed(after, start, entries, undone, c, c + 1) && Mixed(after, start, entries, undone, c + 1, c + 1)
  {
    hide Done, Undone, Still, Touches, Elsewhere;
    ElsewhereFrame(d, after, start, entries, c);
    forall m | 0 <= m < |entries| && m != c
      ensures m in undone ==> Undone(after, start, entries[m])
      ensures m < applied && m !in undone ==> Done(after, start, entries[m])
      ensures m >= applied ==> Still(after, start, entries[m])
    {
      OthersAsBefore(d, after, start, entries, undone, c, applied, c, m);
    }
  }

  lemma CompleteDirs(d: Disk, after: Disk, start: Disk, entries: seq<Entry>, undone: set<nat>, c: nat, applied: nat)
    requires Counts(entries, undone, c, applied) && c < |entries| && DirsStand(d, start, entries, undone, c, applied)
    requires after.dirs == d.dirs - (if entries[c].action == RemoveDir then {entries[c].path} else {})
    ensures DirsStand(after, start, entries, undone, c, c + 1) && DirsStand(after, start, entries, undone, c + 1, c + 1)
  {
    hide Standing, Unmade, InDoubt;
    RecordedRemoval(entries, undone, c);
    assert applied == c || applied == c + 1;
  }

  /** The directories removed by entries k up to n. */
  function RemovedBetween(entries: seq<Entry>, k: nat, n: nat): set<Path>
    requires k <= n <= |entries|
  {
    set i | k <= i < n && entries[i].action == RemoveDir :: entries[i].path
  }

  /** However far completing gets, what was undone stays undone and what stood stands. */
  lemma {:induction false} UndoneStaysUndone(d: Disk, start: Disk, entries: seq<Entry>, undone: set<nat>, c: nat, applied: nat, k: nat)
    requires StagedOn(start, entries) && Counts(entries, undone, c, applied) && c <= k <= |entries|
    requires Unwinding(d, start, entries, undone, c, applied) && RunFrom(d, entries, c, k).Some?
    ensures var now := RunFrom(d, entries, c, k).value;
            && (k > c ==> Unwinding(now, start, entries, undone, k - 1, k) && Unwinding(now, start, entries, undone, k, k))
            && now.dirs == d.dirs - RemovedBetween(entries, c, k)
            && forall i, p :: 0 <= i < c && p in Touches(entries[i]) ==> Lookup(now, p) == Lookup(d, p)
    decreases k
  {
    hide Unwinding, Touches, Effect;
    assert RemovedBetween(entries, c, c) == {};
    if k > c {
      UndoneStaysUndone(d, start, entries, undone, c, applied, k - 1);
      var before := RunFrom(d, entries, c, k - 1).value;
      CompleteStep(before, start, entries, undone, k - 1, if k - 1 == c then applied else k - 1);
      forall i, p | 0 <= i < c && p in Touches(entries[i]) ensures p !in Touches(entries[k - 1]) {
        assert Touches(entries[i]) !! Touches(entries[k - 1]);
      }
      assert RemovedBetween(entries, c, k) ==
             RemovedBetween(entries, c, k - 1) + (if entries[k - 1].action == RemoveDir then {entries[k - 1].path} else {});
    }
  }

  /** The disk a commit that was never interrupted leaves. */
  ghost predicate CommittedDisk(d: Disk, start: Disk, entries: seq<Entry>) {
    Applied(d, start, entries, |entries|) && d.dirs == start.dirs - RemovedDirs(entries, |entries|)
  }

  /** What an undone entry was for is not there. */
  predicate EffectMissing(d: Disk, start: Disk, e: Entry) {
    match e.action
    case Write => e.temp.None? || Lookup(d, e.path) != Lookup(start, e.temp.value)
    case Move => true
    case RemoveFile => true
    case MakeDir => e.path !in d.dirs
    case RemoveDir => e.path in d.dirs
  }

  /** An undone entry about a file counts as done exactly when it changed nothing: a move or a
      removal never does, a write when what it wrote is what was there. */
  lemma UndoneIsNotDone(d: Disk, start: Disk, e: Entry)
    requires Ready(start, e) && Undone(d, start, e) && !OnDirectory(e)
    ensures Done(d, start, e) <==> !EffectMissing(d, start, e)
  {}

  /** Completing to the end leaves the committed disk exactly when no entry was undone whose
      effect is missing: nothing that a rollback took back is ever brought back. */
  lemma CompletedIff(d: Disk, start: Disk, entries: seq<Entry>, undone: set<nat>, c: nat, applied: nat)
    requires StagedOn(start, entries) && Counts(entries, undone, c, applied)
    requires Unwinding(d, start, entries, undone, c, applied) && RunFrom(d, entries, c, |entries|).Some?
    ensures var now := RunFrom(d, entries, c, |entries|).value;
            CommittedDisk(now, start, entries) <==> forall i :: i in undone ==> !EffectMissing(d, start, entries[i])
  {
    hide RunFrom, Unwinding, EffectMissing, Apart, InOrder, DeepestFirst, WellFormed;
    var n := |entries|;
    var now := RunFrom(d, entries, c, n).value;
    UndoneStaysUndone(d, start, entries, undone, c, applied, n);
    assert c == n ==> now == d by { RunNothing(d, entries, n); }
    assert Unwinding(now, start, entries, undone, n, n);
    FilesCompleted(d, now, start, entries, undone);
    DirsCompleted(d, now, start, entries, undone, c);
    forall i | i in undone ensures EffectMissing(d, start, entries[i]) <==> if OnDirectory(entries[i]) then MissingDir(d, entries[i]) else EffectMissing(now, start, entries[i]) {
      SameMissing(d, now, start, entries, c, i);
    }
  }

  lemma RunNothing(d: Disk, entries: seq<Entry>, n: nat)
    requires n <= |entries|
    ensures RunFrom(d, entries, n, n) == Some(d)
  {}

  predicate MissingDir(d: Disk, e: Entry) {
    if e.action == MakeDir then e.path !in d.dirs else e.path in d.dirs
  }

  lemma SameMissing(d: Disk, now: Disk, start: Disk, entries: seq<Entry>, c: nat, i: nat)
    requires i < c <= |entries|
    requires forall i, p :: 0 <= i < c && p in Touches(entries[i]) ==> Lookup(now, p) == Lookup(d, p)
    ensures EffectMissing(d, start, entries[i]) <==>
              if OnDirectory(entries[i]) then MissingDir(d, entries[i]) else EffectMissing(now, start, entries[i])
  {
    var e := entries[i];
    if e.action == Write { assert e.path in Touches(e); }
  }

  lemma FilesCompleted(d: Disk, now: Disk, start: Disk, entries: seq<Entry>, undone: set<nat>)
    requires StagedOn(start, entries) && Counts(entries, undone, |entries|, |entries|)
    requires Unwinding(now, start, entries, undone, |entries|, |entries|)
    ensures Applied(now, start, entries, |entries|) <==>
              forall i :: i in undone && !OnDirectory(entries[i]) ==> !EffectMissing(now, start, entries[i])
  {
    hide Done, Undone, EffectMissing, Elsewhere, Apart, InOrder, DeepestFirst, Disjoint, WellFormed, DirsStand, Touches;
    forall i | i in undone && !OnDirectory(entries[i]) ensures Done(now, start, entries[i]) <==> !EffectMissing(now, start, entries[i]) {
      assert Ready(start, entries[i]) && Undone(now, start, entries[i]);
      UndoneIsNotDone(now, start, entries[i]);
    }
    forall i | 0 <= i < |entries| && OnDirectory(entries[i]) ensures Done(now, start, entries[i]) { DirectoryIsDone(now, start, entries[i]); }
  }

  lemma DirectoryIsDone(d: Disk, start: Disk, e: Entry)
    requires OnDirectory(e)
    ensures Done(d, start, e)
  {}

  lemma DirsCompleted(d: Disk, now: Disk, start: Disk, entries: seq<Entry>, undone: set<nat>, c: nat)
    requires StagedOn(start, entries) && c <= |entries| && Counts(entries, undone, |entries|, |entries|)
    requires Unwinding(now, start, entries, undone, |entries|, |entries|)
    requires (forall i :: i in undone ==> i < c) && now.dirs == d.dirs - RemovedBetween(entries, c, |entries|)
    ensures now.dirs == start.dirs - RemovedDirs(entries, |entries|) <==>
              forall i :: i in undone && OnDirectory(entries[i]) ==> !MissingDir(d, entries[i])
  {
    hide InOrder, DeepestFirst, Disjoint, WellFormed, Mixed, Placed;
    var n := |entries|;
    var wanted := start.dirs - RemovedDirs(entries, n);
    forall i | i in undone && OnDirectory(entries[i]) ensures entries[i].path !in RemovedBetween(entries, c, n) {
      OwnPath(entries, i);
    }
    if now.dirs == wanted {
      forall i | i in undone && OnDirectory(entries[i]) ensures !MissingDir(d, entries[i]) {
        assert Ready(start, entries[i]);
        OwnPath(entries, i);
        if entries[i].action == MakeDir {
          assert entries[i].path in wanted;
          assert entries[i].path in d.dirs;
        } else {
          assert entries[i].path in RemovedDirs(entries, n);
          assert entries[i].path !in now.dirs;
        }
      }
    }
    if forall i :: i in undone && OnDirectory(entries[i]) ==> !MissingDir(d, entries[i]) {
      forall p | p in wanted ensures p in now.dirs {
        if p in Unmade(entries, undone) {
          var i :| 0 <= i < n && i in undone && MakesNew(entries[i]) && entries[i].path == p;
          assert !MissingDir(d, entries[i]);
        }
      }
      assert now.dirs <= wanted;
    }
  }

  /** No other entry removes the directory entry i makes or removes. */
  lemma OwnPath(entries: seq<Entry>, i: nat)
    requires Apart(entries) && i < |entries| && OnDirectory(entries[i])
    ensures forall j :: 0 <= j < |entries| && j != i && entries[j].action == RemoveDir ==> entries[j].path != entries[i].path
  {
    forall j | 0 <= j < |entries| && j != i && entries[j].action == RemoveDir ensures entries[j].path != entries[i].path {
      assert entries[i].path !in About(entries[j]);
    }
  }
}
