/** Files, directories and the calls on them. */
module Disks {
  // The part of a filesystem the workspace uses: regular files with permission bits
  // and directories, named by their segments below the workspace root, and the four
  // calls that change it.  A call that the operating system refuses is None.

  import opened Results

  /** Segments below the root; the root itself is []. */
  type Path = seq<string>
  type Mode = bv9

  /** 0600: the most a managed file may have. */
  const FILE_PERMISSION: Mode := 0x180

  datatype File = File(contents: string, mode: Mode)
  datatype Disk = Disk(files: map<Path, File>, dirs: set<Path>)

  /** SHA-256 is taken to be injective, so a digest is as good as its preimage. */
  datatype Digest = Digest(preimage: string)

  function Parent(p: Path): Path
    requires p != []
  {
    p[..|p| - 1]
  }

  /** p lies strictly inside the directory d. */
  predicate Beneath(p: Path, d: Path) { d < p }

  function Prefixes(p: Path): set<Path> {
    set k | 0 <= k <= |p| :: p[..k]
  }

  function Lookup(d: Disk, p: Path): Option<File> {
    if p in d.files then Some(d.files[p]) else None
  }

  predicate HasChild(d: Disk, p: Path) {
    (exists q | q in d.files :: IsChild(q, p)) || (exists q | q in d.dirs :: IsChild(q, p))
  }

  predicate IsChild(q: Path, p: Path) { q != [] && Parent(q) == p }

  /** A tree: everything sits in a directory, and nothing is both. */
  ghost predicate WellFormed(d: Disk) {
    && [] in d.dirs
    && (forall p :: p in d.files ==> p != [] && Parent(p) in d.dirs)
    && (forall p :: p in d.dirs && p != [] ==> Parent(p) in d.dirs)
    && (forall p :: p in d.files ==> p !in d.dirs)
  }

  // ---- the calls ----

  function Rename(d: Disk, from: Path, to: Path): Option<Disk> {
    if from !in d.files || to == [] || to in d.dirs || Parent(to) !in d.dirs then None
    else Some(d.(files := (d.files - {from})[to := d.files[from]]))
  }

  datatype Removal = Removed(disk: Disk) | Absent | NotEmpty

  function Remove(d: Disk, p: Path): Removal {
    if p in d.files then Removed(d.(files := d.files - {p}))
    else if p !in d.dirs then Absent
    else if p == [] || HasChild(d, p) then NotEmpty
    else Removed(d.(dirs := d.dirs - {p}))
  }

  /** A directory and its missing parents; refused when a file is in the way. */
  function EnsureDir(d: Disk, p: Path): Option<Disk> {
    if exists k | 0 <= k <= |p| :: p[..k] in d.files then None
    else Some(d.(dirs := d.dirs + Prefixes(p)))
  }

  /** A new file beside its final place, or a file put in place in one step. */
  function Put(d: Disk, p: Path, file: File): Option<Disk> {
    if p == [] || p in d.dirs || Parent(p) !in d.dirs then None
    else Some(d.(files := d.files[p := file]))
  }

  // ---- the tree stays a tree ----

  lemma PrefixesOf(p: Path, q: Path)
    ensures q in Prefixes(p) <==> q <= p
  {
    if q <= p { assert q == p[..|q|]; }
  }

  lemma EnsureDirKeepsTree(d: Disk, p: Path)
    requires WellFormed(d) && EnsureDir(d, p).Some?
    ensures WellFormed(EnsureDir(d, p).value)
  {
    var after := EnsureDir(d, p).value;
    forall q | q in after.dirs && q != [] ensures Parent(q) in after.dirs {
      if q !in d.dirs {
        var k :| 0 <= k <= |p| && q == p[..k];
        assert Parent(q) == p[..k - 1];
      }
    }
  }

  /** Every directory above something on the disk is on the disk. */
  lemma {:induction false} AboveIsDirectory(d: Disk, q: Path, p: Path)
    requires WellFormed(d) && (q in d.files || q in d.dirs) && Beneath(q, p)
    ensures p in d.dirs
    decreases |q|
  {
    var up := Parent(q);
    assert up in d.dirs;
    if up != p {
      assert p < up;
      AboveIsDirectory(d, up, p);
    }
  }

  lemma PrefixesPresent(d: Disk, p: Path)
    requires WellFormed(d) && p in d.dirs
    ensures Prefixes(p) <= d.dirs
    ensures EnsureDir(d, p) == Some(d)
  {
    forall q | q in Prefixes(p) ensures q in d.dirs {
      PrefixesOf(p, q);
      if q != p { AboveIsDirectory(d, p, q); }
    }
    forall k | 0 <= k <= |p| ensures p[..k] !in d.files {
      assert p[..k] in Prefixes(p);
    }
    assert d.dirs + Prefixes(p) == d.dirs;
  }

  lemma WhatRemains(d: Disk, p: Path)
    requires WellFormed(d) && p in d.dirs && p != []
    ensures Remove(d, p) == NotEmpty <==> exists q :: (q in d.files || q in d.dirs) && Beneath(q, p)
  {
    if Remove(d, p) == NotEmpty {
      assert HasChild(d, p);
      var q :| (q in d.files || q in d.dirs) && IsChild(q, p);
      assert IsChild(q, p);
      assert Parent(q) == p;
      assert q == p + [q[|q| - 1]];
    }
    if exists q :: (q in d.files || q in d.dirs) && Beneath(q, p) {
      var q :| (q in d.files || q in d.dirs) && Beneath(q, p);
      ChildOnTheWay(d, p, q);
    }
  }

  lemma {:induction false} ChildOnTheWay(d: Disk, p: Path, q: Path)
    requires WellFormed(d) && (q in d.files || q in d.dirs) && Beneath(q, p)
    ensures HasChild(d, p)
    decreases |q|
  {
    if Parent(q) == p {
      assert IsChild(q, p);
    } else {
      assert p < Parent(q);
      ChildOnTheWay(d, p, Parent(q));
    }
  }
}
