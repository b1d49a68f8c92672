/** Renaming and deleting a group. */
module Layout {
  // Renaming and deleting a group: which files move where, which directories come to be
  // empty, and when the request built from that can be committed.  A group is the list of
  // its name's segments, so "nested in" is "has as a prefix".

  import opened Results
  import opened Disks
  import opened Journal
  import opened Planning
  import opened Guarantees

  type Group = seq<string>

  datatype LayoutError = Unchanged | SelfNesting | GroupExists | NotDeclared | TargetTaken

  datatype GroupPlan = GroupPlan(renamed: map<Group, Group>, next: seq<Group>)

  // ---- which groups go where ----

  function NewName(from: Group, to: Group, name: Group): Group
    requires from <= name
  {
    to + name[|from|..]
  }

  /** Every declared group at or below `from`, under its new name. */
  function Renamed(declared: seq<Group>, from: Group, to: Group): map<Group, Group> {
    map d | d in declared && from <= d :: NewName(from, to, d)
  }

  function AfterRename(declared: seq<Group>, from: Group, to: Group): seq<Group> {
    seq(|declared|, i requires 0 <= i < |declared| => if from <= declared[i] then NewName(from, to, declared[i]) else declared[i])
  }

  predicate Taken(declared: seq<Group>, from: Group, to: Group) {
    exists i :: 0 <= i < |declared| && !(from <= declared[i]) && to <= declared[i]
  }

  predicate AnyWithin(declared: seq<Group>, from: Group) { exists i :: 0 <= i < |declared| && from <= declared[i] }

  method PlanGroupRename(declared: seq<Group>, from: Group, to: Group) returns (r: Result<GroupPlan, LayoutError>)
    requires from != [] && to != []
    ensures r == if from == to then Err(Unchanged)
                 else if from <= to then Err(SelfNesting)
                 else if Taken(declared, from, to) then Err(GroupExists)
                 else if !AnyWithin(declared, from) then Err(NotDeclared)
                 else Ok(GroupPlan(Renamed(declared, from, to), AfterRename(declared, from, to)))
  {
    if from == to { return Err(Unchanged); }
    if from <= to { return Err(SelfNesting); }
    var renamed: map<Group, Group> := map[];
    for k := 0 to |declared|
      invariant renamed == Renamed(declared[..k], from, to)
      invariant forall i :: 0 <= i < k ==> from <= declared[i] || !(to <= declared[i])
    {
      var name := declared[k];
      assert forall d :: d in declared[..k + 1] <==> d in declared[..k] || d == name;
      if from <= name {
        renamed := renamed[name := to + name[|from|..]];
      } else if to <= name {
        return Err(GroupExists);
      }
    }
    assert declared[..|declared|] == declared;
    if |renamed| == 0 {
      forall i | 0 <= i < |declared| ensures !(from <= declared[i]) { assert declared[i] !in renamed; }
      return Err(NotDeclared);
    }
    assert AnyWithin(declared, from) by {
      var d :| d in renamed;
      assert d in declared;
    }
    var next := RenamedList(declared, renamed, from, to);
    return Ok(GroupPlan(renamed, next));
  }

  method RenamedList(declared: seq<Group>, renamed: map<Group, Group>, ghost from: Group, ghost to: Group) returns (next: seq<Group>)
    requires renamed == Renamed(declared, from, to)
    ensures next == AfterRename(declared, from, to)
  {
    next := [];
    for k := 0 to |declared|
      invariant next == AfterRename(declared, from, to)[..k]
    {
      assert declared[k] in declared;
      next := next + [if declared[k] in renamed then renamed[declared[k]] else declared[k]];
    }
    assert AfterRename(declared, from, to)[..|declared|] == AfterRename(declared, from, to);
  }

  function Flattened(declared: seq<Group>, name: Group, destination: Group): map<Group, Group> {
    map d | d in declared && name <= d :: destination
  }

  function Without(declared: seq<Group>, name: Group): seq<Group> {
    if declared == [] then []
    else Without(declared[..|declared| - 1], name) + if name <= declared[|declared| - 1] then [] else [declared[|declared| - 1]]
  }

  /** An empty destination stands for the tree's own root. */
  method PlanGroupDelete(declared: seq<Group>, name: Group, destination: Group) returns (r: Result<GroupPlan, LayoutError>)
    requires name != []
    ensures r == if destination != [] && name <= destination then Err(SelfNesting)
                 else if !AnyWithin(declared, name) then Err(NotDeclared)
                 else if destination != [] && destination !in Without(declared, name) then Err(NotDeclared)
                 else Ok(GroupPlan(Flattened(declared, name, destination), Without(declared, name)))
  {
    if destination != [] && name <= destination { return Err(SelfNesting); }
    var moved: map<Group, Group> := map[];
    var next: seq<Group> := [];
    for k := 0 to |declared|
      invariant next == Without(declared[..k], name) && moved == Flattened(declared[..k], name, destination)
    {
      assert declared[..k + 1][..k] == declared[..k];
      assert forall d :: d in declared[..k + 1] <==> d in declared[..k] || d == declared[k];
      if name <= declared[k] { moved := moved[declared[k] := destination]; } else { next := next + [declared[k]]; }
    }
    assert declared[..|declared|] == declared;
    if |moved| == 0 {
      forall i | 0 <= i < |declared| ensures !(name <= declared[i]) { assert declared[i] !in moved; }
      return Err(NotDeclared);
    }
    assert AnyWithin(declared, name) by {
      var d :| d in moved;
      assert d in declared;
    }
    if destination != [] {
      var found := false;
      for k := 0 to |next|
        invariant found <==> destination in next[..k]
      {
        assert next[..k + 1] == next[..k] + [next[k]];
        if next[k] == destination { found := true; }
      }
      assert next[..|next|] == next;
      if !found { return Err(NotDeclared); }
    }
    return Ok(GroupPlan(moved, next));
  }

  // ---- which files move ----

  const Connections: string := "connections"
  const Keys: string := "keys"

  function GroupDirectory(root: string, name: Group): Path { [root] + name }

  /** The file's place once its group is elsewhere. */
  predicate Relocates(d: Disk, renamed: map<Group, Group>, root: string, from: Path, to: Path) {
    && from in d.files && |from| >= 2 && from[0] == root && from[1..|from| - 1] in renamed
    && to == GroupDirectory(root, renamed[from[1..|from| - 1]]) + [from[|from| - 1]]
  }

  method GroupFileMoves(d: Disk, renamed: map<Group, Group>, root: string) returns (moves: seq<(Path, Path)>)
    ensures forall m :: m in moves <==> Relocates(d, renamed, root, m.0, m.1)
    ensures forall i, j :: 0 <= i < j < |moves| ==> moves[i].0 != moves[j].0
  {
    moves := [];
    var pending := renamed.Keys;
    while pending != {}
      invariant pending <= renamed.Keys
      invariant forall m :: m in moves <==> Relocates(d, renamed, root, m.0, m.1) && m.0[1..|m.0| - 1] !in pending
      invariant forall i, j :: 0 <= i < j < |moves| ==> moves[i].0 != moves[j].0
      decreases |pending|
    {
      var name :| name in pending;
      var source := GroupDirectory(root, name);
      var entries := set p | p in d.files && IsChild(p, source);
      ghost var before := moves;
      while entries != {}
        invariant forall p :: p in entries ==> p in d.files && IsChild(p, source)
        invariant forall m :: m in moves <==>
          || m in before
          || (Relocates(d, renamed, root, m.0, m.1) && IsChild(m.0, source) && m.0 !in entries)
        invariant forall i, j :: 0 <= i < j < |moves| ==> moves[i].0 != moves[j].0
        decreases |entries|
      {
        var entry :| entry in entries;
        forall i | 0 <= i < |moves| ensures moves[i].0 != entry { assert moves[i] in moves; }
        moves := moves + [(entry, GroupDirectory(root, renamed[name]) + [entry[|entry| - 1]])];
        entries := entries - {entry};
      }
      forall m: (Path, Path) | Relocates(d, renamed, root, m.0, m.1) ensures IsChild(m.0, source) <==> m.0[1..|m.0| - 1] == name {}
      pending := pending - {name};
    }
  }

  // ---- which directories are left empty ----

  function Below(d: Disk, dir: Path): set<Path> { set x | x in d.dirs && dir <= x }

  lemma ChildSmaller(d: Disk, dir: Path, child: Path)
    requires dir in d.dirs && child in d.dirs && IsChild(child, dir)
    ensures |Below(d, child)| < |Below(d, dir)|
  {
    assert dir in Below(d, dir) && dir !in Below(d, child);
    assert Below(d, child) <= Below(d, dir) - {dir};
    Smaller(Below(d, child), Below(d, dir) - {dir});
  }

  lemma {:induction false} Smaller(a: set<Path>, b: set<Path>)
    requires a <= b
    ensures |a| <= |b|
    decreases |a|
  {
    if a != {} {
      var x :| x in a;
      Smaller(a - {x}, b - {x});
    }
  }

  /** Nothing is left in the directory once the moving files and the directories given up are gone. */
  predicate Empties(d: Disk, ours: set<Path>, moving: set<Path>, dir: Path)
    decreases if dir in d.dirs then |Below(d, dir)| else 0
  {
    && dir in d.dirs
    && (forall q | q in d.files && IsChild(q, dir) :: q in moving)
    && (forall q | q in d.dirs && IsChild(q, dir) :: q in ours && (ChildSmaller(d, dir, q); Empties(d, ours, moving, q)))
  }

  lemma EmptiesWhen(d: Disk, ours: set<Path>, moving: set<Path>, dir: Path)
    requires dir in d.dirs
    ensures Empties(d, ours, moving, dir) <==>
      && (forall q :: q in d.files && IsChild(q, dir) ==> q in moving)
      && (forall q :: q in d.dirs && IsChild(q, dir) ==> q in ours && Empties(d, ours, moving, q))
  {}

  class Vacancies {
    var removable: seq<Path>

    constructor ()
      ensures removable == []
    {
      removable := [];
    }

    ghost predicate Right(d: Disk, ours: set<Path>, moving: set<Path>)
      reads this
    {
      && (forall x :: x in removable ==> x in ours && Empties(d, ours, moving, x))
      && (forall i, j :: 0 <= i < j < |removable| ==> removable[i] != removable[j])
    }

    method Visit(d: Disk, ours: set<Path>, moving: set<Path>, dir: Path) returns (empties: bool)
      requires dir in ours && Right(d, ours, moving)
      modifies this
      ensures Right(d, ours, moving) && empties == Empties(d, ours, moving, dir)
      ensures forall x :: x in old(removable) ==> x in removable
      ensures empties ==> dir in removable
      decreases if dir in d.dirs then |Below(d, dir)| else 0
    {
      if dir !in d.dirs { return false; }
      empties := true;
      var files := set q | q in d.files && IsChild(q, dir);
      if exists q :: q in files && q !in moving { empties := false; }
      assert forall q :: q in files <==> q in d.files && IsChild(q, dir);
      var pending := set q | q in d.dirs && IsChild(q, dir);
      ghost var children := pending;
      ghost var filesGo := empties;
      while pending != {}
        invariant pending <= children && Right(d, ours, moving)
        invariant forall x :: x in old(removable) ==> x in removable
        invariant empties <==> filesGo && forall q :: q in children - pending ==> q in ours && Empties(d, ours, moving, q)
        decreases |pending|
      {
        var child :| child in pending;
        pending := pending - {child};
        if child !in ours {
          empties := false;
        } else {
          ChildSmaller(d, dir, child);
          var childEmpties := Visit(d, ours, moving, child);
          if !childEmpties { empties := false; }
        }
      }
      EmptiesWhen(d, ours, moving, dir);
      assert forall q :: q in children <==> q in d.dirs && IsChild(q, dir);
      assert filesGo <==> forall q :: q in d.files && IsChild(q, dir) ==> q in moving;
      if !empties { return; }
      if dir !in removable { removable := removable + [dir]; }
    }
  }

  /** The sources that can go: exactly those that end up empty. */
  method EmptiedDirectories(d: Disk, sources: set<Path>, moving: set<Path>) returns (removable: seq<Path>)
    ensures forall x :: x in removable <==> x in sources && Empties(d, sources, moving, x)
    ensures forall i, j :: 0 <= i < j < |removable| ==> removable[i] != removable[j]
  {
    var vacancies := new Vacancies();
    var pending := sources;
    while pending != {}
      invariant pending <= sources && vacancies.Right(d, sources, moving)
      invariant forall x :: x in sources - pending && Empties(d, sources, moving, x) ==> x in vacancies.removable
      decreases |pending|
    {
      var source :| source in pending;
      pending := pending - {source};
      var empties := vacancies.Visit(d, sources, moving, source);
    }
    removable := vacancies.removable;
  }

  // ---- the request ----

  function Sources(renamed: map<Group, Group>): set<Path> {
    (set n | n in renamed :: GroupDirectory(Connections, n)) + (set n | n in renamed :: GroupDirectory(Keys, n))
  }

  predicate FileMoves(d: Disk, renamed: map<Group, Group>, from: Path, to: Path) {
    Relocates(d, renamed, Connections, from, to) || Relocates(d, renamed, Keys, from, to)
  }

  function MovingFiles(d: Disk, renamed: map<Group, Group>): set<Path> {
    set p | p in d.files && |p| >= 2 && p[0] in {Connections, Keys} && p[1..|p| - 1] in renamed
  }

  lemma MovingAre(d: Disk, renamed: map<Group, Group>, p: Path)
    ensures p in MovingFiles(d, renamed) <==> exists to :: FileMoves(d, renamed, p, to)
  {
    if p in MovingFiles(d, renamed) {
      assert FileMoves(d, renamed, p, GroupDirectory(p[0], renamed[p[1..|p| - 1]]) + [p[|p| - 1]]);
    }
  }

  /** A request that carries out the plan: the moves, their directories, and the directories left empty. */
  ghost predicate Carries(d: Disk, renamed: map<Group, Group>, changes: seq<Change>, request: Request) {
    && request.changes == changes && request.removals == []
    && (forall m :: m in request.moves ==> FileMoves(d, renamed, m.from, m.to) && m.precondition == CurrentDigest(d, m.from))
    && (forall from, to :: FileMoves(d, renamed, from, to) ==> MovesTo(request, to) && MovesFrom(request, from))
    && (forall q :: CreatesDirectory(request, q) <==> exists to :: MovesTo(request, to) && to != [] && q == Parent(to))
    && (forall x :: x in request.removeDirectories <==> x in Sources(renamed) && Empties(d, Sources(renamed), MovingFiles(d, renamed), x))
    && (forall i, j :: 0 <= i < j < |request.removeDirectories| ==> request.removeDirectories[i] != request.removeDirectories[j])
  }

  predicate MovesFrom(request: Request, p: Path) {
    exists i :: 0 <= i < |request.moves| && request.moves[i].from == p
  }

  /** Every file to move, unless something stands where one should go. */
  method PlanGroupLayout(d: Disk, renamed: map<Group, Group>, changes: seq<Change>) returns (r: Result<Request, LayoutError>)
    ensures r.Err? ==> r == Err(TargetTaken) && exists from, to :: FileMoves(d, renamed, from, to) && (to in d.files || to in d.dirs)
    ensures r.Ok? ==> Carries(d, renamed, changes, r.value)
                      && forall from, to :: FileMoves(d, renamed, from, to) ==> to !in d.files && to !in d.dirs
  {
    hide Empties, Relocates;
    var connectionMoves := GroupFileMoves(d, renamed, Connections);
    var keyMoves := GroupFileMoves(d, renamed, Keys);
    var relocations := connectionMoves + keyMoves;
    var moves: seq<FileMove> := [];
    var directories: seq<Path> := [];
    for k := 0 to |relocations|
      invariant |moves| == k && forall i :: 0 <= i < k ==> moves[i] == FileMove(relocations[i].0, relocations[i].1, CurrentDigest(d, relocations[i].0))
      invariant forall i :: 0 <= i < k ==> relocations[i].1 !in d.files && relocations[i].1 !in d.dirs
      invariant forall q :: q in directories <==> exists i :: 0 <= i < k && relocations[i].1 != [] && q == Parent(relocations[i].1)
    {
      var from, to := relocations[k].0, relocations[k].1;
      assert relocations[k] in relocations;
      assert FileMoves(d, renamed, from, to);
      if to in d.files || to in d.dirs { return Err(TargetTaken); }
      moves := moves + [FileMove(from, to, CurrentDigest(d, from))];
      TargetShown(d, renamed, from, to);
      if Parent(to) !in directories { directories := directories + [Parent(to)]; }
    }
    var emptied := EmptiedDirectories(d, Sources(renamed), MovingFiles(d, renamed));
    var request := Request(directories, changes, moves, [], emptied);
    RelocationsCarried(d, renamed, changes, connectionMoves, keyMoves, request);
    return Ok(request);
  }

  lemma TargetShown(d: Disk, renamed: map<Group, Group>, from: Path, to: Path)
    requires FileMoves(d, renamed, from, to)
    ensures to != []
  {}

  lemma RelocationsCarried(d: Disk, renamed: map<Group, Group>, changes: seq<Change>,
                           connections: seq<(Path, Path)>, keys: seq<(Path, Path)>, request: Request)
    requires forall m :: m in connections <==> Relocates(d, renamed, Connections, m.0, m.1)
    requires forall m :: m in keys <==> Relocates(d, renamed, Keys, m.0, m.1)
    requires |request.moves| == |connections + keys| && request.changes == changes && request.removals == []
    requires forall i :: 0 <= i < |request.moves| ==> request.moves[i] == FileMove((connections + keys)[i].0, (connections + keys)[i].1, CurrentDigest(d, (connections + keys)[i].0))
    requires forall q :: q in request.directories <==> exists i :: 0 <= i < |connections + keys| && (connections + keys)[i].1 != [] && q == Parent((connections + keys)[i].1)
    requires forall x :: x in request.removeDirectories <==> x in Sources(renamed) && Empties(d, Sources(renamed), MovingFiles(d, renamed), x)
    requires forall i, j :: 0 <= i < j < |request.removeDirectories| ==> request.removeDirectories[i] != request.removeDirectories[j]
    ensures Carries(d, renamed, changes, request)
    ensures forall from, to :: FileMoves(d, renamed, from, to) ==> (from, to) in connections + keys
  {
    hide Relocates, Empties;
    var all := connections + keys;
    forall m | m in request.moves ensures FileMoves(d, renamed, m.from, m.to) && m.precondition == CurrentDigest(d, m.from) {
      var i :| 0 <= i < |request.moves| && request.moves[i] == m;
      assert all[i] in all;
    }
    forall from, to | FileMoves(d, renamed, from, to) ensures (from, to) in all && MovesTo(request, to) && MovesFrom(request, from) {
      assert (from, to) in connections || (from, to) in keys;
      assert (from, to) in all;
      var i :| 0 <= i < |all| && all[i] == (from, to);
      assert request.moves[i].to == to;
    }
    forall q ensures CreatesDirectory(request, q) <==> exists to :: MovesTo(request, to) && to != [] && q == Parent(to) {
      assert CreatesDirectory(request, q) <==> q in request.directories;
      if q in request.directories {
        var i :| 0 <= i < |all| && all[i].1 != [] && q == Parent(all[i].1);
        assert request.moves[i].to == all[i].1;
        assert MovesTo(request, all[i].1);
      }
    }
  }
}
