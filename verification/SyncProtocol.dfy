/** Remote sync. */
module SyncProtocol {
  // Push, pull and apply by any number of machines against shared buckets, as a state
  // machine over the single calls each of them makes.  Between any two calls another
  // operation of any machine may run, a machine may crash or be configured anew, and the
  // answer to a write may be lost after the store has taken it.
  //
  // The store's conditional writes are those of sections 13.1.1 (If-Match) and 13.1.2
  // (If-None-Match) of RFC 9110, and the store never gives an entity tag twice.  Tag 0
  // stands for no tag.

  import opened Results
  import opened Text
  import opened SyncPlan

  // ---- keys ----

  function TrimLeft(text: string): string { if text != "" && text[0] == '/' then TrimLeft(text[1..]) else text }

  function TrimRight(text: string): string {
    if text != "" && text[|text| - 1] == '/' then TrimRight(text[..|text| - 1]) else text
  }

  function JoinKey(path: string, name: string): string {
    var trimmed := TrimRight(TrimLeft(path));
    if trimmed == "" then name else trimmed + "/" + name
  }

  const ArchiveSuffix: string := "tar.gz.enc"
  const ObjectName: string := "workspace." + ArchiveSuffix

  function ObjectKeyFor(path: string): string { JoinKey(path, ObjectName) }
  function SnapshotKeyFor(path: string, stamp: string): string { JoinKey(path, "snapshots/" + stamp + "." + ArchiveSuffix) }

  /** A formatted moment ends in a digit. */
  predicate IsStamp(stamp: string) { stamp != "" && '0' <= stamp[|stamp| - 1] <= '9' }

  predicate LiveKey(key: string) { |key| > 11 && key[|key| - 12] == 'e' }

  /** A dated copy never lands on a live object, whatever the two paths are. */
  lemma KeysApart(path: string, other: string, stamp: string)
    requires IsStamp(stamp)
    ensures LiveKey(ObjectKeyFor(path)) && !LiveKey(SnapshotKeyFor(other, stamp))
  {
    var name := "snapshots/" + stamp + "." + ArchiveSuffix;
    assert |ArchiveSuffix| == 10 && |ObjectName| == 20 && ObjectName[8] == 'e';
    assert name == ("snapshots/" + stamp) + ("." + ArchiveSuffix);
    assert name[|name| - 12] == ("snapshots/" + stamp)[|"snapshots/" + stamp| - 1] == stamp[|stamp| - 1];
  }

  predicate OnlySlashes(text: string) { forall i :: 0 <= i < |text| ==> text[i] == '/' }

  lemma {:induction false} LeftTrimmed(front: string, rest: string)
    requires OnlySlashes(front) && (rest == "" || rest[0] != '/')
    ensures TrimLeft(front + rest) == rest
  {
    if front == "" {
      assert front + rest == rest;
    } else {
      assert (front + rest)[1..] == front[1..] + rest;
      LeftTrimmed(front[1..], rest);
    }
  }

  lemma {:induction false} RightTrimmed(rest: string, back: string)
    requires OnlySlashes(back) && (rest == "" || rest[|rest| - 1] != '/')
    ensures TrimRight(rest + back) == rest
  {
    if back == "" {
      assert rest + back == rest;
    } else {
      assert (rest + back)[..|rest + back| - 1] == rest + back[..|back| - 1];
      RightTrimmed(rest, back[..|back| - 1]);
    }
  }

  /** The object of a path is the one archive in that folder; slashes around the path say nothing. */
  lemma KeysOf(front: string, folder: string, back: string, stamp: string)
    requires OnlySlashes(front) && OnlySlashes(back) && (folder != "" ==> folder[0] != '/' && folder[|folder| - 1] != '/')
    ensures var within := if folder == "" then "" else folder + "/";
            && ObjectKeyFor(front + folder + back) == within + "workspace.tar.gz.enc"
            && SnapshotKeyFor(front + folder + back, stamp) == within + "snapshots/" + stamp + ".tar.gz.enc"
  {
    var path := front + folder + back;
    if folder == "" {
      assert path == (front + back) + "";
      LeftTrimmed(front + back, "");
    } else {
      assert path == front + (folder + back);
      LeftTrimmed(front, folder + back);
      RightTrimmed(folder, back);
      assert TrimRight(TrimLeft(path)) == folder;
      assert folder + "/" + ("snapshots/" + stamp + ".tar.gz.enc") == folder + "/" + "snapshots/" + stamp + ".tar.gz.enc";
    }
    assert ObjectName == "workspace.tar.gz.enc";
  }

  // ---- the world ----

  datatype Location = Location(bucket: string, key: string)
  datatype Object = Object(etag: nat, manifest: Manifest)

  datatype Direction = Both | PushOnly | PullOnly
  /** `bucket` stands for the endpoint and the bucket together. */
  datatype Binding = Binding(bucket: string, path: string, direction: Direction)

  /** What a machine keeps of its last sync. */
  datatype Record = Record(etag: nat, key: string, base: Option<Manifest>)

  const NoRecord: Record := Record(0, "", None)

  /** Where an operation stands between two of its calls. */
  datatype Thread =
    | PushBound(machine: nat, binding: Binding)
    | PushRead(machine: nat, binding: Binding, record: Record)
    | PushBuilt(machine: nat, binding: Binding, record: Record, manifest: Manifest, stamp: string)
    | PushDated(machine: nat, binding: Binding, record: Record, manifest: Manifest)
    | PushDone(machine: nat, key: string, manifest: Manifest, etag: nat)
    | PullBound(machine: nat, binding: Binding)
    | PullGot(machine: nat, key: string, manifest: Manifest, etag: nat)
    | PullPlanned(machine: nat, key: string, manifest: Manifest, etag: nat, conflicts: bool)
    | Applied(machine: nat, key: string, manifest: Manifest, etag: nat)

  /** A live object as it was written: by whom, and over which version (0 when created). */
  datatype Version = Version(at: Location, manifest: Manifest, author: nat, replaced: nat)

  /** `versions` and `synced` are history: every live write, and which machine recorded which version. */
  datatype World = World(store: map<Location, Object>, nextTag: nat, bindings: map<nat, Binding>, records: map<nat, Record>,
                         threads: map<nat, Thread>, versions: map<nat, Version>, synced: set<(nat, nat)>)
  {
    function RecordOf(machine: nat): Record { if machine in records then records[machine] else NoRecord }
  }

  // ---- the calls ----

  /** If-Match a tag, or If-None-Match: * when there is none. */
  predicate Accepts(store: map<Location, Object>, at: Location, tag: nat) {
    if tag == 0 then at !in store else at in store && store[at].etag == tag
  }

  /** A version of another object says nothing about this one. */
  function ConditionTag(record: Record, key: string): nat { if record.key == key then record.etag else 0 }

  datatype Step =
    | Configure(machine: nat, binding: Binding)
    | BeginPush(thread: nat, machine: nat)
    | ReadState(thread: nat)
    | Build(thread: nat, manifest: Manifest, stamp: string)
    | PutDated(thread: nat)
    | PutLive(thread: nat, answered: bool)
    | RecordPush(thread: nat)
    | BeginPull(thread: nat, machine: nat)
    | Get(thread: nat)
    | PlanPull(thread: nat, conflicts: bool)
    | Commit(thread: nat)
    | RecordApply(thread: nat)
    | Stop(thread: nat)
    | Crash(machine: nat)
    | LoseState(machine: nat)

  predicate Enabled(w: World, step: Step) {
    match step
    case Configure(_, _) => true
    case BeginPush(t, m) => t !in w.threads && m in w.bindings && w.bindings[m].direction != PullOnly
    case ReadState(t) => t in w.threads && w.threads[t].PushBound?
    case Build(t, _, stamp) => t in w.threads && w.threads[t].PushRead? && IsStamp(stamp)
    case PutDated(t) => t in w.threads && w.threads[t].PushBuilt?
    case PutLive(t, _) => t in w.threads && w.threads[t].PushDated?
    case RecordPush(t) => t in w.threads && w.threads[t].PushDone?
    case BeginPull(t, m) => t !in w.threads && m in w.bindings
    case Get(t) => t in w.threads && w.threads[t].PullBound?
    case PlanPull(t, _) => t in w.threads && w.threads[t].PullGot?
    case Commit(t) =>
      && t in w.threads && w.threads[t].PullPlanned? && !w.threads[t].conflicts
      && (w.threads[t].machine in w.bindings ==> w.bindings[w.threads[t].machine].direction != PushOnly)
    case RecordApply(t) => t in w.threads && w.threads[t].Applied?
    case Stop(t) => t in w.threads
    case Crash(_) => true
    case LoseState(_) => true
  }

  function PushLocation(thread: Thread): Location
    requires thread.PushDated?
  {
    Location(thread.binding.bucket, ObjectKeyFor(thread.binding.path))
  }

  function PushTag(thread: Thread): nat
    requires thread.PushDated?
  {
    ConditionTag(thread.record, ObjectKeyFor(thread.binding.path))
  }

  /** A live write that the store takes. */
  function Written(w: World, t: nat, answered: bool): World
    requires t in w.threads && w.threads[t].PushDated?
  {
    var thread := w.threads[t];
    var at := PushLocation(thread);
    w.(store := w.store[at := Object(w.nextTag, thread.manifest)], nextTag := w.nextTag + 1,
       versions := w.versions[w.nextTag := Version(at, thread.manifest, thread.machine, PushTag(thread))],
       threads := if answered then w.threads[t := PushDone(thread.machine, at.key, thread.manifest, w.nextTag)] else w.threads - {t})
  }

  function Recorded(w: World, t: nat, machine: nat, key: string, manifest: Manifest, etag: nat): World {
    w.(records := w.records[machine := Record(etag, key, Some(manifest))],
       synced := w.synced + {(machine, etag)}, threads := w.threads - {t})
  }

  function Do(w: World, step: Step): World
    requires Enabled(w, step)
  {
    match step
    case Configure(m, b) => w.(bindings := w.bindings[m := b])
    case BeginPush(t, m) => w.(threads := w.threads[t := PushBound(m, w.bindings[m])])
    case ReadState(t) =>
      w.(threads := w.threads[t := PushRead(w.threads[t].machine, w.threads[t].binding, w.RecordOf(w.threads[t].machine))])
    case Build(t, manifest, stamp) =>
      w.(threads := w.threads[t := PushBuilt(w.threads[t].machine, w.threads[t].binding, w.threads[t].record, manifest, stamp)])
    case PutDated(t) =>
      var thread := w.threads[t];
      w.(store := w.store[Location(thread.binding.bucket, SnapshotKeyFor(thread.binding.path, thread.stamp)) := Object(w.nextTag, thread.manifest)],
         nextTag := w.nextTag + 1,
         threads := w.threads[t := PushDated(thread.machine, thread.binding, thread.record, thread.manifest)])
    case PutLive(t, answered) =>
      if Accepts(w.store, PushLocation(w.threads[t]), PushTag(w.threads[t])) then Written(w, t, answered)
      else w.(threads := w.threads - {t})
    case RecordPush(t) => Recorded(w, t, w.threads[t].machine, w.threads[t].key, w.threads[t].manifest, w.threads[t].etag)
    case BeginPull(t, m) => w.(threads := w.threads[t := PullBound(m, w.bindings[m])])
    case Get(t) =>
      var thread := w.threads[t];
      var at := Location(thread.binding.bucket, ObjectKeyFor(thread.binding.path));
      if at in w.store then w.(threads := w.threads[t := PullGot(thread.machine, at.key, w.store[at].manifest, w.store[at].etag)])
      else w.(threads := w.threads - {t})
    case PlanPull(t, conflicts) =>
      w.(threads := w.threads[t := PullPlanned(w.threads[t].machine, w.threads[t].key, w.threads[t].manifest, w.threads[t].etag, conflicts)])
    case Commit(t) => w.(threads := w.threads[t := Applied(w.threads[t].machine, w.threads[t].key, w.threads[t].manifest, w.threads[t].etag)])
    case RecordApply(t) => Recorded(w, t, w.threads[t].machine, w.threads[t].key, w.threads[t].manifest, w.threads[t].etag)
    case Stop(t) => w.(threads := w.threads - {t})
    case Crash(m) => w.(threads := map t | t in w.threads && w.threads[t].machine != m :: w.threads[t], bindings := w.bindings - {m})
    case LoseState(m) => w.(records := w.records - {m})
  }

  // ---- the invariant ----

  /** The version a tag names, with this key and manifest. */
  predicate Names(w: World, etag: nat, key: string, manifest: Manifest) {
    etag in w.versions && w.versions[etag].at.key == key && w.versions[etag].manifest == manifest
  }

  /** A record names a version its machine pushed or applied, with that version's manifest as the base. */
  predicate Grounded(w: World, machine: nat, record: Record) {
    record.etag != 0 ==>
      record.base.Some? && Names(w, record.etag, record.key, record.base.value) && (machine, record.etag) in w.synced
  }

  predicate ThreadGrounded(w: World, thread: Thread) {
    match thread
    case PushBound(_, _) => true
    case PushRead(m, _, record) => Grounded(w, m, record)
    case PushBuilt(m, _, record, _, stamp) => Grounded(w, m, record) && IsStamp(stamp)
    case PushDated(m, _, record, _) => Grounded(w, m, record)
    case PushDone(_, key, manifest, etag) => Names(w, etag, key, manifest)
    case PullBound(_, _) => true
    case PullGot(_, key, manifest, etag) => Names(w, etag, key, manifest)
    case PullPlanned(_, key, manifest, etag, _) => Names(w, etag, key, manifest)
    case Applied(_, key, manifest, etag) => Names(w, etag, key, manifest)
  }

  /** Tags are fresh, and a version replaces an earlier one of its own object, which its author had synced. */
  predicate Sound(w: World, e: nat)
    requires e in w.versions
  {
    var v := w.versions[e];
    && 0 < e < w.nextTag && LiveKey(v.at.key)
    && (v.replaced != 0 ==>
          v.replaced in w.versions && v.replaced < e && w.versions[v.replaced].at == v.at && (v.author, v.replaced) in w.synced)
  }

  ghost predicate AllSound(w: World) { forall e :: e in w.versions ==> Sound(w, e) }

  /** No two versions of an object replace the same one, and only one creates it. */
  ghost predicate NoFork(w: World) {
    forall e, f :: e in w.versions && f in w.versions && e != f && w.versions[e].at == w.versions[f].at
                   ==> w.versions[e].replaced != w.versions[f].replaced
  }

  /** The object that is live is its newest version; every other one has been replaced. */
  predicate HeadAt(w: World, at: Location) {
    && at in w.store && w.store[at].etag in w.versions && w.versions[w.store[at].etag].at == at
    && w.versions[w.store[at].etag].manifest == w.store[at].manifest
  }

  ghost predicate Heads(w: World) {
    && (forall at: Location :: LiveKey(at.key) && at in w.store ==> HeadAt(w, at))
    && (forall e :: e in w.versions ==> w.versions[e].at in w.store)
    && (forall e :: e in w.versions ==> w.versions[e].replaced != w.store[w.versions[e].at].etag)
    && (forall e :: e in w.versions && e != w.store[w.versions[e].at].etag ==> ReplacedLater(w, e))
  }

  predicate ReplacedLater(w: World, e: nat) { exists f :: f in w.versions && w.versions[f].replaced == e }

  ghost predicate AllGrounded(w: World) {
    && (forall m :: m in w.records ==> Grounded(w, m, w.records[m]))
    && (forall t :: t in w.threads ==> ThreadGrounded(w, w.threads[t]))
  }

  ghost predicate Inv(w: World) {
    w.nextTag > 0 && AllSound(w) && NoFork(w) && Heads(w) && AllGrounded(w)
  }

  /** Nothing has been pushed yet; other objects may be in the store. */
  ghost predicate Start(w: World) {
    && w.nextTag > 0 && w.versions == map[] && w.synced == {} && w.threads == map[] && w.records == map[]
    && forall at :: at in w.store ==> !LiveKey(at.key)
  }

  // ---- every step keeps it ----

  /** A step that leaves the store's history alone. */
  predicate SameHistory(w: World, v: World) { v.store == w.store && v.nextTag == w.nextTag && v.versions == w.versions }

  lemma HistoryKept(w: World, v: World)
    requires Inv(w) && SameHistory(w, v) && w.synced <= v.synced && AllGrounded(v)
    ensures Inv(v)
  {
    hide AllGrounded;
    assert AllSound(v) by {
      forall e | e in v.versions ensures Sound(v, e) { assert Sound(w, e); }
    }
    assert Heads(v) by {
      forall e | e in v.versions && e != v.store[v.versions[e].at].etag ensures ReplacedLater(v, e) { assert ReplacedLater(w, e); }
      forall at: Location | LiveKey(at.key) && at in v.store ensures HeadAt(v, at) { assert HeadAt(w, at); }
    }
  }

  lemma LocalStep(w: World, step: Step)
    requires Inv(w) && Enabled(w, step) && !step.PutDated? && !step.PutLive? && !step.RecordPush? && !step.RecordApply?
    ensures Inv(Do(w, step))
  {
    hide AllSound, NoFork, Heads;
    var v := Do(w, step);
    assert SameHistory(w, v) && w.synced == v.synced;
    assert AllGrounded(v) by { LocalGrounded(w, step); }
    assert Inv(v) by { HistoryKept(w, v); }
  }

  lemma SameGrounded(w: World, v: World, thread: Thread)
    requires ThreadGrounded(w, thread) && w.versions == v.versions && w.synced <= v.synced
    ensures ThreadGrounded(v, thread)
  {}

  lemma LocalGrounded(w: World, step: Step)
    requires Inv(w) && Enabled(w, step) && !step.PutDated? && !step.PutLive? && !step.RecordPush? && !step.RecordApply?
    ensures AllGrounded(Do(w, step))
  {
    hide ThreadGrounded, AllSound, NoFork;
    var v := Do(w, step);
    forall t | t in v.threads ensures ThreadGrounded(v, v.threads[t]) {
      if t in w.threads && v.threads[t] == w.threads[t] {
        SameGrounded(w, v, w.threads[t]);
      } else {
        assert t in w.threads ==> ThreadGrounded(w, w.threads[t]);
        StepGrounded(w, step, t);
      }
    }
    forall m | m in v.records ensures Grounded(v, m, v.records[m]) { assert Grounded(w, m, w.records[m]); }
  }

  /** The thread that moves stays grounded. */
  lemma StepGrounded(w: World, step: Step, t: nat)
    requires Heads(w) && AllGrounded(w) && Enabled(w, step) && !step.PutDated? && !step.PutLive? && !step.RecordPush? && !step.RecordApply?
    requires t in Do(w, step).threads && (t in w.threads ==> ThreadGrounded(w, w.threads[t]) && Do(w, step).threads[t] != w.threads[t])
    ensures ThreadGrounded(Do(w, step), Do(w, step).threads[t])
  {
    match step
    case Get(_) =>
      var at := Location(w.threads[t].binding.bucket, ObjectKeyFor(w.threads[t].binding.path));
      KeysApart(w.threads[t].binding.path, "", "0");
      assert at in w.store ==> HeadAt(w, at);
    case _ =>
  }

  lemma RecordStep(w: World, t: nat, machine: nat, key: string, manifest: Manifest, etag: nat)
    requires Inv(w) && Names(w, etag, key, manifest)
    ensures Inv(Recorded(w, t, machine, key, manifest, etag))
  {
    hide ThreadGrounded, AllSound, NoFork, Heads;
    var v := Recorded(w, t, machine, key, manifest, etag);
    forall u | u in v.threads ensures ThreadGrounded(v, v.threads[u]) { SameGrounded(w, v, w.threads[u]); }
    forall m | m in v.records ensures Grounded(v, m, v.records[m]) {
      if m != machine { assert Grounded(w, m, w.records[m]); }
    }
    HistoryKept(w, v);
  }

  /** A write beside the live objects. */
  predicate WroteDated(w: World, v: World, at: Location, manifest: Manifest) {
    !LiveKey(at.key) && v.store == w.store[at := Object(w.nextTag, manifest)] && v.nextTag == w.nextTag + 1
    && v.versions == w.versions && v.synced == w.synced
  }

  lemma DatedSound(w: World, v: World, at: Location, manifest: Manifest)
    requires AllSound(w) && Heads(w) && WroteDated(w, v, at, manifest)
    ensures AllSound(v) && Heads(v)
  {
    hide HeadAt, ReplacedLater;
    forall e | e in v.versions ensures Sound(v, e) && v.store[v.versions[e].at] == w.store[w.versions[e].at] { assert Sound(w, e); }
    forall e | e in v.versions && e != v.store[v.versions[e].at].etag ensures ReplacedLater(v, e) { SameReplaced(w, v, e); }
    forall l: Location | LiveKey(l.key) && l in v.store ensures HeadAt(v, l) { SameHead(w, v, l); }
  }

  lemma SameReplaced(w: World, v: World, e: nat)
    requires v.versions == w.versions && ReplacedLater(w, e)
    ensures ReplacedLater(v, e)
  {}

  lemma SameHead(w: World, v: World, at: Location)
    requires v.versions == w.versions && at in w.store && at in v.store && v.store[at] == w.store[at] && HeadAt(w, at)
    ensures HeadAt(v, at)
  {}

  lemma DatedStep(w: World, t: nat)
    requires Inv(w) && Enabled(w, PutDated(t))
    ensures Inv(Do(w, PutDated(t)))
  {
    hide AllSound, Heads, NoFork, Grounded;
    var thread, v := w.threads[t], Do(w, PutDated(t));
    assert ThreadGrounded(w, thread);
    KeysApart("", thread.binding.path, thread.stamp);
    DatedSound(w, v, Location(thread.binding.bucket, SnapshotKeyFor(thread.binding.path, thread.stamp)), thread.manifest);
    assert NoFork(v) by { SameForks(w, v); }
    forall u | u in v.threads ensures ThreadGrounded(v, v.threads[u]) { DatedGrounded(w, v, t, u); }
    forall m | m in v.records ensures Grounded(v, m, v.records[m]) { RecordGrounded(w, v, m); }
  }

  lemma SameForks(w: World, v: World)
    requires NoFork(w) && v.versions == w.versions
    ensures NoFork(v)
  {}

  lemma DatedGrounded(w: World, v: World, t: nat, u: nat)
    requires AllGrounded(w) && Enabled(w, PutDated(t)) && v == Do(w, PutDated(t)) && u in v.threads
    ensures ThreadGrounded(v, v.threads[u])
  {
    assert ThreadGrounded(w, w.threads[u]);
    SameGrounded(w, v, w.threads[u]);
  }

  lemma RecordGrounded(w: World, v: World, machine: nat)
    requires AllGrounded(w) && machine in w.records && v.records == w.records && v.versions == w.versions && v.synced == w.synced
    ensures Grounded(v, machine, v.records[machine])
  {
    assert Grounded(w, machine, w.records[machine]);
  }

  /** A live write replaces exactly the version its author last synced, or creates the object. */
  lemma LivePutSafe(w: World, t: nat)
    requires Inv(w) && Enabled(w, PutLive(t, true))
    requires Accepts(w.store, PushLocation(w.threads[t]), PushTag(w.threads[t]))
    ensures var thread, at := w.threads[t], PushLocation(w.threads[t]);
            at in w.store ==>
              && thread.record.etag == w.store[at].etag != 0 && thread.record.key == at.key
              && thread.record.base == Some(w.store[at].manifest)
              && HeadAt(w, at) && (thread.machine, w.store[at].etag) in w.synced
    ensures PushLocation(w.threads[t]) !in w.store <==> PushTag(w.threads[t]) == 0
  {
    hide AllSound, NoFork;
    var thread, at := w.threads[t], PushLocation(w.threads[t]);
    assert ThreadGrounded(w, thread);
    KeysApart(thread.binding.path, "", "0");
    if at in w.store { assert HeadAt(w, at); }
  }

  /** What a taken live write does to the history. */
  predicate Wrote(w: World, v: World, at: Location, manifest: Manifest, author: nat, tag: nat) {
    && v.store == w.store[at := Object(w.nextTag, manifest)] && v.nextTag == w.nextTag + 1 && v.synced == w.synced
    && v.versions == w.versions[w.nextTag := Version(at, manifest, author, tag)]
  }

  /** A write that creates, or replaces the head its author had synced. */
  predicate SafeWrite(w: World, at: Location, author: nat, tag: nat) {
    && LiveKey(at.key) && (at !in w.store <==> tag == 0)
    && (at in w.store ==> HeadAt(w, at) && w.store[at].etag == tag && (author, tag) in w.synced)
  }

  lemma WriteIsSafe(w: World, t: nat, answered: bool)
    requires Inv(w) && Enabled(w, PutLive(t, answered)) && Accepts(w.store, PushLocation(w.threads[t]), PushTag(w.threads[t]))
    ensures var thread := w.threads[t];
            && Wrote(w, Written(w, t, answered), PushLocation(thread), thread.manifest, thread.machine, PushTag(thread))
            && SafeWrite(w, PushLocation(thread), thread.machine, PushTag(thread))
  {
    hide Inv;
    LivePutSafe(w, t);
    KeysApart(w.threads[t].binding.path, "", "0");
  }

  lemma WriteSound(w: World, v: World, at: Location, manifest: Manifest, author: nat, tag: nat)
    requires w.nextTag > 0 && AllSound(w) && Wrote(w, v, at, manifest, author, tag) && SafeWrite(w, at, author, tag)
    ensures AllSound(v)
  {
    forall e | e in v.versions ensures Sound(v, e) {
      if e != w.nextTag { assert Sound(w, e); } else if tag != 0 { assert Sound(w, tag); }
    }
  }

  lemma WriteNoFork(w: World, v: World, at: Location, manifest: Manifest, author: nat, tag: nat)
    requires AllSound(w) && NoFork(w) && Heads(w) && Wrote(w, v, at, manifest, author, tag) && SafeWrite(w, at, author, tag)
    ensures NoFork(v)
  {
    forall e | e in w.versions ensures e < w.nextTag { assert Sound(w, e); }
    forall e | e in w.versions && w.versions[e].at == at ensures w.versions[e].replaced != tag {}
  }

  lemma WriteHeads(w: World, v: World, at: Location, manifest: Manifest, author: nat, tag: nat)
    requires w.nextTag > 0 && AllSound(w) && Heads(w) && Wrote(w, v, at, manifest, author, tag) && SafeWrite(w, at, author, tag)
    ensures Heads(v)
  {
    hide Sound, HeadAt, ReplacedLater;
    forall e | e in w.versions ensures e < w.nextTag && w.versions[e].replaced < w.nextTag { OlderTags(w, e); }
    forall e | e in v.versions && e != v.store[v.versions[e].at].etag ensures ReplacedLater(v, e) { WriteReplaces(w, v, at, manifest, author, tag, e); }
    forall l: Location | LiveKey(l.key) && l in v.store ensures HeadAt(v, l) { WriteHeadAt(w, v, at, manifest, author, tag, l); }
    assert tag < w.nextTag by { TagIsOlder(w, at, author, tag); }
  }

  lemma OlderTags(w: World, e: nat)
    requires AllSound(w) && w.nextTag > 0 && e in w.versions
    ensures e < w.nextTag && w.versions[e].replaced < w.nextTag
  {
    assert Sound(w, e);
  }

  lemma TagIsOlder(w: World, at: Location, author: nat, tag: nat)
    requires AllSound(w) && w.nextTag > 0 && SafeWrite(w, at, author, tag)
    ensures tag < w.nextTag
  {
    if tag != 0 { assert Sound(w, tag); }
  }

  lemma WriteHeadAt(w: World, v: World, at: Location, manifest: Manifest, author: nat, tag: nat, l: Location)
    requires AllSound(w) && Heads(w) && Wrote(w, v, at, manifest, author, tag) && LiveKey(l.key) && l in v.store
    ensures HeadAt(v, l)
  {
    if l != at {
      assert HeadAt(w, l);
      assert Sound(w, w.store[l].etag);
    }
  }

  lemma WriteReplaces(w: World, v: World, at: Location, manifest: Manifest, author: nat, tag: nat, e: nat)
    requires Heads(w) && Wrote(w, v, at, manifest, author, tag) && SafeWrite(w, at, author, tag)
    requires e in v.versions && v.versions[e].at in v.store && e != v.store[v.versions[e].at].etag
    requires forall f :: f in w.versions ==> f < w.nextTag
    ensures ReplacedLater(v, e)
  {
    if v.versions[e].at == at && e == tag {
      assert v.versions[w.nextTag].replaced == e;
    } else {
      assert e in w.versions && ReplacedLater(w, e);
      var f :| f in w.versions && w.versions[f].replaced == e;
      assert f in v.versions && v.versions[f].replaced == e;
    }
  }

  lemma GroundedAfterWrite(w: World, v: World, at: Location, manifest: Manifest, author: nat, tag: nat, thread: Thread)
    requires AllSound(w) && Wrote(w, v, at, manifest, author, tag) && ThreadGrounded(w, thread)
    ensures ThreadGrounded(v, thread)
  {
    forall e | e in w.versions ensures e != w.nextTag { assert Sound(w, e); }
  }

  lemma WriteGrounded(w: World, t: nat, answered: bool)
    requires Inv(w) && Enabled(w, PutLive(t, answered)) && Accepts(w.store, PushLocation(w.threads[t]), PushTag(w.threads[t]))
    ensures AllGrounded(Written(w, t, answered))
  {
    hide ThreadGrounded, NoFork, Heads, Accepts;
    var thread, v := w.threads[t], Written(w, t, answered);
    WriteIsSafe(w, t, answered);
    forall u | u in v.threads && u != t ensures ThreadGrounded(v, v.threads[u]) {
      GroundedAfterWrite(w, v, PushLocation(thread), thread.manifest, thread.machine, PushTag(thread), w.threads[u]);
    }
    if answered { DoneIsGrounded(v, v.threads[t]); }
    forall e | e in w.versions ensures e != w.nextTag { assert Sound(w, e); }
    forall m | m in v.records ensures Grounded(v, m, v.records[m]) { assert Grounded(w, m, w.records[m]); }
  }

  lemma DoneIsGrounded(v: World, thread: Thread)
    requires thread.PushDone? && Names(v, thread.etag, thread.key, thread.manifest)
    ensures ThreadGrounded(v, thread)
  {}

  lemma LiveStep(w: World, t: nat, answered: bool)
    requires Inv(w) && Enabled(w, PutLive(t, answered))
    ensures Inv(Do(w, PutLive(t, answered)))
  {
    hide AllSound, NoFork, Heads, Accepts, ThreadGrounded, Wrote, SafeWrite;
    if Accepts(w.store, PushLocation(w.threads[t]), PushTag(w.threads[t])) {
      var thread, v := w.threads[t], Written(w, t, answered);
      WriteIsSafe(w, t, answered);
      WriteSound(w, v, PushLocation(thread), thread.manifest, thread.machine, PushTag(thread));
      WriteNoFork(w, v, PushLocation(thread), thread.manifest, thread.machine, PushTag(thread));
      WriteHeads(w, v, PushLocation(thread), thread.manifest, thread.machine, PushTag(thread));
      WriteGrounded(w, t, answered);
    } else {
      var v := Do(w, PutLive(t, answered));
      forall u | u in v.threads ensures ThreadGrounded(v, v.threads[u]) { SameGrounded(w, v, w.threads[u]); }
      forall m | m in v.records ensures Grounded(v, m, v.records[m]) { assert Grounded(w, m, w.records[m]); }
      HistoryKept(w, v);
    }
  }

  lemma StepKeeps(w: World, step: Step)
    requires Inv(w) && Enabled(w, step)
    ensures Inv(Do(w, step))
  {
    hide Inv, Recorded, Names;
    match step
    case PutDated(t) => DatedStep(w, t);
    case PutLive(t, answered) => LiveStep(w, t, answered);
    case RecordPush(t) => NamedByThread(w, t); RecordStep(w, t, w.threads[t].machine, w.threads[t].key, w.threads[t].manifest, w.threads[t].etag);
    case RecordApply(t) => NamedByThread(w, t); RecordStep(w, t, w.threads[t].machine, w.threads[t].key, w.threads[t].manifest, w.threads[t].etag);
    case _ => LocalStep(w, step);
  }

  lemma NamedByThread(w: World, t: nat)
    requires Inv(w) && t in w.threads && (w.threads[t].PushDone? || w.threads[t].Applied?)
    ensures Names(w, w.threads[t].etag, w.threads[t].key, w.threads[t].manifest)
  {
    assert ThreadGrounded(w, w.threads[t]);
  }

  // ---- whole runs ----

  /** Any interleaving of any machines' steps, from empty buckets. */
  ghost predicate Run(worlds: seq<World>, steps: seq<Step>) {
    && |worlds| == |steps| + 1 && Start(worlds[0])
    && forall i :: 0 <= i < |steps| ==> Enabled(worlds[i], steps[i]) && worlds[i + 1] == Do(worlds[i], steps[i])
  }

  lemma {:induction false} RunKeeps(worlds: seq<World>, steps: seq<Step>, i: nat)
    requires Run(worlds, steps) && i <= |steps|
    ensures Inv(worlds[i])
  {
    if i == 0 {
    } else {
      RunKeeps(worlds, steps, i - 1);
      StepKeeps(worlds[i - 1], steps[i - 1]);
    }
  }

  /** In every run, a live write that the store takes creates the object, or replaces
      exactly the version that its machine recorded at its last push or apply. */
  lemma NothingOverwrittenUnseen(worlds: seq<World>, steps: seq<Step>, i: nat)
    requires Run(worlds, steps) && i < |steps| && steps[i].PutLive?
    requires worlds[i + 1].store != worlds[i].store
    ensures var w, thread := worlds[i], worlds[i].threads[steps[i].thread];
            var at := PushLocation(thread);
            && worlds[i + 1].store == w.store[at := Object(w.nextTag, thread.manifest)]
            && (at in w.store ==>
                  && thread.record.etag == w.store[at].etag && thread.record.key == at.key
                  && thread.record.base == Some(w.store[at].manifest)
                  && (thread.machine, w.store[at].etag) in w.synced)
  {
    RunKeeps(worlds, steps, i);
    LivePutSafe(worlds[i], steps[i].thread);
  }

  /** A machine comes to have synced a version only by recording a push or an apply of its own. */
  lemma SyncedByRecording(w: World, step: Step, machine: nat, etag: nat)
    requires Enabled(w, step) && (machine, etag) in Do(w, step).synced && (machine, etag) !in w.synced
    ensures (step.RecordPush? || step.RecordApply?) && w.threads[step.thread].machine == machine && w.threads[step.thread].etag == etag
  {}

  /** A step leaves every version that does not bear the next tag. */
  lemma VersionsAfter(w: World, step: Step)
    requires Enabled(w, step)
    ensures w.synced <= Do(w, step).synced
    ensures forall e :: e in w.versions && e != w.nextTag ==> e in Do(w, step).versions && Do(w, step).versions[e] == w.versions[e]
  {
    hide Accepts;
    match step
    case PutLive(_, _) =>
    case _ =>
  }

  /** History only grows. */
  lemma HistoryGrows(w: World, step: Step)
    requires Inv(w) && Enabled(w, step)
    ensures w.synced <= Do(w, step).synced
    ensures forall e :: e in w.versions ==> e in Do(w, step).versions && Do(w, step).versions[e] == w.versions[e]
  {
    hide Do;
    VersionsAfter(w, step);
    forall e | e in w.versions ensures e != w.nextTag { OlderTags(w, e); }
  }

  /** The versions a version stands on, newest first. */
  ghost function Lineage(w: World, e: nat): seq<nat>
    requires AllSound(w) && e in w.versions
    decreases e
  {
    assert Sound(w, e);
    [e] + if w.versions[e].replaced == 0 then [] else Lineage(w, w.versions[e].replaced)
  }

  lemma {:induction false} LineageFollows(w: World, head: nat, f: nat)
    requires AllSound(w) && head in w.versions && f in Lineage(w, head) && f in w.versions && w.versions[f].replaced != 0
    ensures w.versions[f].replaced in Lineage(w, head)
    decreases head
  {
    assert Sound(w, head);
    var older := w.versions[head].replaced;
    if f == head {
      assert Lineage(w, older)[0] == older;
    } else {
      LineageFollows(w, older, f);
    }
  }

  /** The versions of an object form one chain: all of them lie behind the live one. */
  lemma {:induction false} OneChain(w: World, e: nat)
    requires Inv(w) && e in w.versions
    ensures w.versions[e].at in w.store && w.store[w.versions[e].at].etag in w.versions
    ensures e in Lineage(w, w.store[w.versions[e].at].etag)
    decreases w.nextTag - e
  {
    var at := w.versions[e].at;
    assert Sound(w, e) && HeadAt(w, at);
    var head := w.store[at].etag;
    if e == head {
      assert Lineage(w, head)[0] == e;
    } else {
      assert ReplacedLater(w, e);
      var f :| f in w.versions && w.versions[f].replaced == e;
      assert Sound(w, f);
      OneChain(w, f);
      LineageFollows(w, head, f);
    }
  }

  /** And the chain holds nothing else: same object, strictly newer to older, each on what its author had synced. */
  lemma {:induction false} ChainOrdered(w: World, head: nat, i: nat)
    requires AllSound(w) && head in w.versions && i < |Lineage(w, head)|
    ensures var chain := Lineage(w, head);
            && chain[i] in w.versions && w.versions[chain[i]].at == w.versions[head].at && chain[i] <= head
            && (i > 0 ==> chain[i - 1] in w.versions && chain[i] < chain[i - 1] && w.versions[chain[i - 1]].replaced == chain[i]
                          && (w.versions[chain[i - 1]].author, chain[i]) in w.synced)
            && (i == |chain| - 1 ==> w.versions[chain[i]].replaced == 0)
    decreases head
  {
    assert Sound(w, head);
    if i > 0 {
      var older := w.versions[head].replaced;
      ChainOrdered(w, older, i - 1);
      assert Lineage(w, head)[1..] == Lineage(w, older);
      assert Lineage(w, older)[0] == older;
    }
  }

  /** After a live write, no machine can write that object until it has recorded the new version. */
  lemma OthersRefused(w: World, t: nat, answered: bool, machine: nat)
    requires Inv(w) && Enabled(w, PutLive(t, answered)) && Accepts(w.store, PushLocation(w.threads[t]), PushTag(w.threads[t]))
    ensures var v, at := Do(w, PutLive(t, answered)), PushLocation(w.threads[t]);
            !Accepts(v.store, at, ConditionTag(v.RecordOf(machine), at.key))
  {
    hide NoFork, Heads;
    var r := w.RecordOf(machine);
    if machine in w.records {
      assert Grounded(w, machine, r);
      if r.etag != 0 { assert Sound(w, r.etag); }
    }
  }
}
