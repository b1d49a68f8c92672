/**
 One machine's service, call by call in the order its code makes them.  Between any two
 calls the environment runs: other operations, other machines, a crash of this one.
 Whatever the environment does, the invariant of the protocol stands, and what an
 operation reports is true of the store and of the machine's record.
 */
module SyncService {
  import opened Results
  import opened SyncPlan
  import opened SyncProtocol

  datatype PushOutcome = PushNotConfigured | PushRefused | RemoteMoved | Pushed(etag: nat) | PushStopped
  datatype PullOutcome = PullNotConfigured | NoSnapshot | PulledAs(manifest: Manifest, etag: nat, key: string) | PullStopped
  datatype ApplyOutcome = ApplyRefused | HasConflicts | AppliedPull | ApplyStopped

  /** A step of somebody else's operation. */
  predicate Foreign(step: Step, thread: nat) {
    match step
    case Configure(_, _) => true
    case Crash(_) => true
    case LoseState(_) => true
    case _ => step.thread != thread
  }

  predicate AllForeign(steps: seq<Step>, thread: nat) { forall i :: 0 <= i < |steps| ==> Foreign(steps[i], thread) }

  /** The world after whatever else happened; a step that cannot be taken is passed over. */
  function After(w: World, steps: seq<Step>): World {
    if steps == [] then w
    else
      var before, step := After(w, steps[..|steps| - 1]), steps[|steps| - 1];
      if Enabled(before, step) then Do(before, step) else before
  }

  // ---- the moment of the live write ----

  /** The world with this operation at this point. */
  function Holding(w: World, thread: nat, at: Thread): World { w.(threads := w.threads[thread := at]) }

  /** The record this push goes by, and the world in which it makes its live write; none when it is lost before. */
  datatype Moment = Moment(record: Record, world: World)

  function LiveMoment(w: World, machine: nat, thread: nat, manifest: Manifest, stamp: string, others: seq<seq<Step>>): Option<Moment>
    requires machine in w.bindings && |others| == 5
  {
    var binding := w.bindings[machine];
    var bound := After(Holding(w, thread, PushBound(machine, binding)), others[0]);
    if thread !in bound.threads then None
    else
      var record := if machine in bound.records then bound.records[machine] else Record(0, "", None);
      var read := After(Holding(bound, thread, PushRead(machine, binding, record)), others[1]);
      if thread !in read.threads then None
      else
        var built := After(Holding(read, thread, PushBuilt(machine, binding, record, manifest, stamp)), others[2]);
        if thread !in built.threads then None
        else
          var dated := built.(store := built.store[Location(binding.bucket, SnapshotKeyFor(binding.path, stamp)) := Object(built.nextTag, manifest)],
                              nextTag := built.nextTag + 1);
          var reached := After(Holding(dated, thread, PushDated(machine, binding, record, manifest)), others[3]);
          if thread !in reached.threads then None else Some(Moment(record, reached))
  }

  /** The object is not as the record has it: it is there with another tag than the recorded one, or the
      record knows no version of it; or it is gone and the record names a version of it. */
  predicate Moved(store: map<Location, Object>, record: Record, at: Location) {
    if at in store then record.key != at.key || record.etag == 0 || store[at].etag != record.etag
    else record.key == at.key && record.etag != 0
  }

  lemma MovedIff(store: map<Location, Object>, record: Record, at: Location)
    requires at in store ==> store[at].etag != 0
    ensures Accepts(store, at, ConditionTag(record, at.key)) <==> !Moved(store, record, at)
  {}

  lemma TagsAreNotZero(w: World, at: Location)
    requires Inv(w) && LiveKey(at.key) && at in w.store
    ensures w.store[at].etag != 0
  {
    assert HeadAt(w, at);
    assert Sound(w, w.store[at].etag);
  }

  lemma AfterNext(w: World, steps: seq<Step>, k: nat)
    requires k < |steps|
    ensures After(w, steps[..k + 1]) ==
              (if Enabled(After(w, steps[..k]), steps[k]) then Do(After(w, steps[..k]), steps[k]) else After(w, steps[..k]))
  {
    assert steps[..k + 1][..k] == steps[..k];
  }

  class Service {
    const machine: nat
    var world: World

    constructor (machine: nat, world: World)
      ensures this.machine == machine && this.world == world
    {
      this.machine, this.world := machine, world;
    }

    method Configure(binding: Binding)
      requires Inv(world)
      modifies this
      ensures Inv(world) && world == old(world).(bindings := old(world).bindings[machine := binding])
    {
      StepKeeps(world, Step.Configure(machine, binding));
      world := Do(world, Step.Configure(machine, binding));
    }

    /** Whatever else happens; this operation's thread is left alone, or lost in a crash. */
    method Environment(steps: seq<Step>, thread: nat)
      requires Inv(world) && AllForeign(steps, thread)
      modifies this
      ensures Inv(world) && old(world).synced <= world.synced && world == After(old(world), steps)
      ensures thread in world.threads ==> thread in old(world).threads && world.threads[thread] == old(world).threads[thread]
      ensures forall e :: e in old(world).versions ==> e in world.versions && world.versions[e] == old(world).versions[e]
    {
      hide Inv, Do, Enabled;
      for k := 0 to |steps|
        invariant Inv(world) && old(world).synced <= world.synced && world == After(old(world), steps[..k])
        invariant thread in world.threads ==> thread in old(world).threads && world.threads[thread] == old(world).threads[thread]
        invariant forall e :: e in old(world).versions ==> e in world.versions && world.versions[e] == old(world).versions[e]
      {
        AfterNext(old(world), steps, k);
        if Enabled(world, steps[k]) {
          StepKeeps(world, steps[k]);
          HistoryGrows(world, steps[k]);
          ForeignLeaves(world, steps[k], thread);
          world := Do(world, steps[k]);
        }
      }
      assert steps[..|steps|] == steps;
    }

    /** One call of this operation. */
    method Call(step: Step)
      requires Inv(world) && Enabled(world, step)
      modifies this
      ensures Inv(world) && world == Do(old(world), step)
    {
      StepKeeps(world, step);
      world := Do(world, step);
    }

    /** The calls of a push up to its live write: bind, read the record, build, write the dated copy. */
    method ReachLive(thread: nat, manifest: Manifest, stamp: string, others: seq<seq<Step>>) returns (reached: bool)
      requires Inv(world) && thread !in world.threads && IsStamp(stamp)
      requires machine in world.bindings && world.bindings[machine].direction != PullOnly
      requires |others| == 5 && forall i :: 0 <= i < 5 ==> AllForeign(others[i], thread)
      modifies this
      ensures Inv(world)
      ensures reached <==> LiveMoment(old(world), machine, thread, manifest, stamp, others).Some?
      ensures reached ==>
                var moment := LiveMoment(old(world), machine, thread, manifest, stamp, others).value;
                && world == moment.world && thread in world.threads
                && world.threads[thread] == PushDated(machine, old(world).bindings[machine], moment.record, manifest)
    {
      hide Inv, Do, Enabled, IsStamp, ObjectKeyFor, SnapshotKeyFor, After;
      Began(world, thread, machine);
      Call(BeginPush(thread, machine));
      Environment(others[0], thread);
      if thread !in world.threads { return false; }
      ReadNext(world, thread);
      Call(ReadState(thread));
      Environment(others[1], thread);
      if thread !in world.threads { return false; }
      BuildNext(world, thread, manifest, stamp);
      Call(Build(thread, manifest, stamp));
      Environment(others[2], thread);
      if thread !in world.threads { return false; }
      DatedNext(world, thread);
      Call(PutDated(thread));
      Environment(others[3], thread);
      reached := thread in world.threads;
    }

    /** Push: everything up to the live write, the live write under its condition, the record.  It finds
        that the remote has moved exactly when the object, at that moment, is not as the record it read
        has it. */
    method Push(thread: nat, manifest: Manifest, stamp: string, answered: bool, others: seq<seq<Step>>) returns (outcome: PushOutcome)
      requires Inv(world) && thread !in world.threads && IsStamp(stamp)
      requires |others| == 5 && forall i :: 0 <= i < 5 ==> AllForeign(others[i], thread)
      modifies this
      ensures Inv(world)
      ensures outcome == PushNotConfigured <==> machine !in old(world).bindings
      ensures outcome == PushRefused <==> machine in old(world).bindings && old(world).bindings[machine].direction == PullOnly
      ensures outcome in {PushNotConfigured, PushRefused} ==> world == old(world)
      ensures !outcome.PushNotConfigured? && !outcome.PushRefused? ==>
                match LiveMoment(old(world), machine, thread, manifest, stamp, others)
                case None => outcome == PushStopped
                case Some(Moment(record, reached)) =>
                  var binding := old(world).bindings[machine];
                  var moved := Moved(reached.store, record, Location(binding.bucket, ObjectKeyFor(binding.path)));
                  && (outcome == RemoteMoved <==> moved)
                  && (outcome.Pushed? ==> answered && outcome.etag == reached.nextTag)
                  && (!moved && answered && others[4] == [] ==> outcome.Pushed?)
      ensures outcome.Pushed? ==>
                var key := ObjectKeyFor(old(world).bindings[machine].path);
                && world.RecordOf(machine) == Record(outcome.etag, key, Some(manifest))
                && SyncProtocol.Names(world, outcome.etag, key, manifest) && world.versions[outcome.etag].author == machine
                && (machine, outcome.etag) in world.synced
                && (others[4] == [] ==>
                      var at := Location(old(world).bindings[machine].bucket, key);
                      at in world.store && world.store[at] == Object(outcome.etag, manifest))
      ensures !outcome.PushStopped? ==> thread !in world.threads
    {
      hide Inv, Do, Enabled, IsStamp, ObjectKeyFor, LiveMoment, Moved, Accepts, PushTag;
      if machine !in world.bindings { return PushNotConfigured; }
      var binding := world.bindings[machine];
      if binding.direction == PullOnly { return PushRefused; }
      var reached := ReachLive(thread, manifest, stamp, others);
      if !reached { return PushStopped; }
      LiveNext(world, thread, answered);
      LiveIsMoved(world, thread);
      var taken := Accepts(world.store, PushLocation(world.threads[thread]), PushTag(world.threads[thread]));
      Call(PutLive(thread, answered));
      if !taken { return RemoteMoved; }
      if !answered { return PushStopped; }
      Environment(others[4], thread);
      if thread !in world.threads { return PushStopped; }
      var etag := world.threads[thread].etag;
      RecordNext(world, thread);
      Call(RecordPush(thread));
      return Pushed(etag);
    }

    /** Pull: bind, fetch, plan.  Nothing is written; the result waits for an apply. */
    method Pull(thread: nat, conflicts: bool, others: seq<seq<Step>>) returns (outcome: PullOutcome)
      requires Inv(world) && thread !in world.threads
      requires |others| == 2 && forall i :: 0 <= i < 2 ==> AllForeign(others[i], thread)
      modifies this
      ensures Inv(world)
      ensures outcome == PullNotConfigured <==> machine !in old(world).bindings
      ensures outcome == PullNotConfigured ==> world == old(world)
      ensures outcome.PulledAs? ==>
                && SyncProtocol.Names(world, outcome.etag, outcome.key, outcome.manifest)
                && outcome.key == ObjectKeyFor(old(world).bindings[machine].path)
                && thread in world.threads
                && world.threads[thread] == PullPlanned(machine, outcome.key, outcome.manifest, outcome.etag, conflicts)
      ensures outcome == NoSnapshot ==> thread !in world.threads
      ensures machine in old(world).bindings ==>
                var binding := old(world).bindings[machine];
                var bound := After(Holding(old(world), thread, PullBound(machine, binding)), others[0]);
                var at := Location(binding.bucket, ObjectKeyFor(binding.path));
                && (thread !in bound.threads ==> outcome == PullStopped)
                && (thread in bound.threads ==>
                      && (outcome == NoSnapshot <==> at !in bound.store)
                      && (outcome.PulledAs? ==> bound.store[at] == Object(outcome.etag, outcome.manifest))
                      && (at in bound.store && others[1] == [] ==> outcome.PulledAs?))
    {
      hide Inv, Do, Enabled, ObjectKeyFor;
      if machine !in world.bindings { return PullNotConfigured; }
      PullBegan(world, thread, machine);
      Call(BeginPull(thread, machine));
      Environment(others[0], thread);
      if thread !in world.threads { return PullStopped; }
      GetNext(world, thread);
      Call(Get(thread));
      if thread !in world.threads { return NoSnapshot; }
      Environment(others[1], thread);
      if thread !in world.threads { return PullStopped; }
      var got := world.threads[thread];
      PlanNext(world, thread, conflicts);
      Call(PlanPull(thread, conflicts));
      GotIsNamed(world, thread);
      return PulledAs(got.manifest, got.etag, got.key);
    }

    /** Apply: refused on a machine that only sends and while a conflict stands; otherwise commit, then record. */
    method Apply(thread: nat, committed: bool, others: seq<Step>) returns (outcome: ApplyOutcome)
      requires Inv(world) && thread in world.threads && world.threads[thread].PullPlanned? && world.threads[thread].machine == machine
      requires AllForeign(others, thread)
      modifies this
      ensures Inv(world)
      ensures outcome == ApplyRefused <==> machine in old(world).bindings && old(world).bindings[machine].direction == PushOnly
      ensures outcome == HasConflicts <==> outcome != ApplyRefused && old(world).threads[thread].conflicts
      ensures outcome in {ApplyRefused, HasConflicts} || !committed ==> world == old(world)
      ensures outcome == AppliedPull ==>
                var result := old(world).threads[thread];
                && world.RecordOf(machine) == Record(result.etag, result.key, Some(result.manifest))
                && (machine, result.etag) in world.synced
      ensures outcome !in {ApplyRefused, HasConflicts} && committed && others == [] ==> outcome == AppliedPull
    {
      hide Inv, Do, Enabled;
      if machine in world.bindings && world.bindings[machine].direction == PushOnly { return ApplyRefused; }
      if world.threads[thread].conflicts { return HasConflicts; }
      if !committed { return ApplyStopped; }
      CommitNext(world, thread);
      Call(Commit(thread));
      Environment(others, thread);
      if thread !in world.threads { return ApplyStopped; }
      ApplyNext(world, thread);
      Call(RecordApply(thread));
      return AppliedPull;
    }
  }

  const Quiet: seq<seq<Step>> := [[], [], [], [], []]

  /** With nothing in between, a push meets the object as it was when it began: it is refused exactly when
      the object is not as the machine's record has it.  So a machine that pushed or applied the live
      version, or that finds no object and has no record of it, always gets through. */
  lemma QuietPush(w: World, machine: nat, thread: nat, manifest: Manifest, stamp: string)
    requires machine in w.bindings && IsStamp(stamp)
    ensures var binding := w.bindings[machine];
            var at, record, moment := Location(binding.bucket, ObjectKeyFor(binding.path)), w.RecordOf(machine), LiveMoment(w, machine, thread, manifest, stamp, Quiet);
            && moment.Some? && moment.value.record == record
            && (Moved(moment.value.world.store, record, at) <==> Moved(w.store, record, at))
            && (at in w.store && record.etag != 0 && record == Record(w.store[at].etag, at.key, record.base) ==> !Moved(w.store, record, at))
            && (at !in w.store && (record.key != at.key || record.etag == 0) ==> !Moved(w.store, record, at))
  {
    hide ObjectKeyFor, SnapshotKeyFor, IsStamp, LiveKey;
    KeysApart(w.bindings[machine].path, w.bindings[machine].path, stamp);
  }

  lemma PullBegan(w: World, t: nat, m: nat)
    requires t !in w.threads && m in w.bindings
    ensures Enabled(w, BeginPull(t, m)) && t in Do(w, BeginPull(t, m)).threads
    ensures Do(w, BeginPull(t, m)) == Holding(w, t, PullBound(m, w.bindings[m]))
  {}

  lemma GetNext(w: World, t: nat)
    requires t in w.threads && w.threads[t].PullBound?
    ensures Enabled(w, Get(t))
    ensures var v := Do(w, Get(t));
            var at := Location(w.threads[t].binding.bucket, ObjectKeyFor(w.threads[t].binding.path));
            if at !in w.store then v == w.(threads := w.threads - {t})
            else v == Holding(w, t, PullGot(w.threads[t].machine, at.key, w.store[at].manifest, w.store[at].etag))
  {
    hide ObjectKeyFor;
  }

  lemma PlanNext(w: World, t: nat, conflicts: bool)
    requires t in w.threads && w.threads[t].PullGot?
    ensures Enabled(w, PlanPull(t, conflicts)) && t in Do(w, PlanPull(t, conflicts)).threads
    ensures Do(w, PlanPull(t, conflicts)).threads[t]
         == PullPlanned(w.threads[t].machine, w.threads[t].key, w.threads[t].manifest, w.threads[t].etag, conflicts)
  {}

  lemma GotIsNamed(w: World, t: nat)
    requires Inv(w) && t in w.threads && w.threads[t].PullPlanned?
    ensures SyncProtocol.Names(w, w.threads[t].etag, w.threads[t].key, w.threads[t].manifest)
  {
    assert ThreadGrounded(w, w.threads[t]);
  }

  lemma CommitNext(w: World, t: nat)
    requires t in w.threads && w.threads[t].PullPlanned? && !w.threads[t].conflicts
    requires w.threads[t].machine in w.bindings ==> w.bindings[w.threads[t].machine].direction != PushOnly
    ensures Enabled(w, Commit(t)) && t in Do(w, Commit(t)).threads
    ensures Do(w, Commit(t)).threads[t] == Applied(w.threads[t].machine, w.threads[t].key, w.threads[t].manifest, w.threads[t].etag)
  {}

  lemma ApplyNext(w: World, t: nat)
    requires t in w.threads && w.threads[t].Applied?
    ensures Enabled(w, RecordApply(t))
    ensures Do(w, RecordApply(t)) == Recorded(w, t, w.threads[t].machine, w.threads[t].key, w.threads[t].manifest, w.threads[t].etag)
  {}

  lemma ForeignLeaves(w: World, step: Step, thread: nat)
    requires Enabled(w, step) && Foreign(step, thread)
    ensures thread in Do(w, step).threads ==> thread in w.threads && Do(w, step).threads[thread] == w.threads[thread]
  {
    hide Accepts;
  }

  lemma Began(w: World, t: nat, m: nat)
    requires t !in w.threads && m in w.bindings && w.bindings[m].direction != PullOnly
    ensures Enabled(w, BeginPush(t, m)) && t in Do(w, BeginPush(t, m)).threads
    ensures Do(w, BeginPush(t, m)) == Holding(w, t, PushBound(m, w.bindings[m]))
  {}

  lemma ReadNext(w: World, t: nat)
    requires t in w.threads && w.threads[t].PushBound?
    ensures Enabled(w, ReadState(t)) && t in Do(w, ReadState(t)).threads
    ensures var m := w.threads[t].machine;
            Do(w, ReadState(t)) == Holding(w, t, PushRead(m, w.threads[t].binding, if m in w.records then w.records[m] else Record(0, "", None)))
  {}

  lemma BuildNext(w: World, t: nat, manifest: Manifest, stamp: string)
    requires t in w.threads && w.threads[t].PushRead? && IsStamp(stamp)
    ensures Enabled(w, Build(t, manifest, stamp)) && t in Do(w, Build(t, manifest, stamp)).threads
    ensures Do(w, Build(t, manifest, stamp)) == Holding(w, t, PushBuilt(w.threads[t].machine, w.threads[t].binding, w.threads[t].record, manifest, stamp))
  {}

  lemma DatedNext(w: World, t: nat)
    requires t in w.threads && w.threads[t].PushBuilt?
    ensures Enabled(w, PutDated(t)) && t in Do(w, PutDated(t)).threads
    ensures var thread := w.threads[t];
            var dated := Location(thread.binding.bucket, SnapshotKeyFor(thread.binding.path, thread.stamp));
            Do(w, PutDated(t)) == Holding(w.(store := w.store[dated := Object(w.nextTag, thread.manifest)], nextTag := w.nextTag + 1), t,
                                          PushDated(thread.machine, thread.binding, thread.record, thread.manifest))
  {}

  lemma LiveIsMoved(w: World, t: nat)
    requires Inv(w) && t in w.threads && w.threads[t].PushDated?
    ensures var thread := w.threads[t];
            Accepts(w.store, PushLocation(thread), PushTag(thread))
            <==> !Moved(w.store, thread.record, Location(thread.binding.bucket, ObjectKeyFor(thread.binding.path)))
  {
    hide Inv, ObjectKeyFor, Moved, Accepts, ConditionTag;
    var at := PushLocation(w.threads[t]);
    KeysApart(w.threads[t].binding.path, "", "0");
    if at in w.store { TagsAreNotZero(w, at); }
    MovedIff(w.store, w.threads[t].record, at);
  }

  lemma LiveNext(w: World, t: nat, answered: bool)
    requires t in w.threads && w.threads[t].PushDated?
    ensures Enabled(w, PutLive(t, answered))
    ensures var v, thread := Do(w, PutLive(t, answered)), w.threads[t];
            if !Accepts(w.store, PushLocation(thread), PushTag(thread)) then v == w.(threads := w.threads - {t})
            else
              && PushLocation(thread) in v.store && v.store[PushLocation(thread)] == Object(w.nextTag, thread.manifest)
              && w.nextTag in v.versions && v.versions[w.nextTag] == Version(PushLocation(thread), thread.manifest, thread.machine, PushTag(thread))
              && (answered ==> t in v.threads && v.threads[t] == PushDone(thread.machine, PushLocation(thread).key, thread.manifest, w.nextTag))
  {
    hide Accepts, PushTag, ObjectKeyFor;
  }

  lemma RecordNext(w: World, t: nat)
    requires t in w.threads && w.threads[t].PushDone?
    ensures Enabled(w, RecordPush(t))
    ensures Do(w, RecordPush(t)) == Recorded(w, t, w.threads[t].machine, w.threads[t].key, w.threads[t].manifest, w.threads[t].etag)
  {}
}
