/** One pass of the reconcile loop, as values: what Sync does to the StatefulSets in the API server and
    to the status object (controllers/daisymanager/daisy_member_manager.go). */
module Reconcile {
  import opened Commons
  import opened Names

  /** The part of a StatefulSet spec the operator controls, as recorded in the last-applied annotation. */
  datatype Config = Config(text: string)

  datatype SetStatus = SetStatus(
    observedGeneration: int, readyReplicas: int, currentReplicas: int, updatedReplicas: int,
    currentRevision: string, updateRevision: string)

  /** A StatefulSet in the API server. */
  datatype StatefulSet = StatefulSet(applied: Option<Config>, generation: int, replicas: int, status: SetStatus)

  /** What getStatefulSetForReplica builds: one replica, and a status that is all zero. */
  function Desired(cfg: Config): StatefulSet
  {
    StatefulSet(Some(cfg), 0, 1, SetStatus(0, 0, 0, 0, "", ""))
  }

  /** HasStatefulSetReachedGeneration. */
  predicate HasReachedGeneration(set': StatefulSet)
  {
    && set'.status.observedGeneration == set'.generation
    && set'.status.readyReplicas == set'.replicas
    && set'.status.currentReplicas == set'.replicas
    && set'.status.updatedReplicas == set'.replicas
    && set'.status.currentRevision == set'.status.updateRevision
  }

  datatype Phase = NoPhase | Normal | Scale | Ready
  datatype SyncState = Unset | NotSync | Sync
  datatype ReplicaStatus = ReplicaStatus(phase: Phase, state: SyncState)

  /** What happened to a replica, as far as its tables are concerned: a pass saw its StatefulSet
      created, updated or without its ready pod; its tables were created; it was deleted. */
  datatype Event = Down(key: Key) | Tables(key: Key) | Gone(key: Key)

  /** The StatefulSets in the API server, the status object as a pass works it out, what happened, and the
      status entries as last written to the API server. */
  datatype World = World(
    store: map<Name, StatefulSet>, replicas: map<Key, ReplicaStatus>, ready: int, log: seq<Event>,
    stored: map<Key, ReplicaStatus>)

  function SetAt(w: World, n: Name): Option<StatefulSet>
  {
    if n in w.store then Some(w.store[n]) else None
  }

  function StatusAt(w: World, k: Key): ReplicaStatus
  {
    if k in w.replicas then w.replicas[k] else ReplicaStatus(NoPhase, Unset)
  }

  datatype Outcome = Done | Requeue | Failed
  datatype Step = Step(w: World, out: Outcome)

  /** Which API calls fail for one replica during a pass; with `skip` the status is not written after a
      deletion, because the installation cannot be read, and that is no error. */
  datatype Faults = Faults(
    configMap: bool, get: bool, create: bool, expand: bool, update: bool, service: bool, tables: bool,
    delete: bool, cleanup: bool, skip: bool)

  type Oracle = Name -> Faults

  // ---- one replica ----

  /** syncRepliaStatus. */
  function SyncReplicaStatus(w: World, k: Key, set': StatefulSet): World
  {
    var was := StatusAt(w, k);
    if set'.status.readyReplicas != 1 then
      w.(replicas := w.replicas[k := ReplicaStatus(Scale, NotSync)])
    else if HasReachedGeneration(set') && was.state == NotSync then
      w.(replicas := w.replicas[k := was.(phase := Ready)])
    else
      w.(replicas := w.replicas[k := was.(phase := Normal)], ready := w.ready + 1)
  }

  /** syncStatefulSet. A failed update is only logged. */
  function SyncStatefulSet(w: World, k: Key, cfg: Config, paused: bool, f: Faults): Step
  {
    var n := k.replica;
    if f.get then Step(w, Failed)
    else if paused then Step(w, Done)
    else if n !in w.store then
      if f.create then Step(w, Failed)
      else
        var created := w.(store := w.store[n := Desired(cfg)], log := w.log + [Down(k)]);
        Step(SyncReplicaStatus(created, k, Desired(cfg)), Requeue)
    else if f.expand then Step(w, Failed)
    else
      var was := w.store[n];
      if was.applied != Some(cfg) then
        var store := if f.update then w.store else w.store[n := was.(applied := Some(cfg), replicas := 1)];
        Step(SyncReplicaStatus(w.(store := store, log := w.log + [Down(k)]), k, Desired(cfg)), Done)
      else
        var log := if was.status.readyReplicas != 1 then w.log + [Down(k)] else w.log;
        Step(SyncReplicaStatus(w.(log := log), k, was), Done)
  }

  /** syncReplica. */
  function SyncReplica(w: World, k: Key, cfg: Config, paused: bool, f: Faults): Step
  {
    if f.configMap then Step(w, Failed)
    else
      var s := SyncStatefulSet(w, k, cfg, paused, f);
      if s.out != Done then s
      else if f.service then Step(s.w, Failed)
      else SyncTables(s.w, k, f)
  }

  /** The end of syncReplica: create the tables of a replica that is ready for them. */
  function SyncTables(w: World, k: Key, f: Faults): Step
  {
    if k in w.replicas && w.replicas[k].phase == Ready && w.replicas[k].state != Sync then
      if f.tables then Step(w, Failed)
      else
        Step(w.(replicas := w.replicas[k := w.replicas[k].(state := Sync)], ready := w.ready + 1, log := w.log + [Tables(k)]), Done)
    else Step(w, Done)
  }

  /** UpdateInstallationStatus, in so far as the replicas are concerned. */
  function Write(w: World): World
  {
    w.(stored := w.replicas)
  }

  /** deleteReplica; `cleanup` stands for the steps after the StatefulSet is gone, of which the last is to
      write the whole status as worked out so far. */
  function DeleteReplica(w: World, k: Key, f: Faults): Step
  {
    if f.get then Step(w, Failed)
    else if k.replica !in w.store then Step(w, Done)
    else if f.delete then Step(w, Failed)
    else
      var gone := w.(store := w.store - {k.replica}, replicas := w.replicas - {k}, log := w.log + [Gone(k)]);
      if f.cleanup then Step(gone, Failed) else Step(if f.skip then gone else Write(gone), Done)
  }

  // ---- a pass as a list of actions ----

  datatype Action = Visit(key: Key, cfg: Config) | Delete(key: Key)
  datatype Plan = End | Then(first: Action, rest: Plan)

  function Append(p: Plan, q: Plan): Plan
  {
    match p
    case End => q
    case Then(a, rest) => Then(a, Append(rest, q))
  }

  function Act(w: World, a: Action, paused: bool, oracle: Oracle): Step
  {
    match a
    case Visit(k, cfg) => SyncReplica(w, k, cfg, paused, oracle(k.replica))
    case Delete(k) => DeleteReplica(w, k, oracle(k.replica))
  }

  function RunPlan(w: World, p: Plan, paused: bool, oracle: Oracle): Step
    decreases p
  {
    match p
    case End => Step(w, Done)
    case Then(a, rest) =>
      var s := Act(w, a, paused, oracle);
      if s.out == Done then RunPlan(s.w, rest, paused, oracle) else s
  }

  lemma {:induction false} RunAppend(w: World, p: Plan, q: Plan, paused: bool, oracle: Oracle)
    ensures RunPlan(w, Append(p, q), paused, oracle) ==
            var s := RunPlan(w, p, paused, oracle);
            if s.out == Done then RunPlan(s.w, q, paused, oracle) else s
    decreases p
  {
    match p
    case End =>
    case Then(a, rest) => RunAppend(Act(w, a, paused, oracle).w, rest, q, paused, oracle);
  }

  // ---- the plan of a pass over a normalized spec ----

  /** The normalized spec: the replicas of each shard. */
  type Spec = map<ShardKey, map<Name, Config>>

  /** How this pass happens to iterate: Go ranges over maps in any order. */
  datatype Stop = Stop(at: ShardKey, order: seq<Name>, extras: seq<Name>)
  type Tour = seq<Stop>

  /** The replicas of a shard; a shard that is absent reads as empty. */
  function Replicas(spec: Spec, at: ShardKey): map<Name, Config>
  {
    if at in spec then spec[at] else map[]
  }

  ghost predicate IsStop(stop: Stop, spec: Spec, prev: Spec)
  {
    && stop.at in spec
    && Lists(stop.order, spec[stop.at].Keys)
    && Lists(stop.extras, Replicas(prev, stop.at).Keys)
  }

  ghost predicate AreStops(tour: Tour, spec: Spec, prev: Spec)
  {
    forall i | 0 <= i < |tour| :: IsStop(tour[i], spec, prev)
  }

  ghost predicate ShardsDiffer(tour: Tour)
  {
    forall i, j :: 0 <= i < j < |tour| ==> tour[i].at != tour[j].at
  }

  /** The tour goes once through every shard, every replica and every remembered replica. */
  ghost predicate IsTour(tour: Tour, spec: Spec, prev: Spec)
  {
    && AreStops(tour, spec, prev) && ShardsDiffer(tour)
    && (forall at | at in spec :: exists i :: 0 <= i < |tour| && tour[i].at == at)
  }

  function ConfigOf(cfgs: map<Name, Config>, n: Name): Config
  {
    if n in cfgs then cfgs[n] else Config("")
  }

  function Visits(at: ShardKey, order: seq<Name>, i: nat, cfgs: map<Name, Config>): Plan
    decreases |order| - i
  {
    if i >= |order| then End else Then(Visit(Key(at, order[i]), ConfigOf(cfgs, order[i])), Visits(at, order, i + 1, cfgs))
  }

  function Deletions(at: ShardKey, extras: seq<Name>, i: nat, cfgs: map<Name, Config>): Plan
    decreases |extras| - i
  {
    if i >= |extras| then End
    else if extras[i] in cfgs then Deletions(at, extras, i + 1, cfgs)
    else Then(Delete(Key(at, extras[i])), Deletions(at, extras, i + 1, cfgs))
  }

  /** Old replicas are only looked at when there are more of them than new ones. */
  function ExtrasPlan(stop: Stop, spec: Spec, prev: Spec): Plan
  {
    if |Replicas(prev, stop.at)| > |Replicas(spec, stop.at)|
    then Deletions(stop.at, stop.extras, 0, Replicas(spec, stop.at))
    else End
  }

  function StopPlan(stop: Stop, spec: Spec, prev: Spec): Plan
  {
    Append(Visits(stop.at, stop.order, 0, Replicas(spec, stop.at)), ExtrasPlan(stop, spec, prev))
  }

  function TourPlan(tour: Tour, i: nat, spec: Spec, prev: Spec): Plan
    decreases |tour| - i
  {
    if i >= |tour| then End else Append(StopPlan(tour[i], spec, prev), TourPlan(tour, i + 1, spec, prev))
  }

  /** All replicas of a spec, keyed by their full place. */
  function Flatten(spec: Spec): map<Key, Config>
  {
    map at, n | at in spec && n in spec[at] :: Key(at, n) := spec[at][n]
  }

  ghost predicate AllGenerated(installation: string, spec: Spec)
  {
    forall k | k in Flatten(spec) :: Generated(installation, k)
  }

  // ---- a whole pass ----

  datatype InstallationState = InProgress | Completed

  /** Everything a pass reads and writes. */
  datatype Installation = Installation(
    world: World, prevSpec: Spec, replicasCount: int, state: InstallationState)

  /** The faults of a pass outside the replicas; `skip` as for a deletion. */
  datatype PassFaults = PassFaults(before: bool, after: bool, write: bool, skip: bool)

  const NO_PASS_FAULTS := PassFaults(false, false, false, false)

  /** The result of a pass; `written` if it got to write the status at its end. */
  datatype Pass = Pass(installation: Installation, out: Outcome, written: bool)

  /** fillStatus and Reset. */
  function Begin(s: Installation, spec: Spec): Installation
  {
    Installation(s.world.(ready := 0), s.prevSpec, |Flatten(spec)|, InProgress)
  }

  /** Sync, for an installation that is not being deleted, along a given plan. */
  function SyncPass(s: Installation, spec: Spec, plan: Plan, paused: bool, oracle: Oracle, faults: PassFaults): Pass
  {
    var reset := Begin(s, spec);
    if faults.before then Pass(reset, Failed, false)
    else
      var r := RunPlan(reset.world, plan, paused, oracle);
      if r.out != Done then Pass(reset.(world := r.w), r.out, false)
      else EndPass(reset.(world := r.w), spec, faults)
  }

  /** The end of Sync, when all shards went through. */
  function EndPass(s: Installation, spec: Spec, faults: PassFaults): Pass
  {
    var remembered := s.(prevSpec := spec);
    var done := remembered.(state := if s.world.ready == s.replicasCount then Completed else InProgress);
    if faults.after then Pass(remembered, Failed, false)
    else if faults.write then Pass(done, Failed, false)
    else if faults.skip then Pass(done, Done, false)
    else Pass(done.(world := Write(s.world)), Done, true)
  }
}
