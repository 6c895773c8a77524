/** DaisyMemberManager: the reconcile loop as the code runs it, updating the API server and the status
    object in place, proved against the pass specified in Reconcile
    (controllers/daisymanager/daisy_member_manager.go). */
module MemberManager {
  import opened Commons
  import opened Names
  import opened Reconcile

  class DaisyMemberManager {
    ghost const installation: string

    // the API server
    var store: map<Name, StatefulSet>

    // the status object
    var replicas: map<Key, ReplicaStatus>
    var readyReplicas: int
    var replicasCount: int
    var state: InstallationState
    var prevSpec: Spec

    // the status entries in the API server
    var stored: map<Key, ReplicaStatus>

    /** What happened so far. */
    ghost var log: seq<Event>

    constructor (ghost installation: string, store: map<Name, StatefulSet>)
      ensures this.installation == installation && Valid()
      ensures Now() == World(store, map[], 0, [], map[]) && prevSpec == map[]
    {
      this.installation := installation;
      this.store, this.replicas, this.log := store, map[], [];
      readyReplicas, replicasCount, state, prevSpec, stored := 0, 0, InProgress, map[], map[];
    }

    /** Every status entry belongs to a generated name. */
    ghost predicate Valid()
      reads this
    {
      forall k | k in replicas :: Generated(installation, k)
    }

    ghost function Now(): World
      reads this
    {
      World(store, replicas, readyReplicas, log, stored)
    }

    ghost function Status(): Installation
      reads this
    {
      Installation(Now(), prevSpec, replicasCount, state)
    }

    /** GetReplicaStatus searches every shard of every cluster for the name, and returns the first entry it
        meets; generated names make that the replica's own. */
    method GetReplicaStatus(k: Key) returns (status: Option<ReplicaStatus>)
      ensures status.None? <==> forall l | l in replicas :: l.replica != k.replica
      ensures status.Some? ==> exists l | l in replicas :: l.replica == k.replica && status.value == replicas[l]
      ensures Valid() && Generated(installation, k) ==> status == if k in replicas then Some(replicas[k]) else None
    {
      var todo := replicas.Keys;
      while todo != {}
        invariant todo <= replicas.Keys && forall l | l in replicas && l.replica == k.replica :: l in todo
        decreases todo
      {
        var l := Pick(todo);
        if l.replica == k.replica {
          if Valid() && Generated(installation, k) {
            GeneratedPlaced(installation, k, l);
          }
          return Some(replicas[l]);
        }
        todo := todo - {l};
      }
      return None;
    }

    method SyncReplicaStatus(k: Key, set': StatefulSet)
      requires Valid() && Generated(installation, k)
      modifies this`replicas, this`readyReplicas
      ensures Valid() && Now() == Reconcile.SyncReplicaStatus(old(Now()), k, set')
    {
      var status := if k in replicas then replicas[k] else ReplicaStatus(NoPhase, Unset);
      if set'.status.readyReplicas != 1 {
        status := ReplicaStatus(Scale, NotSync);
      } else if HasReachedGeneration(set') && status.state == NotSync {
        status := status.(phase := Ready);
      } else {
        status := status.(phase := Normal);
        readyReplicas := readyReplicas + 1;
      }
      replicas := replicas[k := status];
    }

    method SyncStatefulSet(k: Key, cfg: Config, paused: bool, f: Faults) returns (out: Outcome)
      requires Valid() && Generated(installation, k)
      modifies this`store, this`replicas, this`readyReplicas, this`log
      ensures Valid() && Step(Now(), out) == Reconcile.SyncStatefulSet(old(Now()), k, cfg, paused, f)
    {
      if f.get {
        return Failed;
      }
      if paused {
        return Done;
      }
      var newSet := Desired(cfg);
      if k.replica !in store {
        if f.create {
          return Failed;
        }
        store := store[k.replica := newSet];
        log := log + [Down(k)];
        SyncReplicaStatus(k, newSet);
        return Requeue;
      }
      if f.expand {
        return Failed;
      }
      var oldSet := store[k.replica];
      if oldSet.applied != Some(cfg) {
        if !f.update {
          store := store[k.replica := oldSet.(applied := Some(cfg), replicas := 1)];
        }
        log := log + [Down(k)];
      } else {
        newSet := oldSet;
        if newSet.status.readyReplicas != 1 {
          log := log + [Down(k)];
        }
      }
      SyncReplicaStatus(k, newSet);
      return Done;
    }

    method SyncReplica(k: Key, cfg: Config, paused: bool, f: Faults) returns (out: Outcome)
      requires Valid() && Generated(installation, k)
      modifies this`store, this`replicas, this`readyReplicas, this`log
      ensures Valid() && Step(Now(), out) == Reconcile.SyncReplica(old(Now()), k, cfg, paused, f)
    {
      if f.configMap {
        return Failed;
      }
      out := SyncStatefulSet(k, cfg, paused, f);
      if out != Done {
        return;
      }
      if f.service {
        return Failed;
      }
      out := SyncTables(k, f);
    }

    /** The end of syncReplica. */
    method SyncTables(k: Key, f: Faults) returns (out: Outcome)
      requires Valid() && Generated(installation, k)
      modifies this`replicas, this`readyReplicas, this`log
      ensures Valid() && Step(Now(), out) == Reconcile.SyncTables(old(Now()), k, f)
    {
      out := Done;
      var isReady := k in replicas && replicas[k].phase == Ready;
      var isSync := k in replicas && replicas[k].state == Sync;
      if isReady && !isSync {
        if f.tables {
          return Failed;
        }
        var status := GetReplicaStatus(k);
        replicas := replicas[k := status.value.(state := Sync)];
        readyReplicas := readyReplicas + 1;
        log := log + [Tables(k)];
      }
    }

    /** UpdateInstallationStatus. */
    method UpdateStatus()
      modifies this`stored
      ensures Now() == Write(old(Now()))
    {
      stored := replicas;
    }

    method DeleteReplica(k: Key, f: Faults) returns (out: Outcome)
      requires Valid()
      modifies this`store, this`replicas, this`log, this`stored
      ensures Valid() && Step(Now(), out) == Reconcile.DeleteReplica(old(Now()), k, f)
    {
      if f.get {
        return Failed;
      }
      if k.replica !in store {
        return Done;
      }
      if f.delete {
        return Failed;
      }
      store := store - {k.replica};
      replicas := replicas - {k};
      log := log + [Gone(k)];
      if f.cleanup {
        return Failed;
      }
      if !f.skip {
        UpdateStatus();
      }
      return Done;
    }

    /** syncShard, first loop. */
    method SyncReplicas(at: ShardKey, order: seq<Name>, cfgs: map<Name, Config>, paused: bool, oracle: Oracle) returns (out: Outcome)
      requires Valid() && forall n | n in order :: n in cfgs && Generated(installation, Key(at, n))
      modifies this`store, this`replicas, this`readyReplicas, this`log
      ensures Valid()
      ensures Step(Now(), out) == RunPlan(old(Now()), Visits(at, order, 0, cfgs), paused, oracle)
    {
      for i := 0 to |order|
        invariant Valid()
        invariant RunPlan(old(Now()), Visits(at, order, 0, cfgs), paused, oracle) == RunPlan(Now(), Visits(at, order, i, cfgs), paused, oracle)
      {
        out := SyncReplica(Key(at, order[i]), cfgs[order[i]], paused, oracle(order[i]));
        if out != Done {
          return;
        }
      }
      return Done;
    }

    /** syncShard, second loop: delete extra replicas. */
    method DeleteExtras(at: ShardKey, extras: seq<Name>, cfgs: map<Name, Config>, ghost paused: bool, oracle: Oracle) returns (out: Outcome)
      requires Valid()
      modifies this`store, this`replicas, this`log, this`stored
      ensures Valid()
      ensures Step(Now(), out) == RunPlan(old(Now()), Deletions(at, extras, 0, cfgs), paused, oracle)
    {
      for i := 0 to |extras|
        invariant Valid()
        invariant RunPlan(old(Now()), Deletions(at, extras, 0, cfgs), paused, oracle) == RunPlan(Now(), Deletions(at, extras, i, cfgs), paused, oracle)
      {
        if extras[i] !in cfgs {
          out := DeleteReplica(Key(at, extras[i]), oracle(extras[i]));
          if out != Done {
            return;
          }
        }
      }
      return Done;
    }

    /** syncShard. */
    method SyncShard(stop: Stop, spec: Spec, paused: bool, oracle: Oracle) returns (out: Outcome)
      requires Valid() && IsStop(stop, spec, prevSpec)
      requires forall n | n in spec[stop.at] :: Generated(installation, Key(stop.at, n))
      modifies this`store, this`replicas, this`readyReplicas, this`log, this`stored
      ensures Valid()
      ensures Step(Now(), out) == RunPlan(old(Now()), StopPlan(stop, spec, prevSpec), paused, oracle)
    {
      var cfgs := spec[stop.at];
      RunAppend(Now(), Visits(stop.at, stop.order, 0, cfgs), ExtrasPlan(stop, spec, prevSpec), paused, oracle);
      out := SyncReplicas(stop.at, stop.order, cfgs, paused, oracle);
      if out != Done {
        return;
      }
      var oldReplicas := Replicas(prevSpec, stop.at);
      if |oldReplicas| > |cfgs| {
        out := DeleteExtras(stop.at, stop.extras, cfgs, paused, oracle);
      }
    }

    /** syncConfiguration and syncCluster: every shard of every cluster. */
    method SyncConfiguration(tour: Tour, spec: Spec, paused: bool, oracle: Oracle) returns (out: Outcome)
      requires Valid() && AreStops(tour, spec, prevSpec) && AllGenerated(installation, spec)
      modifies this`store, this`replicas, this`readyReplicas, this`log, this`stored
      ensures Valid()
      ensures Step(Now(), out) == RunPlan(old(Now()), TourPlan(tour, 0, spec, prevSpec), paused, oracle)
    {
      for i := 0 to |tour|
        invariant Valid()
        invariant RunPlan(old(Now()), TourPlan(tour, 0, spec, prevSpec), paused, oracle)
                  == RunPlan(Now(), TourPlan(tour, i, spec, prevSpec), paused, oracle)
      {
        ShardGenerated(installation, spec, tour[i].at);
        RunAppend(Now(), StopPlan(tour[i], spec, prevSpec), TourPlan(tour, i + 1, spec, prevSpec), paused, oracle);
        out := SyncShard(tour[i], spec, paused, oracle);
        if out != Done {
          return;
        }
      }
      return Done;
    }

    /** NormalizedSpec.ReplicasCount. */
    static method ReplicasCount(spec: Spec) returns (count: int)
      ensures count == |Flatten(spec)|
    {
      count := 0;
      var todo := spec.Keys;
      ghost var done: set<Key> := {};
      while todo != {}
        invariant todo <= spec.Keys
        invariant done == EntriesOutside(spec, todo)
        invariant count == |done|
        decreases todo
      {
        var at :| at in todo;
        ShardEntriesSize(spec, at);
        assert EntriesOutside(spec, todo - {at}) == done + ShardEntries(spec, at);
        done := done + ShardEntries(spec, at);
        count := count + |spec[at]|;
        todo := todo - {at};
      }
      assert done == Flatten(spec).Keys;
      assert |Flatten(spec)| == |Flatten(spec).Keys|;
    }

    /** Sync, for an installation that is not being deleted. */
    method SyncInstallation(tour: Tour, spec: Spec, paused: bool, oracle: Oracle, faults: PassFaults)
      returns (out: Outcome, ghost written: bool)
      requires Valid() && IsTour(tour, spec, prevSpec) && AllGenerated(installation, spec)
      modifies this
      ensures Valid()
      ensures Pass(Status(), out, written)
              == SyncPass(old(Status()), spec, TourPlan(tour, 0, spec, old(prevSpec)), paused, oracle, faults)
    {
      written := false;
      BeginSync(spec);
      if faults.before {
        return Failed, false;
      }
      out := SyncConfiguration(tour, spec, paused, oracle);
      if out != Done {
        return;
      }
      out, written := EndSync(spec, faults);
    }

    /** fillStatus and Reset. */
    method BeginSync(spec: Spec)
      requires Valid()
      modifies this`replicasCount, this`readyReplicas, this`state
      ensures Valid() && Status() == Begin(old(Status()), spec)
    {
      replicasCount := ReplicasCount(spec);
      readyReplicas := 0;
      state := InProgress;
    }

    /** The end of Sync, when all shards went through; otherwise the state is InProgress already, since it was
        reset at the beginning. */
    method EndSync(spec: Spec, faults: PassFaults) returns (out: Outcome, ghost written: bool)
      requires Valid() && state == InProgress
      modifies this`prevSpec, this`state, this`stored
      ensures Valid()
      ensures Pass(Status(), out, written) == EndPass(old(Status()), spec, faults)
    {
      prevSpec := spec;
      if faults.after {
        return Failed, false;
      }
      if replicasCount == readyReplicas {
        state := Completed;
      }
      if faults.write {
        return Failed, false;
      }
      if !faults.skip {
        UpdateStatus();
        return Done, true;
      }
      return Done, false;
    }
  }

  lemma ShardGenerated(installation: string, spec: Spec, at: ShardKey)
    requires at in spec && AllGenerated(installation, spec)
    ensures forall n | n in spec[at] :: Generated(installation, Key(at, n))
  {
    forall n | n in spec[at]
      ensures Generated(installation, Key(at, n))
    {
      assert Key(at, n) in Flatten(spec);
    }
  }

  ghost function EntriesOutside(spec: Spec, todo: set<ShardKey>): set<Key>
  {
    set k | k in Flatten(spec) && k.at !in todo
  }

  ghost function ShardEntries(spec: Spec, at: ShardKey): set<Key>
  {
    set k | k in Flatten(spec) && k.at == at
  }

  lemma ShardEntriesSize(spec: Spec, at: ShardKey)
    requires at in spec
    ensures |ShardEntries(spec, at)| == |spec[at]|
  {
    assert |spec[at]| == |spec[at].Keys|;
    forall k
      ensures k in ShardEntries(spec, at) <==> k.at == at && k.replica in spec[at]
    {
    }
    SameCount(spec[at].Keys, ShardEntries(spec, at), at);
  }

  lemma {:induction false} SameCount(names: set<Name>, keys: set<Key>, at: ShardKey)
    requires forall k :: k in keys <==> k.at == at && k.replica in names
    ensures |keys| == |names|
  {
    if names == {} {
      assert forall k :: k !in keys;
      assert keys == {};
    } else {
      var n :| n in names;
      assert Key(at, n) in keys;
      SameCount(names - {n}, keys - {Key(at, n)}, at);
    }
  }
}
