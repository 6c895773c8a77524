/** What one pass of the reconcile loop achieves, for every plan of every spec and in whatever order the
    maps are iterated. */
module Passes {
  import opened Commons
  import opened Names
  import opened Reconcile

  // ---- plans ----

  /** The replicas a plan visits, with their configuration. */
  function Goal(p: Plan): map<Key, Config>
  {
    match p
    case End => map[]
    case Then(Visit(k, cfg), rest) => Goal(rest)[k := cfg]
    case Then(Delete(_), rest) => Goal(rest)
  }

  /** The replicas a plan deletes. */
  function Doomed(p: Plan): set<Key>
  {
    match p
    case End => {}
    case Then(Visit(_, _), rest) => Doomed(rest)
    case Then(Delete(k), rest) => Doomed(rest) + {k}
  }

  function NamesIn(p: Plan): set<Name>
  {
    match p
    case End => {}
    case Then(a, rest) => NamesIn(rest) + {a.key.replica}
  }

  /** No name occurs twice in the plan. */
  ghost predicate Apart(p: Plan)
  {
    match p
    case End => true
    case Then(a, rest) => a.key.replica !in NamesIn(rest) && Apart(rest)
  }

  /** Once a replica of a shard is deleted, none of that shard is visited any more. */
  ghost predicate VisitsFirst(p: Plan)
  {
    match p
    case End => true
    case Then(Visit(_, _), rest) => VisitsFirst(rest)
    case Then(Delete(k), rest) => (forall l | l in Goal(rest) :: l.at != k.at) && VisitsFirst(rest)
  }

  /** The replicas a pass has to delete: those of a shard that had more replicas than it has now. */
  predicate IsExtra(spec: Spec, prev: Spec, k: Key)
  {
    && k.at in prev && k.replica in prev[k.at]
    && k.at in spec && k.replica !in spec[k.at]
    && |prev[k.at]| > |spec[k.at]|
  }

  ghost predicate IsPlan(p: Plan, spec: Spec, prev: Spec)
  {
    && Apart(p) && VisitsFirst(p) && Goal(p) == Flatten(spec)
    && forall k :: k in Doomed(p) <==> IsExtra(spec, prev, k)
  }

  lemma {:induction false} NamesOfPlan(p: Plan)
    ensures forall k | k in Goal(p) :: k.replica in NamesIn(p)
    ensures forall k | k in Doomed(p) :: k.replica in NamesIn(p)
  {
    if p.Then? {
      NamesOfPlan(p.rest);
    }
  }

  lemma {:induction false} GoalNamesApart(p: Plan, k: Key, l: Key)
    requires Apart(p) && k in Goal(p) && (l in Goal(p) || l in Doomed(p))
    requires k.replica == l.replica
    ensures k == l && l in Goal(p) && l !in Doomed(p)
  {
    NamesOfPlan(p.rest);
    if p.first.key.replica != k.replica {
      GoalNamesApart(p.rest, k, l);
    }
  }

  // ---- one action ----

  /** An action leaves every other replica alone. */
  lemma ActIsLocal(w: World, a: Action, paused: bool, oracle: Oracle, k: Key)
    ensures var s := Act(w, a, paused, oracle);
      && (k.replica != a.key.replica ==> SetAt(s.w, k.replica) == SetAt(w, k.replica))
      && (k != a.key ==> StatusAt(s.w, k) == StatusAt(w, k) && (k in s.w.replicas <==> k in w.replicas))
  {
    if a.Visit? {
      StatefulSetIsLocal(w, a.key, a.cfg, paused, oracle(a.key.replica), k);
    }
  }

  lemma StatefulSetIsLocal(w: World, key: Key, cfg: Config, paused: bool, f: Faults, k: Key)
    ensures var s := SyncStatefulSet(w, key, cfg, paused, f);
      && (k.replica != key.replica ==> SetAt(s.w, k.replica) == SetAt(w, k.replica))
      && (k != key ==> StatusAt(s.w, k) == StatusAt(w, k) && (k in s.w.replicas <==> k in w.replicas))
  {
  }

  lemma {:induction false} RunIsLocal(w: World, p: Plan, paused: bool, oracle: Oracle, k: Key)
    requires k.replica !in NamesIn(p)
    ensures var s := RunPlan(w, p, paused, oracle);
      && SetAt(s.w, k.replica) == SetAt(w, k.replica)
      && StatusAt(s.w, k) == StatusAt(w, k) && (k in s.w.replicas <==> k in w.replicas)
    decreases p
  {
    if p.Then? {
      ActIsLocal(w, p.first, paused, oracle, k);
      RunIsLocal(Act(w, p.first, paused, oracle).w, p.rest, paused, oracle, k);
    }
  }

  // ---- a finished pass, replica by replica ----

  /** A StatefulSet the pass finds unchanged and with its one pod ready. */
  predicate InService(store: map<Name, StatefulSet>, k: Key, cfg: Config)
  {
    && k.replica in store
    && store[k.replica].applied == Some(cfg)
    && store[k.replica].status.readyReplicas == 1
  }

  /** What a finished pass makes of the status of a replica. */
  function StatusAfter(was: ReplicaStatus, store: map<Name, StatefulSet>, k: Key, cfg: Config): ReplicaStatus
    requires k.replica in store
  {
    if !InService(store, k, cfg) then ReplicaStatus(Scale, NotSync)
    else if HasReachedGeneration(store[k.replica]) && was.state == NotSync then ReplicaStatus(Ready, Sync)
    else was.(phase := Normal)
  }

  function SetAfter(was: StatefulSet, cfg: Config, updateFails: bool): StatefulSet
  {
    if was.applied == Some(cfg) || updateFails then was else was.(applied := Some(cfg), replicas := 1)
  }

  lemma VisitDone(w: World, k: Key, cfg: Config, oracle: Oracle)
    requires Act(w, Visit(k, cfg), false, oracle).out == Done
    ensures var s := Act(w, Visit(k, cfg), false, oracle);
      && k.replica in w.store
      && k.replica in s.w.store
      && s.w.store[k.replica] == SetAfter(w.store[k.replica], cfg, oracle(k.replica).update)
      && k in s.w.replicas
      && s.w.replicas[k] == StatusAfter(StatusAt(w, k), w.store, k, cfg)
      && s.w.ready == w.ready + if InService(w.store, k, cfg) then 1 else 0
  {
  }

  /** A finished pass treats every replica of the spec as if it were alone: the order of the visits does
      not matter. */
  lemma {:induction false} FinishedPassAt(w: World, p: Plan, oracle: Oracle, k: Key)
    requires Apart(p) && RunPlan(w, p, false, oracle).out == Done
    ensures var s := RunPlan(w, p, false, oracle);
      && (k in Goal(p) ==>
          && k.replica in w.store && k.replica in s.w.store
          && s.w.store[k.replica] == SetAfter(w.store[k.replica], Goal(p)[k], oracle(k.replica).update)
          && k in s.w.replicas
          && s.w.replicas[k] == StatusAfter(StatusAt(w, k), w.store, k, Goal(p)[k]))
      && (k in Doomed(p) ==> k.replica !in s.w.store)
    decreases p
  {
    if p.Then? {
      NamesOfPlan(p.rest);
      var a := p.first;
      var s := Act(w, a, false, oracle);
      if k.replica == a.key.replica {
        RunIsLocal(s.w, p.rest, false, oracle, k);
        RunIsLocal(s.w, p.rest, false, oracle, a.key);
        if a.Visit? {
          VisitDone(w, a.key, a.cfg, oracle);
        }
      } else {
        ActIsLocal(w, a, false, oracle, k);
        FinishedPassAt(s.w, p.rest, oracle, k);
      }
    }
  }

  // ---- counting ready replicas ----

  /** The replicas of the spec that the pass finds in service. */
  function ReadyKeys(store: map<Name, StatefulSet>, goal: map<Key, Config>): set<Key>
  {
    set k | k in goal && InService(store, k, goal[k])
  }

  lemma ReadyKeysOfVisit(store: map<Name, StatefulSet>, p: Plan)
    requires p.Then? && Apart(p)
    ensures p.first.Visit? ==>
      ReadyKeys(store, Goal(p)) ==
        ReadyKeys(store, Goal(p.rest)) + if InService(store, p.first.key, p.first.cfg) then {p.first.key} else {}
    ensures p.first.Visit? ==> p.first.key !in ReadyKeys(store, Goal(p.rest))
  {
    NamesOfPlan(p.rest);
  }

  lemma ReadyKeysAgree(store: map<Name, StatefulSet>, after: map<Name, StatefulSet>, goal: map<Key, Config>)
    requires forall k | k in goal :: InService(store, k, goal[k]) == InService(after, k, goal[k])
    ensures ReadyKeys(store, goal) == ReadyKeys(after, goal)
  {
  }

  /** A finished pass counts each replica in service exactly once, although two places count. */
  lemma {:induction false} FinishedPassCounts(w: World, p: Plan, oracle: Oracle)
    requires Apart(p) && RunPlan(w, p, false, oracle).out == Done
    ensures RunPlan(w, p, false, oracle).w.ready == w.ready + |ReadyKeys(w.store, Goal(p))|
    decreases p
  {
    match p
    case End =>
    case Then(a, rest) =>
      var s := Act(w, a, false, oracle);
      FinishedPassCounts(s.w, rest, oracle);
      NamesOfPlan(rest);
      forall k | k in Goal(rest)
        ensures InService(w.store, k, Goal(rest)[k]) == InService(s.w.store, k, Goal(rest)[k])
      {
        ActIsLocal(w, a, false, oracle, k);
      }
      ReadyKeysAgree(w.store, s.w.store, Goal(rest));
      if a.Visit? {
        VisitDone(w, a.key, a.cfg, oracle);
        ReadyKeysOfVisit(w.store, p);
      }
  }

  // ---- creations and deletions, finished or not ----

  /** A name the plan does not delete stays; in particular every visited one. */
  lemma {:induction false} NotDoomedStays(w: World, p: Plan, paused: bool, oracle: Oracle, n: Name)
    requires n in w.store && forall k | k in Doomed(p) :: k.replica != n
    ensures n in RunPlan(w, p, paused, oracle).w.store
    decreases p
  {
    if p.Then? {
      NotDoomedStays(Act(w, p.first, paused, oracle).w, p.rest, paused, oracle, n);
    }
  }

  /** Nothing appears in the store that the plan does not visit. */
  lemma {:induction false} OnlyGoalAppears(w: World, p: Plan, paused: bool, oracle: Oracle, n: Name)
    requires n in RunPlan(w, p, paused, oracle).w.store
    ensures n in w.store || exists k :: k in Goal(p) && k.replica == n
    decreases p
  {
    if p.Then? {
      var s := Act(w, p.first, paused, oracle);
      if s.out == Done && n in RunPlan(s.w, p.rest, paused, oracle).w.store {
        OnlyGoalAppears(s.w, p.rest, paused, oracle, n);
      }
      if n !in w.store && n in s.w.store {
        assert p.first.key in Goal(p);
      }
    }
  }

  /** Scale out before scale in: whatever goes wrong during an unpaused pass, a StatefulSet disappears
      only as an extra replica of a shard all of whose wanted replicas already had theirs. */
  lemma {:induction false} DeletedOnlyWhenShardComplete(w: World, p: Plan, oracle: Oracle, n: Name) returns (gone: Key)
    requires Apart(p) && VisitsFirst(p)
    requires n in w.store && n !in RunPlan(w, p, false, oracle).w.store
    ensures gone in Doomed(p) && gone.replica == n
    ensures forall l | l in Goal(p) && l.at == gone.at :: l.replica in w.store
    decreases p
  {
    var a := p.first;
    var s := Act(w, a, false, oracle);
    if a.Delete? && n !in s.w.store {
      gone := a.key;
    } else {
      gone := DeletedOnlyWhenShardComplete(s.w, p.rest, oracle, n);
      NamesOfPlan(p.rest);
      forall l | l in Goal(p) && l.at == gone.at
        ensures l.replica in w.store
      {
        ActIsLocal(w, a, false, oracle, l);
      }
    }
  }

  /** The replicas of the spec that have no StatefulSet. */
  function Missing(store: map<Name, StatefulSet>, goal: map<Key, Config>): set<Key>
  {
    set k | k in goal && k.replica !in store
  }

  predicate NoFaults(f: Faults)
  {
    !f.configMap && !f.get && !f.create && !f.expand && !f.service && !f.tables && !f.delete && !f.cleanup
  }

  ghost predicate Faultless(oracle: Oracle)
  {
    forall n :: NoFaults(oracle(n))
  }

  lemma OthersStay(w: World, a: Action, rest: Plan, oracle: Oracle)
    requires a.key.replica !in NamesIn(rest)
    ensures forall k | k in Goal(rest) ::
      k.replica != a.key.replica && (k.replica in Act(w, a, false, oracle).w.store <==> k.replica in w.store)
  {
    NamesOfPlan(rest);
    forall k | k in Goal(rest)
      ensures SetAt(Act(w, a, false, oracle).w, k.replica) == SetAt(w, k.replica)
    {
      ActIsLocal(w, a, false, oracle, k);
    }
  }

  lemma FaultlessAct(w: World, a: Action, oracle: Oracle)
    requires NoFaults(oracle(a.key.replica))
    ensures var s := Act(w, a, false, oracle);
      && s.out == (if a.Visit? && a.key.replica !in w.store then Requeue else Done)
      && (a.Visit? ==> a.key.replica in s.w.store)
  {
  }

  /** Without API errors an unpaused pass stops to be requeued at the first missing replica, having
      created it, and finishes when none is missing. */
  lemma {:induction false} PassCreatesOne(w: World, p: Plan, oracle: Oracle) returns (made: Option<Key>)
    requires Apart(p) && Faultless(oracle)
    ensures var s := RunPlan(w, p, false, oracle);
      && (made.None? ==> s.out == Done && forall k | k in Goal(p) :: k.replica in w.store && k.replica in s.w.store)
      && (made.Some? ==>
          && s.out == Requeue
          && made.value in Goal(p) && made.value.replica !in w.store && made.value.replica in s.w.store
          && forall k | k in Goal(p) && k != made.value :: k.replica in s.w.store <==> k.replica in w.store)
    decreases p
  {
    match p
    case End => made := None;
    case Then(a, rest) =>
      assert NoFaults(oracle(a.key.replica));
      var s := Act(w, a, false, oracle);
      OthersStay(w, a, rest, oracle);
      FaultlessAct(w, a, oracle);
      if s.out == Requeue {
        made := Some(a.key);
      } else {
        made := PassCreatesOne(s.w, rest, oracle);
        if a.Visit? {
          RunIsLocal(s.w, rest, false, oracle, a.key);
        }
      }
  }

  /** So the number of missing replicas measures the requeue loop. */
  lemma MissingShrinks(w: World, p: Plan, oracle: Oracle)
    requires Apart(p) && Faultless(oracle)
    ensures var s := RunPlan(w, p, false, oracle);
      && (s.out == Done <==> Missing(w.store, Goal(p)) == {})
      && (s.out == Requeue <==> Missing(w.store, Goal(p)) != {})
      && |Missing(s.w.store, Goal(p))| == if s.out == Done then 0 else |Missing(w.store, Goal(p))| - 1
  {
    var made := PassCreatesOne(w, p, oracle);
    var s := RunPlan(w, p, false, oracle);
    if made.Some? {
      assert made.value in Missing(w.store, Goal(p));
      assert Missing(s.w.store, Goal(p)) == Missing(w.store, Goal(p)) - {made.value};
    } else {
      assert Missing(s.w.store, Goal(p)) == {};
    }
  }

  // ---- the table history ----

  /** The last thing that happened to k is that its tables were created. */
  predicate TablesSinceDown(log: seq<Event>, k: Key)
  {
    if log == [] then false
    else
      var last := log[|log| - 1];
      if last.key == k then last.Tables? else TablesSinceDown(log[..|log| - 1], k)
  }

  /** The status says Sync exactly of the replicas whose tables were created since a pass last saw them
      created, updated, without their ready pod, or deleted. */
  ghost predicate HonestAt(w: World, k: Key)
  {
    k in w.replicas && w.replicas[k].state == Sync <==> TablesSinceDown(w.log, k)
  }

  lemma LastEvent(log: seq<Event>, e: Event, k: Key)
    ensures TablesSinceDown(log + [e], k) <==> if e.key == k then e.Tables? else TablesSinceDown(log, k)
  {
    assert (log + [e])[..|log|] == log;
  }

  lemma DownIsHonest(w: World, store: map<Name, StatefulSet>, key: Key, set': StatefulSet, k: Key)
    requires HonestAt(w, k) && set'.status.readyReplicas != 1
    ensures HonestAt(SyncReplicaStatus(w.(store := store, log := w.log + [Down(key)]), key, set'), k)
  {
    LastEvent(w.log, Down(key), k);
  }

  lemma UpIsHonest(w: World, key: Key, set': StatefulSet, k: Key)
    requires HonestAt(w, k) && set'.status.readyReplicas == 1
    ensures HonestAt(SyncReplicaStatus(w, key, set'), k)
  {
  }

  lemma StatefulSetIsHonest(w: World, key: Key, cfg: Config, paused: bool, f: Faults, k: Key)
    requires HonestAt(w, k)
    ensures HonestAt(SyncStatefulSet(w, key, cfg, paused, f).w, k)
  {
    var n := key.replica;
    if n !in w.store {
      DownIsHonest(w, w.store[n := Desired(cfg)], key, Desired(cfg), k);
    } else {
      var was := w.store[n];
      DownIsHonest(w, if f.update then w.store else w.store[n := was.(applied := Some(cfg), replicas := 1)], key, Desired(cfg), k);
      if was.status.readyReplicas == 1 {
        UpIsHonest(w, key, was, k);
      } else {
        DownIsHonest(w, w.store, key, was, k);
      }
    }
  }

  lemma ActIsHonest(w: World, a: Action, paused: bool, oracle: Oracle, k: Key)
    requires HonestAt(w, k)
    ensures HonestAt(Act(w, a, paused, oracle).w, k)
  {
    if a.Visit? {
      var t := SyncStatefulSet(w, a.key, a.cfg, paused, oracle(a.key.replica));
      StatefulSetIsHonest(w, a.key, a.cfg, paused, oracle(a.key.replica), k);
      LastEvent(t.w.log, Tables(a.key), k);
    } else {
      LastEvent(w.log, Gone(a.key), k);
    }
  }

  /** Every pass keeps the status honest: paused, failed, requeued or finished. */
  lemma {:induction false} RunIsHonest(w: World, p: Plan, paused: bool, oracle: Oracle, k: Key)
    requires HonestAt(w, k)
    ensures HonestAt(RunPlan(w, p, paused, oracle).w, k)
    decreases p
  {
    if p.Then? {
      ActIsHonest(w, p.first, paused, oracle, k);
      RunIsHonest(Act(w, p.first, paused, oracle).w, p.rest, paused, oracle, k);
    }
  }
}
