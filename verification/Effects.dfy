/** What a pass does to one replica, in terms of the fields of its StatefulSet, of its status and of what goes
    wrong (controllers/daisymanager/daisy_member_manager.go). */
module Effects {
  import opened Commons
  import opened Names
  import opened Reconcile
  import opened Passes
  import opened Tours
  import opened Runs

  // ---- when a pass goes on ----

  /** The last update of the set is rolled out: the controller has seen it, and all its replicas are ready,
      current and updated, in one revision. */
  predicate RolledOut(set': StatefulSet)
  {
    && set'.status.observedGeneration == set'.generation
    && set'.status.currentRevision == set'.status.updateRevision
    && set'.status.readyReplicas == set'.status.currentReplicas == set'.status.updatedReplicas == set'.replicas
  }

  /** The tables of k are to be created: unpaused, its set is unchanged, has its one pod ready and is rolled
      out, and it was not in sync; paused, it was left waiting for them. */
  predicate Due(w: World, k: Key, cfg: Config, paused: bool)
  {
    && k in w.replicas
    && if paused then w.replicas[k].phase == Ready && w.replicas[k].state != Sync
       else
         && w.replicas[k].state == NotSync && k.replica in w.store
         && w.store[k.replica].applied == Some(cfg) && w.store[k.replica].status.readyReplicas == 1 && RolledOut(w.store[k.replica])
  }

  predicate VisitGoesOn(w: World, k: Key, cfg: Config, paused: bool, f: Faults)
  {
    && !f.configMap && !f.get && !f.service
    && (paused || (k.replica in w.store && !f.expand))
    && (Due(w, k, cfg, paused) ==> !f.tables)
  }

  predicate DeleteGoesOn(w: World, k: Key, f: Faults)
  {
    !f.get && (k.replica in w.store ==> !f.delete && !f.cleanup)
  }

  lemma VisitGoesOnIff(w: World, k: Key, cfg: Config, paused: bool, oracle: Oracle)
    ensures var out, f := Act(w, Visit(k, cfg), paused, oracle).out, oracle(k.replica);
      && (out == Done <==> VisitGoesOn(w, k, cfg, paused, f))
      && (out == Requeue <==> !paused && k.replica !in w.store && !f.configMap && !f.get && !f.create)
  {
  }

  lemma DeleteGoesOnIff(w: World, k: Key, paused: bool, oracle: Oracle)
    ensures var out := Act(w, Delete(k), paused, oracle).out;
      out == if DeleteGoesOn(w, k, oracle(k.replica)) then Done else Failed
  {
  }

  ghost predicate AllGoOn(w: World, p: Plan, paused: bool, oracle: Oracle)
  {
    && (forall k | k in Goal(p) :: VisitGoesOn(w, k, Goal(p)[k], paused, oracle(k.replica)))
    && forall k | k in Doomed(p) :: DeleteGoesOn(w, k, oracle(k.replica))
  }

  /** What another action did does not matter. */
  lemma OthersGoOnAlike(w: World, p: Plan, paused: bool, oracle: Oracle)
    requires Apart(p) && p.Then?
    ensures var v := Act(w, p.first, paused, oracle).w;
      AllGoOn(v, p.rest, paused, oracle) <==> AllGoOn(w, p.rest, paused, oracle)
  {
    var v := Act(w, p.first, paused, oracle).w;
    NamesOfPlan(p.rest);
    forall k | k in Goal(p.rest)
      ensures VisitGoesOn(v, k, Goal(p.rest)[k], paused, oracle(k.replica))
              <==> VisitGoesOn(w, k, Goal(p.rest)[k], paused, oracle(k.replica))
    {
      ActIsLocal(w, p.first, paused, oracle, k);
    }
    forall k | k in Doomed(p.rest)
      ensures DeleteGoesOn(v, k, oracle(k.replica)) <==> DeleteGoesOn(w, k, oracle(k.replica))
    {
      ActIsLocal(w, p.first, paused, oracle, k);
    }
  }

  lemma FirstAndRest(w: World, p: Plan, paused: bool, oracle: Oracle)
    requires Apart(p) && p.Then?
    ensures AllGoOn(w, p, paused, oracle) <==>
            (match p.first
             case Visit(k, cfg) => VisitGoesOn(w, k, cfg, paused, oracle(k.replica))
             case Delete(k) => DeleteGoesOn(w, k, oracle(k.replica)))
            && AllGoOn(w, p.rest, paused, oracle)
  {
    NamesOfPlan(p.rest);
  }

  /** A pass goes through exactly if nothing it needs fails and, unpaused, no wanted StatefulSet is missing. */
  lemma {:induction false} PassFinishesIff(w: World, p: Plan, paused: bool, oracle: Oracle)
    requires Apart(p)
    ensures RunPlan(w, p, paused, oracle).out == Done <==> AllGoOn(w, p, paused, oracle)
    decreases p
  {
    match p
    case End =>
    case Then(a, rest) =>
      FirstAndRest(w, p, paused, oracle);
      OthersGoOnAlike(w, p, paused, oracle);
      PassFinishesIff(Act(w, a, paused, oracle).w, rest, paused, oracle);
      if a.Visit? {
        VisitGoesOnIff(w, a.key, a.cfg, paused, oracle);
      } else {
        DeleteGoesOnIff(w, a.key, paused, oracle);
      }
  }

  // ---- tables ----

  /** A pass that gets to a replica whose tables are to be created fails if they cannot be. */
  lemma FailedTablesFailThePass(w: World, q: Plan, k: Key, cfg: Config, rest: Plan, paused: bool, oracle: Oracle)
    requires Apart(Append(q, Then(Visit(k, cfg), rest))) && RunPlan(w, q, paused, oracle).out == Done
    requires Due(w, k, cfg, paused) && oracle(k.replica).tables
    ensures RunPlan(w, Append(q, Then(Visit(k, cfg), rest)), paused, oracle).out == Failed
  {
    PartsApart(q, Then(Visit(k, cfg), rest));
    RunAppend(w, q, Then(Visit(k, cfg), rest), paused, oracle);
    RunIsLocal(w, q, paused, oracle, k);
    var mid := RunPlan(w, q, paused, oracle).w;
    assert Due(mid, k, cfg, paused);
    VisitGoesOnIff(mid, k, cfg, paused, oracle);
  }

  /** From a log to a later one: what was added tells of tables only where creating them succeeded. */
  ghost predicate Grows(log: seq<Event>, later: seq<Event>, oracle: Oracle)
  {
    && log <= later
    && forall x | |log| <= x < |later| :: later[x].Tables? ==> !oracle(later[x].key.replica).tables
  }

  lemma ActGrows(w: World, a: Action, paused: bool, oracle: Oracle)
    ensures Grows(w.log, Act(w, a, paused, oracle).w.log, oracle)
  {
    if a.Visit? {
      StatefulSetGrows(w, a.key, a.cfg, paused, oracle(a.key.replica));
    }
  }

  lemma StatefulSetGrows(w: World, k: Key, cfg: Config, paused: bool, f: Faults)
    ensures var log := SyncStatefulSet(w, k, cfg, paused, f).w.log;
      log == w.log || log == w.log + [Down(k)]
  {
  }

  lemma {:induction false} PassGrows(w: World, p: Plan, paused: bool, oracle: Oracle)
    ensures Grows(w.log, RunPlan(w, p, paused, oracle).w.log, oracle)
    decreases p
  {
    if p.Then? {
      var s := Act(w, p.first, paused, oracle);
      ActGrows(w, p.first, paused, oracle);
      if s.out == Done {
        PassGrows(s.w, p.rest, paused, oracle);
        GrowsTwice(w.log, s.w.log, RunPlan(s.w, p.rest, paused, oracle).w.log, oracle);
      }
    }
  }

  lemma GrowsTwice(a: seq<Event>, b: seq<Event>, c: seq<Event>, oracle: Oracle)
    requires Grows(a, b, oracle) && Grows(b, c, oracle)
    ensures Grows(a, c, oracle)
  {
    forall x | |a| <= x < |b|
      ensures c[x] == b[x]
    {
    }
  }

  lemma SyncOfAct(w: World, a: Action, paused: bool, oracle: Oracle, k: Key)
    requires StatusAt(Act(w, a, paused, oracle).w, k).state == Sync && StatusAt(w, k).state != Sync
    ensures !oracle(k.replica).tables
  {
  }

  /** A replica that a pass brought in sync is one whose tables could be created. */
  lemma {:induction false} NewSyncNeedsTables(w: World, p: Plan, paused: bool, oracle: Oracle, k: Key)
    requires StatusAt(RunPlan(w, p, paused, oracle).w, k).state == Sync && StatusAt(w, k).state != Sync
    ensures !oracle(k.replica).tables
    decreases p
  {
    var s := Act(w, p.first, paused, oracle);
    if StatusAt(s.w, k).state == Sync {
      SyncOfAct(w, p.first, paused, oracle, k);
    } else {
      NewSyncNeedsTables(s.w, p.rest, paused, oracle, k);
    }
  }

  lemma RoundGrows(s: Installation, r: Round, t: Installation)
    requires Follows(s, r, t)
    ensures Grows(s.world.log, t.world.log, r.oracle)
  {
    RoundFacts(s, r);
    PassGrows(Start(s, r), r.plan, r.paused, r.oracle);
  }

  /** The event at x was logged by round j. */
  predicate LoggedBy(states: seq<Installation>, x: nat, j: nat)
  {
    j + 1 < |states| && |states[j].world.log| <= x < |states[j + 1].world.log|
  }

  /** Over every run, each record of tables was made by a round in which creating them succeeded. */
  lemma {:induction false} TablesWereCreated(states: seq<Installation>, rounds: seq<Round>, i: nat, x: nat) returns (j: nat)
    requires IsRun(states, rounds) && i < |states| && |states[0].world.log| <= x < |states[i].world.log|
    requires states[i].world.log[x].Tables?
    ensures j < i && LoggedBy(states, x, j) && !rounds[j].oracle(states[i].world.log[x].key.replica).tables
    ensures states[j + 1].world.log[x] == states[i].world.log[x]
  {
    var h := i - 1;
    RoundGrows(states[h], rounds[h], states[i]);
    if x < |states[h].world.log| {
      j := TablesWereCreated(states, rounds, h, x);
    } else {
      j := h;
    }
  }

  /** The position of the last event of k. */
  lemma {:induction false} LastOf(log: seq<Event>, k: Key) returns (x: nat)
    requires TablesSinceDown(log, k)
    ensures x < |log| && log[x] == Tables(k) && forall y | x < y < |log| :: log[y].key != k
  {
    var last := |log| - 1;
    if log[last].key == k {
      x := last;
    } else {
      x := LastOf(log[..last], k);
    }
  }

  /** Over every run with the status carried along, a replica in sync had its tables created, successfully, by
      the round that recorded the last thing that happened to it. */
  lemma SyncMeansTables(states: seq<Installation>, rounds: seq<Round>, i: nat, k: Key) returns (x: nat, j: nat)
    requires IsCarried(states, rounds) && i < |states| && states[0].world.log == [] && HonestAt(states[0].world, k)
    requires StatusAt(states[i].world, k).state == Sync
    ensures x < |states[i].world.log| && states[i].world.log[x] == Tables(k)
    ensures forall y | x < y < |states[i].world.log| :: states[i].world.log[y].key != k
    ensures j < i && LoggedBy(states, x, j) && !rounds[j].oracle(k.replica).tables
  {
    StatusStaysHonest(states, rounds, k, i);
    x := LastOf(states[i].world.log, k);
    CarriedIsRun(states, rounds);
    j := TablesWereCreated(states, rounds, i, x);
  }

  lemma CarriedIsRun(states: seq<Installation>, rounds: seq<Round>)
    requires IsCarried(states, rounds)
    ensures IsRun(states, rounds)
  {
  }

  /** A replica in service that is not in sync yet gets in sync in a finished pass exactly if it was NotSync and
      its set is rolled out; otherwise it is reported in phase Normal without tables. */
  lemma RolloutDecides(s: Installation, r: Round, k: Key)
    requires IsRound(s, r) && !r.paused && After(s, r).out == Done
    requires k in Flatten(r.spec) && k.replica in r.seen && StatusAt(s.world, k).state != Sync
    requires r.seen[k.replica].applied == Some(Flatten(r.spec)[k]) && r.seen[k.replica].status.readyReplicas == 1
    ensures var now := StatusAt(After(s, r).installation.world, k);
      && (now == ReplicaStatus(Ready, Sync) <==> StatusAt(s.world, k).state == NotSync && RolledOut(r.seen[k.replica]))
      && (now != ReplicaStatus(Ready, Sync) ==> now == ReplicaStatus(Normal, StatusAt(s.world, k).state))
  {
    RoundFacts(s, r);
    FinishedPassAt(Start(s, r), r.plan, r.oracle, k);
  }

  // ---- StatefulSets ----

  predicate IsNewSet(set': StatefulSet, cfg: Config)
  {
    set'.applied == Some(cfg) && set'.replicas == 1 && set'.status.readyReplicas == 0
  }

  /** A StatefulSet a pass adds to the store is that of a wanted replica, with its configuration, one replica
      and no ready pod, and the replica is in Scale and NotSync. */
  lemma {:induction false} AddedSets(w: World, p: Plan, paused: bool, oracle: Oracle, n: Name) returns (k: Key)
    requires Apart(p) && n !in w.store && n in RunPlan(w, p, paused, oracle).w.store
    ensures k in Goal(p) && k.replica == n
    ensures var v := RunPlan(w, p, paused, oracle).w;
      IsNewSet(v.store[n], Goal(p)[k]) && StatusAt(v, k) == ReplicaStatus(Scale, NotSync)
    decreases p
  {
    var a := p.first;
    var s := Act(w, a, paused, oracle);
    NamesOfPlan(p.rest);
    if n in s.w.store {
      k := a.key;
    } else {
      k := AddedSets(s.w, p.rest, paused, oracle, n);
    }
  }

  /** After a finished unpaused pass the StatefulSet of every wanted replica has its configuration, and one
      that was updated one replica, unless the update failed, which the pass passes over. */
  lemma FinishedPassApplies(s: Installation, r: Round, k: Key)
    requires IsRound(s, r) && !r.paused && After(s, r).out == Done && k in Flatten(r.spec)
    ensures var store := After(s, r).installation.world.store;
      && k.replica in r.seen && k.replica in store
      && (r.seen[k.replica].applied == Some(Flatten(r.spec)[k]) || r.oracle(k.replica).update ==> store[k.replica] == r.seen[k.replica])
      && (r.seen[k.replica].applied != Some(Flatten(r.spec)[k]) && !r.oracle(k.replica).update ==>
          store[k.replica] == r.seen[k.replica].(applied := Some(Flatten(r.spec)[k]), replicas := 1))
  {
    RoundFacts(s, r);
    FinishedPassAt(Start(s, r), r.plan, r.oracle, k);
  }

  // ---- how a round ends ----

  /** When a round is done, when its status is written, and what it remembers. */
  lemma RoundEnds(s: Installation, r: Round)
    requires IsRound(s, r)
    ensures var t := After(s, r);
      var through := !r.faults.before && AllGoOn(Start(s, r), r.plan, r.paused, r.oracle);
      && (t.out == Done <==> through && !r.faults.after && !r.faults.write)
      && (t.written <==> t.out == Done && !r.faults.skip)
      && t.installation.prevSpec == (if through then r.spec else s.prevSpec)
      && t.installation.replicasCount == |Flatten(r.spec)|
      && (t.installation.state == Completed ==> through && !r.faults.after)
  {
    PassFinishesIff(Start(s, r), r.plan, r.paused, r.oracle);
  }
}
