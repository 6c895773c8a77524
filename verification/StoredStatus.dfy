/** What the status in the API server says after a pass. Sync writes the status at its end, which it does
    not reach on a requeue or an error, and after every deletion, when it writes the whole status as worked
    out so far (controllers/daisymanager/daisy_member_manager.go). */
module StoredStatus {
  import opened Commons
  import opened Names
  import opened Reconcile
  import opened Passes
  import opened Tours
  import opened Runs

  // ---- where a pass stops ----

  /** A pass carried out q, and then stopped in the middle of an action unless q was all there was. */
  ghost predicate StopsAt(w: World, p: Plan, paused: bool, oracle: Oracle, q: Plan, stop: Option<Action>)
  {
    && RunPlan(w, q, paused, oracle).out == Done
    && match stop
       case None => q == p
       case Some(a) =>
         && (exists rest :: p == Append(q, Then(a, rest)))
         && RunPlan(w, p, paused, oracle) == Act(RunPlan(w, q, paused, oracle).w, a, paused, oracle)
         && RunPlan(w, p, paused, oracle).out != Done
  }

  lemma {:induction false} EveryPassStops(w: World, p: Plan, paused: bool, oracle: Oracle) returns (q: Plan, stop: Option<Action>)
    requires Apart(p)
    ensures StopsAt(w, p, paused, oracle, q, stop)
    decreases p
  {
    if p.End? {
      q, stop := End, None;
    } else {
      var a := p.first;
      var s := Act(w, a, paused, oracle);
      if s.out == Done {
        q, stop := EveryPassStops(s.w, p.rest, paused, oracle);
        q := Then(a, q);
        if stop.Some? {
          var rest :| p.rest == Append(q.rest, Then(stop.value, rest));
          assert p == Append(q, Then(stop.value, rest));
        }
      } else {
        q, stop := End, Some(a);
        assert p == Append(q, Then(a, p.rest));
      }
    }
  }

  // ---- what a finished part of a plan does to a status ----

  lemma {:induction false} StatusUntouched(w: World, q: Plan, paused: bool, oracle: Oracle, k: Key)
    requires k !in Goal(q) && k !in Doomed(q)
    ensures StatusAt(RunPlan(w, q, paused, oracle).w, k) == StatusAt(w, k)
    decreases q
  {
    if q.Then? {
      ActIsLocal(w, q.first, paused, oracle, k);
      StatusUntouched(Act(w, q.first, paused, oracle).w, q.rest, paused, oracle, k);
    }
  }

  lemma {:induction false} StatusOfDoomed(w: World, q: Plan, paused: bool, oracle: Oracle, k: Key)
    requires Apart(q) && RunPlan(w, q, paused, oracle).out == Done && k in Doomed(q)
    ensures StatusAt(RunPlan(w, q, paused, oracle).w, k) == if k.replica in w.store then ReplicaStatus(NoPhase, Unset) else StatusAt(w, k)
    decreases q
  {
    NamesOfPlan(q.rest);
    var s := Act(w, q.first, paused, oracle);
    if q.first == Delete(k) {
      RunIsLocal(s.w, q.rest, paused, oracle, k);
    } else {
      ActIsLocal(w, q.first, paused, oracle, k);
      StatusOfDoomed(s.w, q.rest, paused, oracle, k);
    }
  }

  /** A paused pass still creates the tables of a replica that was waiting for them. */
  lemma {:induction false} StatusOfPaused(w: World, q: Plan, oracle: Oracle, k: Key)
    requires Apart(q) && RunPlan(w, q, true, oracle).out == Done && k in Goal(q)
    ensures var was := StatusAt(w, k);
      StatusAt(RunPlan(w, q, true, oracle).w, k) == if was.phase == Ready then was.(state := Sync) else was
    decreases q
  {
    NamesOfPlan(q.rest);
    var s := Act(w, q.first, true, oracle);
    if q.first.Visit? && q.first.key == k {
      RunIsLocal(s.w, q.rest, true, oracle, k);
    } else {
      ActIsLocal(w, q.first, true, oracle, k);
      StatusOfPaused(s.w, q.rest, oracle, k);
    }
  }

  // ---- exactly when a status from before a pass stays honest ----

  /** An action that was cut short got as far as creating, updating, finding down or deleting a StatefulSet. */
  predicate Disturbs(w: World, a: Action, paused: bool, f: Faults)
  {
    match a
    case Visit(k, cfg) =>
      !paused && !f.configMap && !f.get && if k.replica in w.store then !f.expand && !InService(w.store, k, cfg) else !f.create
    case Delete(k) => !f.get && k.replica in w.store && !f.delete
  }

  /** The status of k before a pass that went through q and was then cut short still tells the truth after
      it: one visited is out of sync and its tables were not created, or in sync and found in service, or, by
      a paused pass, not waiting for its tables; one deleted, or where the pass was cut short after changing
      something, was not in sync; and one the pass did not get to is as it was. */
  predicate SurvivesDrop(w: World, paused: bool, oracle: Oracle, q: Plan, stop: Option<Action>, k: Key)
  {
    var was := StatusAt(w, k).state;
    if k in Goal(q) && paused then was != Sync ==> StatusAt(w, k).phase != Ready
    else if k in Goal(q) then
      && (was == Sync ==> InService(w.store, k, Goal(q)[k]))
      && (was == NotSync && InService(w.store, k, Goal(q)[k]) ==> !HasReachedGeneration(w.store[k.replica]))
    else if k in Doomed(q) then k.replica in w.store ==> was != Sync
    else stop.Some? && k == stop.value.key && Disturbs(w, stop.value, paused, oracle(k.replica)) ==> was != Sync
  }

  /** The status from before, next to what was done since. */
  function Dropped(w: World, after: World): World
  {
    after.(replicas := w.replicas)
  }

  lemma StatusOfStop(w: World, a: Action, paused: bool, oracle: Oracle)
    requires Act(w, a, paused, oracle).out != Done
    ensures var was, now := StatusAt(w, a.key).state, StatusAt(Act(w, a, paused, oracle).w, a.key).state;
      now == Sync <==> was == Sync && !Disturbs(w, a, paused, oracle(a.key.replica))
  {
  }

  lemma StatusOfRun(w: World, p: Plan, paused: bool, oracle: Oracle, q: Plan, stop: Option<Action>, k: Key)
    requires Apart(p) && StopsAt(w, p, paused, oracle, q, stop)
    ensures (StatusAt(w, k).state == Sync <==> StatusAt(RunPlan(w, p, paused, oracle).w, k).state == Sync)
            <==> SurvivesDrop(w, paused, oracle, q, stop, k)
  {
    var mid := RunPlan(w, q, paused, oracle).w;
    if stop.Some? {
      var rest :| p == Append(q, Then(stop.value, rest));
      PartsApart(q, Then(stop.value, rest));
      ActIsLocal(mid, stop.value, paused, oracle, k);
      RunIsLocal(w, q, paused, oracle, stop.value.key);
      StatusOfStop(mid, stop.value, paused, oracle);
    }
    NamesOfPlan(q);
    if k in Goal(q) {
      GoalNamesApart(q, k, k);
      if paused {
        StatusOfPaused(w, q, oracle, k);
      } else {
        FinishedPassAt(w, q, oracle, k);
      }
    } else if k in Doomed(q) {
      StatusOfDoomed(w, q, paused, oracle, k);
    } else {
      StatusUntouched(w, q, paused, oracle, k);
    }
  }

  lemma DroppedStatusHonestIff(w: World, p: Plan, paused: bool, oracle: Oracle, q: Plan, stop: Option<Action>, k: Key)
    requires Apart(p) && StopsAt(w, p, paused, oracle, q, stop) && HonestAt(w, k)
    ensures HonestAt(Dropped(w, RunPlan(w, p, paused, oracle).w), k) <==> SurvivesDrop(w, paused, oracle, q, stop, k)
  {
    RunIsHonest(w, p, paused, oracle, k);
    StatusOfRun(w, p, paused, oracle, q, stop, k);
  }

  // ---- the last write of a pass ----

  /** A carried-out deletion of k wrote the status. */
  predicate Writes(w: World, oracle: Oracle, k: Key)
  {
    k.replica in w.store && !oracle(k.replica).skip
  }

  ghost predicate EndsInWrite(w: World, oracle: Oracle, q: Plan)
  {
    exists before, d :: q == Append(before, Then(Delete(d), End)) && Writes(w, oracle, d)
  }

  /** A pass carried out q1 up to and including the last deletion that wrote the status, if there was one, then
      q2, and was then cut short in the middle of an action unless that was all. */
  ghost predicate SplitsAt(w: World, p: Plan, paused: bool, oracle: Oracle, q1: Plan, q2: Plan, stop: Option<Action>)
  {
    && RunPlan(w, q1, paused, oracle).out == Done
    && (q1 == End || EndsInWrite(w, oracle, q1))
    && (forall d | d in Doomed(q2) :: !Writes(w, oracle, d))
    && exists t :: p == Append(q1, t) && StopsAt(RunPlan(w, q1, paused, oracle).w, t, paused, oracle, q2, stop)
  }

  lemma {:induction false} SplitAtLastWrite(w: World, q: Plan, oracle: Oracle) returns (q1: Plan, q2: Plan)
    ensures q == Append(q1, q2)
    ensures q1 == End || EndsInWrite(w, oracle, q1)
    ensures forall d | d in Doomed(q2) :: !Writes(w, oracle, d)
  {
    if q.End? {
      q1, q2 := End, End;
    } else {
      q1, q2 := SplitAtLastWrite(w, q.rest, oracle);
      if q1.Then? {
        var before, d :| q1 == Append(before, Then(Delete(d), End)) && Writes(w, oracle, d);
        q1 := Then(q.first, q1);
        assert q1 == Append(Then(q.first, before), Then(Delete(d), End));
      } else if q.first.Delete? && Writes(w, oracle, q.first.key) {
        q1 := Then(q.first, End);
        assert q1 == Append(End, Then(Delete(q.first.key), End));
      } else {
        q2 := q;
      }
    }
  }

  lemma {:induction false} AppendTwice(p: Plan, q: Plan, t: Plan)
    ensures Append(Append(p, q), t) == Append(p, Append(q, t))
  {
    if p.Then? {
      AppendTwice(p.rest, q, t);
    }
  }

  /** Every pass splits like that. */
  lemma EveryPassSplits(w: World, p: Plan, paused: bool, oracle: Oracle) returns (q1: Plan, q2: Plan, stop: Option<Action>)
    requires Apart(p)
    ensures SplitsAt(w, p, paused, oracle, q1, q2, stop)
  {
    var q;
    q, stop := EveryPassStops(w, p, paused, oracle);
    q1, q2 := SplitAtLastWrite(w, q, oracle);
    RunAppend(w, q1, q2, paused, oracle);
    var t := q2;
    if stop.Some? {
      var rest :| p == Append(q, Then(stop.value, rest));
      t := Append(q2, Then(stop.value, rest));
      AppendTwice(q1, q2, Then(stop.value, rest));
      RunAppend(w, q1, t, paused, oracle);
    }
    assert p == Append(q1, t);
  }

  lemma StoredOfAct(w: World, a: Action, paused: bool, oracle: Oracle)
    requires Act(w, a, paused, oracle).out == Done && (a.Delete? ==> !Writes(w, oracle, a.key))
    ensures Act(w, a, paused, oracle).w.stored == w.stored
  {
  }

  /** A pass without deletions writes nothing before its end. */
  lemma NoDeletionNoWrite(w: World, p: Plan, paused: bool, oracle: Oracle, q1: Plan, q2: Plan, stop: Option<Action>)
    requires SplitsAt(w, p, paused, oracle, q1, q2, stop) && Doomed(p) == {}
    ensures q1 == End && StopsAt(w, p, paused, oracle, q2, stop)
  {
    var t :| p == Append(q1, t) && StopsAt(RunPlan(w, q1, paused, oracle).w, t, paused, oracle, q2, stop);
    AppendParts(q1, t);
    if q1 != End {
      WriteIsDeletion(w, oracle, q1);
    }
  }

  lemma WriteIsDeletion(w: World, oracle: Oracle, q: Plan)
    requires EndsInWrite(w, oracle, q)
    ensures Doomed(q) != {}
  {
    var before, d :| q == Append(before, Then(Delete(d), End)) && Writes(w, oracle, d);
    AppendParts(before, Then(Delete(d), End));
    assert d in Doomed(Then(Delete(d), End));
  }

  lemma {:induction false} StoredUnwritten(w: World, q: Plan, paused: bool, oracle: Oracle)
    requires Apart(q) && RunPlan(w, q, paused, oracle).out == Done && forall d | d in Doomed(q) :: !Writes(w, oracle, d)
    ensures RunPlan(w, q, paused, oracle).w.stored == w.stored
    decreases q
  {
    if q.Then? {
      var s := Act(w, q.first, paused, oracle);
      NamesOfPlan(q.rest);
      forall d | d in Doomed(q.rest)
        ensures !Writes(s.w, oracle, d)
      {
        assert d in Doomed(q) && d.replica in NamesIn(q.rest);
        ActIsLocal(w, q.first, paused, oracle, d);
        assert SetAt(s.w, d.replica) == SetAt(w, d.replica);
      }
      StoredOfAct(w, q.first, paused, oracle);
      StoredUnwritten(s.w, q.rest, paused, oracle);
    }
  }

  lemma StoredIsCurrent(w: World, q: Plan, paused: bool, oracle: Oracle)
    requires Apart(q) && RunPlan(w, q, paused, oracle).out == Done && EndsInWrite(w, oracle, q)
    ensures RunPlan(w, q, paused, oracle).w.stored == RunPlan(w, q, paused, oracle).w.replicas
  {
    var before, d :| q == Append(before, Then(Delete(d), End)) && Writes(w, oracle, d);
    PartsApart(before, Then(Delete(d), End));
    RunAppend(w, before, Then(Delete(d), End), paused, oracle);
    RunIsLocal(w, before, paused, oracle, d);
    var mid := RunPlan(w, before, paused, oracle).w;
    assert RunPlan(mid, Then(Delete(d), End), paused, oracle) == Act(mid, Delete(d), paused, oracle);
  }

  // ---- what the stored status says ----

  /** The status entry in the API server is honest. */
  ghost predicate StoredHonestAt(w: World, k: Key)
  {
    HonestAt(w.(replicas := w.stored), k)
  }

  /** What was carried out and what the pass was cut short in belong to the plan. */
  lemma StopsInside(w: World, t: Plan, paused: bool, oracle: Oracle, q: Plan, stop: Option<Action>)
    requires Apart(t) && StopsAt(w, t, paused, oracle, q, stop)
    ensures Apart(q)
    ensures forall k | k in Goal(q) || k in Doomed(q) :: k.replica in NamesIn(t)
    ensures stop.Some? ==> stop.value.key.replica in NamesIn(t)
    ensures RunPlan(w, t, paused, oracle).w.stored == RunPlan(w, q, paused, oracle).w.stored
  {
    NamesOfPlan(q);
    if stop.Some? {
      var rest :| t == Append(q, Then(stop.value, rest));
      PartsApart(q, Then(stop.value, rest));
      AppendParts(q, Then(stop.value, rest));
      StoredOfStop(RunPlan(w, q, paused, oracle).w, stop.value, paused, oracle);
    }
  }

  lemma StoredOfStop(w: World, a: Action, paused: bool, oracle: Oracle)
    requires Act(w, a, paused, oracle).out != Done
    ensures Act(w, a, paused, oracle).w.stored == w.stored
  {
  }

  /** What a pass did up to its last write does not matter for what it left unwritten. */
  lemma SurvivesAfterWrite(
    w: World, q1: Plan, t: Plan, paused: bool, oracle: Oracle, q2: Plan, stop: Option<Action>, k: Key)
    requires Apart(Append(q1, t)) && RunPlan(w, q1, paused, oracle).out == Done
    requires StopsAt(RunPlan(w, q1, paused, oracle).w, t, paused, oracle, q2, stop)
    ensures SurvivesDrop(RunPlan(w, q1, paused, oracle).w, paused, oracle, q2, stop, k)
            <==> k in Goal(q1) || k in Doomed(q1) || SurvivesDrop(w, paused, oracle, q2, stop, k)
  {
    PartsApart(q1, t);
    NamesOfPlan(q1);
    StopsInside(RunPlan(w, q1, paused, oracle).w, t, paused, oracle, q2, stop);
    if k !in Goal(q1) && k !in Doomed(q1) && k.replica in NamesIn(t) {
      RunIsLocal(w, q1, paused, oracle, k);
      SurvivesAlike(w, RunPlan(w, q1, paused, oracle).w, paused, oracle, q2, stop, k);
    }
  }

  lemma SurvivesAlike(w: World, v: World, paused: bool, oracle: Oracle, q: Plan, stop: Option<Action>, k: Key)
    requires StatusAt(v, k) == StatusAt(w, k) && SetAt(v, k.replica) == SetAt(w, k.replica)
    ensures SurvivesDrop(v, paused, oracle, q, stop, k) <==> SurvivesDrop(w, paused, oracle, q, stop, k)
  {
  }

  /** The status entry of k in the API server is honest after a pass, whichever way it ended, if and only if k
      was dealt with up to the last write, or its entry from before the pass survives what came after. */
  lemma StoredStatusHonestIff(
    w: World, p: Plan, paused: bool, oracle: Oracle, q1: Plan, q2: Plan, stop: Option<Action>, k: Key)
    requires Apart(p) && SplitsAt(w, p, paused, oracle, q1, q2, stop)
    requires w.stored == w.replicas && HonestAt(w, k)
    ensures StoredHonestAt(RunPlan(w, p, paused, oracle).w, k)
            <==> k in Goal(q1) || k in Doomed(q1) || SurvivesDrop(w, paused, oracle, q2, stop, k)
  {
    var mid := RunPlan(w, q1, paused, oracle).w;
    var t :| p == Append(q1, t) && StopsAt(mid, t, paused, oracle, q2, stop);
    PartsApart(q1, t);
    RunAppend(w, q1, t, paused, oracle);
    RunIsHonest(w, q1, paused, oracle, k);
    SurvivesAfterWrite(w, q1, t, paused, oracle, q2, stop, k);
    DroppedStatusHonestIff(mid, t, paused, oracle, q2, stop, k);
    if q1.Then? {
      StoredIsCurrent(w, q1, paused, oracle);
    }
    StoredAfterWrite(w, q1, t, paused, oracle, q2, stop);
  }

  lemma StoredAfterWrite(w: World, q1: Plan, t: Plan, paused: bool, oracle: Oracle, q2: Plan, stop: Option<Action>)
    requires Apart(Append(q1, t)) && RunPlan(w, q1, paused, oracle).out == Done
    requires StopsAt(RunPlan(w, q1, paused, oracle).w, t, paused, oracle, q2, stop)
    requires forall d | d in Doomed(q2) :: !Writes(w, oracle, d)
    ensures RunPlan(RunPlan(w, q1, paused, oracle).w, t, paused, oracle).w.stored == RunPlan(w, q1, paused, oracle).w.stored
  {
    var mid := RunPlan(w, q1, paused, oracle).w;
    PartsApart(q1, t);
    StopsInside(mid, t, paused, oracle, q2, stop);
    forall d | d in Doomed(q2)
      ensures !Writes(mid, oracle, d)
    {
      RunIsLocal(w, q1, paused, oracle, d);
    }
    StoredUnwritten(mid, q2, paused, oracle);
  }

  /** For every round that got to its plan, paused or not and however it ended: after one that wrote the
      status at its end every entry in the API server is honest; otherwise the last deletion that wrote it,
      what was carried out after that and the action the pass was cut short in decide, replica by replica. */
  lemma StoredRoundHonestIff(s: Installation, r: Round) returns (q1: Plan, q2: Plan, stop: Option<Action>)
    requires IsRound(s, r) && !r.faults.before && s.world.stored == s.world.replicas
    ensures SplitsAt(Start(s, r), r.plan, r.paused, r.oracle, q1, q2, stop)
    ensures forall k | HonestAt(s.world, k) ::
      StoredHonestAt(After(s, r).installation.world, k)
      <==> After(s, r).written || k in Goal(q1) || k in Doomed(q1) || SurvivesDrop(Start(s, r), r.paused, r.oracle, q2, stop, k)
  {
    var w := Start(s, r);
    RoundFacts(s, r);
    q1, q2, stop := EveryPassSplits(w, r.plan, r.paused, r.oracle);
    forall k | HonestAt(s.world, k)
      ensures StoredHonestAt(After(s, r).installation.world, k)
              <==> After(s, r).written || k in Goal(q1) || k in Doomed(q1) || SurvivesDrop(w, r.paused, r.oracle, q2, stop, k)
    {
      StoredStatusHonestIff(w, r.plan, r.paused, r.oracle, q1, q2, stop, k);
      RunIsHonest(w, r.plan, r.paused, r.oracle, k);
    }
  }

  /** A round without deletions that does not get to its end stores nothing. */
  lemma UnwrittenRoundHonestIff(s: Installation, r: Round) returns (q: Plan, stop: Option<Action>)
    requires IsRound(s, r) && !r.faults.before && s.world.stored == s.world.replicas
    requires Doomed(r.plan) == {} && !After(s, r).written
    ensures StopsAt(Start(s, r), r.plan, r.paused, r.oracle, q, stop)
    ensures forall k | HonestAt(s.world, k) ::
      StoredHonestAt(After(s, r).installation.world, k) <==> SurvivesDrop(Start(s, r), r.paused, r.oracle, q, stop, k)
  {
    var q1;
    q1, q, stop := StoredRoundHonestIff(s, r);
    NoDeletionNoWrite(Start(s, r), r.plan, r.paused, r.oracle, q1, q, stop);
  }

  /** For example, a pass that finds a replica without its pod, deletes an extra one and then has to create a
      replica: although it is requeued, what it saw and did before is in the API server. */
  lemma DeletionWritesStatus(w: World, p: Plan, seen: Key, extra: Key, missing: Key, cfg: Config, other: Config, oracle: Oracle)
    requires p == Then(Visit(seen, cfg), Then(Delete(extra), Then(Visit(missing, other), End)))
    requires Faultless(oracle) && !oracle(extra.replica).skip
    requires seen.replica in w.store && w.store[seen.replica].status.readyReplicas != 1
    requires extra.replica in w.store && missing.replica !in w.store && seen.replica != extra.replica
    ensures var r := RunPlan(w, p, false, oracle);
      && r.out == Requeue
      && r.w.stored == w.replicas[seen := ReplicaStatus(Scale, NotSync)] - {extra}
      && forall k | k != missing :: WrittenAt(r.w, k)
  {
    assert NoFaults(oracle(seen.replica)) && NoFaults(oracle(extra.replica)) && NoFaults(oracle(missing.replica));
    var a := Act(w, p.first, false, oracle).w;
    DownIsSeen(w, seen, cfg, oracle);
    var b := Act(a, Delete(extra), false, oracle).w;
    assert b.stored == b.replicas == a.replicas - {extra};
    assert RunPlan(b, p.rest.rest, false, oracle) == Act(b, Visit(missing, other), false, oracle);
  }

  lemma DeletionRound(s: Installation, r: Round, seen: Key, extra: Key, missing: Key, cfg: Config, other: Config)
    requires r.plan == Then(Visit(seen, cfg), Then(Delete(extra), Then(Visit(missing, other), End)))
    requires !r.paused && r.faults == NO_PASS_FAULTS && Faultless(r.oracle) && !r.oracle(extra.replica).skip
    requires seen.replica in r.seen && r.seen[seen.replica].status.readyReplicas != 1
    requires extra.replica in r.seen && missing.replica !in r.seen && seen.replica != extra.replica
    requires HonestAt(s.world, seen) && HonestAt(s.world, extra) && seen != missing && extra != missing
    ensures var p := After(s, r);
      && p.out == Requeue
      && p.installation.world.stored == s.world.replicas[seen := ReplicaStatus(Scale, NotSync)] - {extra}
      && StoredHonestAt(p.installation.world, seen) && StoredHonestAt(p.installation.world, extra)
  {
    var w := Start(s, r);
    DeletionWritesStatus(w, r.plan, seen, extra, missing, cfg, other, r.oracle);
    RoundFacts(s, r);
    RunIsHonest(w, r.plan, false, r.oracle, seen);
    RunIsHonest(w, r.plan, false, r.oracle, extra);
    WrittenIsHonest(RunPlan(w, r.plan, false, r.oracle).w, seen);
    WrittenIsHonest(RunPlan(w, r.plan, false, r.oracle).w, extra);
  }

  lemma DownIsSeen(w: World, k: Key, cfg: Config, oracle: Oracle)
    requires NoFaults(oracle(k.replica)) && k.replica in w.store && w.store[k.replica].status.readyReplicas != 1
    ensures var s := Act(w, Visit(k, cfg), false, oracle);
      && s.out == Done && s.w.replicas == w.replicas[k := ReplicaStatus(Scale, NotSync)]
      && s.w.store.Keys == w.store.Keys
  {
  }

  /** The entry of k in the API server is the current one. */
  predicate WrittenAt(w: World, k: Key)
  {
    (k in w.stored <==> k in w.replicas) && (k in w.stored && k in w.replicas ==> w.stored[k] == w.replicas[k])
  }

  lemma WrittenIsHonest(w: World, k: Key)
    requires HonestAt(w, k) && WrittenAt(w, k)
    ensures StoredHonestAt(w, k)
  {
  }

  /** And that is what the next pass starts from when the status is read back. */
  lemma ReadBackHonestIff(s: Installation, r: Round, t: Installation, k: Key)
    requires s.world.stored == s.world.replicas && ReadBack(s, r, t)
    ensures t.world.stored == t.world.replicas
    ensures HonestAt(t.world, k) <==> StoredHonestAt(After(s, r).installation.world, k)
  {
  }
}
