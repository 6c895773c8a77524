/** Runs as the controller makes them (controllers/daisyinstallation_controller.go): every pass starts from
    the status in the API server. What the reports of a new installation say about tables. */
module ReadBackRuns {
  import opened Names
  import opened Reconcile
  import opened Passes
  import opened Runs
  import opened StoredStatus

  /** An installation that is reconciled from the start, with a fixed spec and no API errors, until its
      StatefulSets exist and for as long after that as one likes. */
  ghost predicate IsNewRun(states: seq<Installation>, rounds: seq<Round>, spec: Spec)
  {
    && |states| == |rounds| + 1
    && IsNew(states[0])
    && forall i: nat | i < |rounds| :: StepAt(states, rounds, spec, i)
  }

  ghost predicate StepAt(states: seq<Installation>, rounds: seq<Round>, spec: Spec, i: nat)
    requires |states| == |rounds| + 1 && i < |rounds|
  {
    Calm(rounds[i], spec) && IsStep(states[i], rounds[i], states[i + 1])
  }

  predicate IsNew(s: Installation)
  {
    s.world.replicas == map[] && s.world.stored == map[] && s.world.log == [] && s.prevSpec == map[]
  }

  ghost predicate IsStep(s: Installation, r: Round, t: Installation)
  {
    IsRound(s, r) && ReadBack(s, r, t)
  }

  function MissingAtFirst(states: seq<Installation>, spec: Spec): nat
    requires states != []
  {
    |Missing(states[0].world.store, Flatten(spec))|
  }

  lemma NewRunIsRun(states: seq<Installation>, rounds: seq<Round>, spec: Spec)
    requires IsNewRun(states, rounds, spec)
    ensures IsRun(states, rounds) && forall i | 0 <= i < |rounds| :: Calm(rounds[i], spec)
  {
    forall i | 0 <= i < |rounds|
      ensures IsRound(states[i], rounds[i]) && Follows(states[i], rounds[i], states[i + 1]) && Calm(rounds[i], spec)
    {
      assert StepAt(states, rounds, spec, i);
    }
  }

  /** How round i of a new run ends. */
  lemma StepEnds(states: seq<Installation>, rounds: seq<Round>, spec: Spec, i: nat)
    requires IsNewRun(states, rounds, spec) && i < |rounds|
    ensures IsStep(states[i], rounds[i], states[i + 1]) && Calm(rounds[i], spec)
    ensures After(states[i], rounds[i]).out == if i < MissingAtFirst(states, spec) then Requeue else Done
    ensures After(states[i], rounds[i]).written <==> i >= MissingAtFirst(states, spec)
  {
    NewRunIsRun(states, rounds, spec);
    RequeuesOncePerMissing(states, rounds, spec, i);
    assert StepAt(states, rounds, spec, i);
    RoundFacts(states[i], rounds[i]);
  }

  // ---- up to the first finished pass nothing is stored ----

  lemma NothingToDelete(p: Plan, spec: Spec, prev: Spec)
    requires IsPlan(p, spec, prev) && (prev == map[] || prev == spec)
    ensures Doomed(p) == {}
  {
  }

  lemma StoredWithoutDeletions(w: World, p: Plan, oracle: Oracle)
    requires Apart(p) && Doomed(p) == {}
    ensures RunPlan(w, p, false, oracle).w.stored == w.stored
  {
    var q1, q2, stop := EveryPassSplits(w, p, false, oracle);
    NoDeletionNoWrite(w, p, false, oracle, q1, q2, stop);
    StopsInside(w, p, false, oracle, q2, stop);
    StoredUnwritten(w, q2, false, oracle);
  }

  /** A requeued round of a new installation leaves its status as new as it was. */
  lemma RequeuedRoundStoresNothing(s: Installation, r: Round, spec: Spec, t: Installation)
    requires IsStep(s, r, t) && Calm(r, spec) && After(s, r).out == Requeue
    requires s.world.replicas == map[] && s.world.stored == map[] && s.prevSpec == map[]
    ensures t.world.replicas == map[] && t.world.stored == map[] && t.prevSpec == map[]
  {
    RoundFacts(s, r);
    NothingToDelete(r.plan, spec, s.prevSpec);
    StoredWithoutDeletions(Start(s, r), r.plan, r.oracle);
  }

  lemma {:induction false} NothingStoredYet(states: seq<Installation>, rounds: seq<Round>, spec: Spec, i: nat)
    requires IsNewRun(states, rounds, spec) && i < |states| && i <= MissingAtFirst(states, spec)
    ensures states[i].world.replicas == map[] && states[i].world.stored == map[] && states[i].prevSpec == map[]
  {
    if i > 0 {
      var j := i - 1;
      NothingStoredYet(states, rounds, spec, j);
      StepEnds(states, rounds, spec, j);
      RequeuedRoundStoresNothing(states[j], rounds[j], spec, states[j + 1]);
    }
  }

  // ---- from then on every pass writes what it sees ----

  /** How a round finds a replica: out of service, in service, or in service at its generation. */
  datatype View = Down | Up | UpToDate

  function ViewOf(r: Round, k: Key): View
  {
    if k !in Flatten(r.spec) || !InService(r.seen, k, Flatten(r.spec)[k]) then View.Down
    else if HasReachedGeneration(r.seen[k.replica]) then UpToDate
    else Up
  }

  function Views(rounds: seq<Round>, k: Key): (views: seq<View>)
    ensures |views| == |rounds|
  {
    seq(|rounds|, i requires 0 <= i < |rounds| => ViewOf(rounds[i], k))
  }

  /** The state of a replica after a finished round. */
  function Next(was: SyncState, view: View): SyncState
  {
    if view.Down? then NotSync else if view.UpToDate? && was == NotSync then Sync else was
  }

  lemma FinishedRound(states: seq<Installation>, rounds: seq<Round>, spec: Spec, i: nat, k: Key)
    requires IsNewRun(states, rounds, spec) && MissingAtFirst(states, spec) <= i < |rounds| && k in Flatten(spec)
    ensures After(states[i], rounds[i]).out == Done && states[i + 1] == After(states[i], rounds[i]).installation
    ensures StatusAt(states[i + 1].world, k).state == Next(StatusAt(states[i].world, k).state, Views(rounds, k)[i])
  {
    var s, r := states[i], rounds[i];
    StepEnds(states, rounds, spec, i);
    RoundFacts(s, r);
    FinishedPassAt(Start(s, r), r.plan, r.oracle, k);
  }

  predicate UpFrom(views: seq<View>, m: nat, i: nat)
    requires i < |views|
  {
    forall x | m <= x <= i :: !views[x].Down?
  }

  /** Round j saw the replica out of service, all rounds since then in service, and round l at its
      generation. */
  predicate SyncedBy(views: seq<View>, i: nat, j: nat, l: nat)
    requires i < |views|
  {
    j < l <= i && views[j].Down? && views[l].UpToDate? && UpFrom(views, j + 1, i)
  }

  ghost predicate Synced(views: seq<View>, m: nat, i: nat)
    requires i < |views|
  {
    exists j: nat, l: nat :: m <= j && SyncedBy(views, i, j, l)
  }

  lemma SyncedStep(views: seq<View>, m: nat, h: nat, i: nat)
    requires m <= h < i == h + 1 < |views|
    ensures UpFrom(views, m, i) <==> UpFrom(views, m, h) && !views[i].Down?
    ensures Synced(views, m, i) <==> !views[i].Down? && (Synced(views, m, h) || (views[i].UpToDate? && !UpFrom(views, m, h)))
  {
    if j: nat, l: nat :| m <= j && SyncedBy(views, i, j, l) {
      assert l < i ==> SyncedBy(views, h, j, l);
    }
    if !views[i].Down? {
      if j: nat, l: nat :| m <= j && SyncedBy(views, h, j, l) {
        assert SyncedBy(views, i, j, l);
      }
      if views[i].UpToDate? && !UpFrom(views, m, h) {
        var j := LastDown(views, m, h);
        assert SyncedBy(views, i, j, i);
      }
    }
  }

  lemma {:induction false} LastDown(views: seq<View>, m: nat, i: nat) returns (j: nat)
    requires m <= i < |views| && !UpFrom(views, m, i)
    ensures m <= j <= i && views[j].Down? && UpFrom(views, j + 1, i)
    decreases i
  {
    if views[i].Down? {
      j := i;
    } else {
      j := LastDown(views, m, i - 1);
    }
  }

  /** What a state says about rounds m to i: nothing if all of them saw the replica in service, Sync if it was
      in service at its generation since it was last seen out of service, and NotSync otherwise. */
  ghost predicate Tells(state: SyncState, views: seq<View>, m: nat, i: nat)
    requires i < |views|
  {
    (state == Unset <==> UpFrom(views, m, i)) && (state == Sync <==> Synced(views, m, i))
  }

  lemma NotSyncedAtOnce(views: seq<View>, m: nat)
    requires m < |views|
    ensures !Synced(views, m, m)
  {
  }

  lemma TellsAtFirst(views: seq<View>, m: nat)
    requires m < |views|
    ensures Tells(Next(Unset, views[m]), views, m, m)
  {
    NotSyncedAtOnce(views, m);
  }

  lemma TellsNext(state: SyncState, views: seq<View>, m: nat, h: nat, i: nat)
    requires m <= h < i == h + 1 < |views| && Tells(state, views, m, h)
    ensures Tells(Next(state, views[i]), views, m, i)
  {
    SyncedStep(views, m, h, i);
    if UpFrom(views, m, h) {
      assert !Synced(views, m, h);
    }
  }

  predicate Moves(was: seq<SyncState>, views: seq<View>, j: nat)
  {
    j < |views| && j + 1 < |was| && was[j + 1] == Next(was[j], views[j])
  }

  lemma {:induction false} TellsAlong(was: seq<SyncState>, views: seq<View>, m: nat, i: nat)
    requires m <= i < |views| && |was| == |views| + 1 && was[m] == Unset
    requires forall j | m <= j <= i :: Moves(was, views, j)
    ensures Tells(was[i + 1], views, m, i)
  {
    if i == m {
      assert Moves(was, views, m);
      TellsAtFirst(views, m);
    } else {
      assert Moves(was, views, i);
      TellsAlong(was, views, m, i - 1);
      TellsNext(was[i], views, m, i - 1, i);
    }
  }

  function StatesOf(states: seq<Installation>, k: Key): (r: seq<SyncState>)
    ensures |r| == |states|
  {
    seq(|states|, i requires 0 <= i < |states| => StatusAt(states[i].world, k).state)
  }

  lemma StateStarts(states: seq<Installation>, rounds: seq<Round>, spec: Spec, k: Key)
    requires IsNewRun(states, rounds, spec) && MissingAtFirst(states, spec) < |rounds|
    ensures StatesOf(states, k)[MissingAtFirst(states, spec)] == Unset
  {
    NothingStoredYet(states, rounds, spec, MissingAtFirst(states, spec));
  }

  lemma StateMoves(states: seq<Installation>, rounds: seq<Round>, spec: Spec, j: nat, k: Key)
    requires IsNewRun(states, rounds, spec) && MissingAtFirst(states, spec) <= j < |rounds| && k in Flatten(spec)
    ensures Moves(StatesOf(states, k), Views(rounds, k), j)
  {
    FinishedRound(states, rounds, spec, j, k);
  }

  /** That is what the stored state of a replica tells, from the first finished pass on. */
  lemma StateTells(states: seq<Installation>, rounds: seq<Round>, spec: Spec, i: nat, k: Key)
    requires IsNewRun(states, rounds, spec) && MissingAtFirst(states, spec) <= i < |rounds| && k in Flatten(spec)
    ensures Tells(StatesOf(states, k)[i + 1], Views(rounds, k), MissingAtFirst(states, spec), i)
  {
    var m := MissingAtFirst(states, spec);
    StateStarts(states, rounds, spec, k);
    forall j | m <= j <= i {
      StateMoves(states, rounds, spec, j, k);
    }
    TellsAlong(StatesOf(states, k), Views(rounds, k), m, i);
  }

  // ---- the status is honest all along, so this is about tables ----

  lemma StepIsHonest(s: Installation, r: Round, spec: Spec, t: Installation, k: Key)
    requires IsStep(s, r, t) && Calm(r, spec) && s.world.stored == s.world.replicas && HonestAt(s.world, k)
    requires After(s, r).written || StatusAt(s.world, k).state == Unset
    ensures t.world.stored == t.world.replicas && HonestAt(t.world, k)
  {
    var q1, q2, stop := StoredRoundHonestIff(s, r);
    ReadBackHonestIff(s, r, t, k);
    assert StatusAt(Start(s, r), k) == StatusAt(s.world, k);
  }

  lemma {:induction false} NewRunIsHonest(states: seq<Installation>, rounds: seq<Round>, spec: Spec, i: nat, k: Key)
    requires IsNewRun(states, rounds, spec) && i < |states|
    ensures states[i].world.stored == states[i].world.replicas && HonestAt(states[i].world, k)
  {
    if i > 0 {
      var j := i - 1;
      NewRunIsHonest(states, rounds, spec, j, k);
      StepEnds(states, rounds, spec, j);
      if j < MissingAtFirst(states, spec) {
        NothingStoredYet(states, rounds, spec, j);
      }
      StepIsHonest(states[j], rounds[j], spec, states[j + 1], k);
    }
  }

  /** The tables of a replica of a new installation were created since it was last down if and only if, since
      the first finished pass, it was seen out of service and then, without being seen so again, in service at
      its generation. */
  lemma TablesCreatedIff(states: seq<Installation>, rounds: seq<Round>, spec: Spec, i: nat, k: Key)
    requires IsNewRun(states, rounds, spec) && MissingAtFirst(states, spec) <= i < |rounds| && k in Flatten(spec)
    ensures TablesSinceDown(states[i + 1].world.log, k) <==> Synced(Views(rounds, k), MissingAtFirst(states, spec), i)
  {
    StateTells(states, rounds, spec, i, k);
    NewRunIsHonest(states, rounds, spec, i + 1, k);
  }

  ghost predicate AllUp(r: Round, spec: Spec)
  {
    forall k | k in Flatten(spec) :: !ViewOf(r, k).Down?
  }

  /** But it is reported as completed as soon as a finished pass sees all replicas in service. */
  lemma CompletedIff(states: seq<Installation>, rounds: seq<Round>, spec: Spec, i: nat)
    requires IsNewRun(states, rounds, spec) && MissingAtFirst(states, spec) <= i < |rounds|
    ensures states[i + 1].state == Completed <==> AllUp(rounds[i], spec)
  {
    StepEnds(states, rounds, spec, i);
    FinishedPassReports(states[i], rounds[i]);
  }

  /** So if the first pass that finishes finds all replicas in service, the installation is reported
      Completed and no table was created for any of them. */
  lemma CompletedWithoutAnyTables(states: seq<Installation>, rounds: seq<Round>, spec: Spec, k: Key)
    requires IsNewRun(states, rounds, spec) && MissingAtFirst(states, spec) < |rounds| && k in Flatten(spec)
    requires AllUp(rounds[MissingAtFirst(states, spec)], spec)
    ensures var t := states[MissingAtFirst(states, spec) + 1];
      t.state == Completed && !TablesSinceDown(t.world.log, k)
  {
    var m := MissingAtFirst(states, spec);
    CompletedIff(states, rounds, spec, m);
    TablesCreatedIff(states, rounds, spec, m, k);
    NotSyncedAtOnce(Views(rounds, k), m);
  }
}
