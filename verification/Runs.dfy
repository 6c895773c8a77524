/** Whole runs of the reconcile loop: pass after pass, while the cluster changes the StatefulSets in between.
    The status object is either carried from pass to pass or, as the controller does, read back from the API
    server. */
module Runs {
  import opened Commons
  import opened Names
  import opened Reconcile
  import opened Passes
  import opened Tours

  /** One pass of a run: the spec it is given and the StatefulSets it finds. */
  datatype Round = Round(
    spec: Spec, plan: Plan, paused: bool, oracle: Oracle, faults: PassFaults, seen: map<Name, StatefulSet>)

  function Before(s: Installation, r: Round): Installation
  {
    s.(world := s.world.(store := r.seen))
  }

  function After(s: Installation, r: Round): Pass
  {
    SyncPass(Before(s, r), r.spec, r.plan, r.paused, r.oracle, r.faults)
  }

  /** Between passes the cluster may change anything about the StatefulSets except which ones exist. */
  ghost predicate IsRound(s: Installation, r: Round)
  {
    && r.seen.Keys == s.world.store.Keys
    && IsPlan(r.plan, r.spec, s.prevSpec)
  }

  /** t is read back after a round: what the round has not written is as it was before it, except for the
      counters and the state, which every pass begins by resetting. */
  ghost predicate ReadBack(s: Installation, r: Round, t: Installation)
  {
    var p := After(s, r);
    if p.written then t == p.installation
    else
      && t.world == p.installation.world.(replicas := p.installation.world.stored)
      && t.prevSpec == s.prevSpec
  }

  ghost predicate Follows(s: Installation, r: Round, t: Installation)
  {
    t == After(s, r).installation || ReadBack(s, r, t)
  }

  /** states[i] is the installation before round i. */
  ghost predicate IsRun(states: seq<Installation>, rounds: seq<Round>)
  {
    && |states| == |rounds| + 1
    && forall i | 0 <= i < |rounds| :: IsRound(states[i], rounds[i]) && Follows(states[i], rounds[i], states[i + 1])
  }

  /** A run in which the status object is carried from pass to pass. */
  ghost predicate IsCarried(states: seq<Installation>, rounds: seq<Round>)
  {
    && |states| == |rounds| + 1
    && forall i | 0 <= i < |rounds| ::
        IsRound(states[i], rounds[i]) && states[i + 1] == After(states[i], rounds[i]).installation
  }

  lemma FollowsFacts(s: Installation, r: Round, t: Installation)
    requires Follows(s, r, t)
    ensures t.world.store == After(s, r).installation.world.store
    ensures t.prevSpec == s.prevSpec || t.prevSpec == r.spec
    ensures After(s, r).written ==> t == After(s, r).installation
  {
  }

  // ---- what the operator does is such a run ----

  /** The passes Sync makes over generated names, each in an iteration order of its own. */
  ghost predicate IsSyncRun(installation: string, states: seq<Installation>, rounds: seq<Round>, tours: seq<Tour>)
  {
    && |states| == |rounds| + 1 && |tours| == |rounds|
    && forall i {:trigger rounds[i]} | 0 <= i < |rounds| :: IsSync(installation, states[i], rounds[i], tours[i], states[i + 1])
  }

  ghost predicate IsSync(installation: string, s: Installation, r: Round, tour: Tour, t: Installation)
  {
    && r.seen.Keys == s.world.store.Keys && AllGenerated(installation, r.spec)
    && IsTour(tour, r.spec, s.prevSpec) && r.plan == TourPlan(tour, 0, r.spec, s.prevSpec)
    && Follows(s, r, t)
  }

  lemma SyncRemembers(installation: string, s: Installation, r: Round, tour: Tour, t: Installation)
    requires IsSync(installation, s, r, tour, t) && AllGenerated(installation, s.prevSpec)
    ensures AllGenerated(installation, t.prevSpec)
  {
    FollowsFacts(s, r, t);
  }

  predicate Keeps<T>(good: T -> bool, a: T, b: T)
  {
    good(a) ==> good(b)
  }

  lemma {:induction false} AlwaysGood<T>(xs: seq<T>, good: T -> bool, i: nat)
    requires i < |xs| && good(xs[0])
    requires forall j {:trigger xs[j]} | 0 <= j < |xs| - 1 :: Keeps(good, xs[j], xs[j + 1])
    ensures good(xs[i])
  {
    if i > 0 {
      AlwaysGood(xs, good, i - 1);
      assert Keeps(good, xs[i - 1], xs[i - 1 + 1]);
    }
  }

  lemma RemembersGenerated(
    installation: string, states: seq<Installation>, rounds: seq<Round>, tours: seq<Tour>, i: nat)
    requires IsSyncRun(installation, states, rounds, tours) && i < |states|
    requires AllGenerated(installation, states[0].prevSpec)
    ensures AllGenerated(installation, states[i].prevSpec)
  {
    var good := (s: Installation) => AllGenerated(installation, s.prevSpec);
    forall j | 0 <= j < |states| - 1
      ensures Keeps(good, states[j], states[j + 1])
    {
      if good(states[j]) {
        assert IsSync(installation, states[j], rounds[j], tours[j], states[j + 1]);
        SyncRemembers(installation, states[j], rounds[j], tours[j], states[j + 1]);
      }
    }
    AlwaysGood(states, good, i);
  }

  /** So everything proved about runs holds of the operator, whatever the iteration orders: names stay
      unique because the remembered spec is always one that was generated for the same installation. */
  lemma SyncRunIsRun(installation: string, states: seq<Installation>, rounds: seq<Round>, tours: seq<Tour>)
    requires IsSyncRun(installation, states, rounds, tours)
    requires AllGenerated(installation, states[0].prevSpec)
    ensures IsRun(states, rounds)
    ensures forall i | 0 <= i < |rounds| :: UniqueNames(rounds[i].spec, states[i].prevSpec)
  {
    forall i | 0 <= i < |rounds|
      ensures IsRound(states[i], rounds[i]) && Follows(states[i], rounds[i], states[i + 1])
      ensures UniqueNames(rounds[i].spec, states[i].prevSpec)
    {
      assert IsSync(installation, states[i], rounds[i], tours[i], states[i + 1]);
      RemembersGenerated(installation, states, rounds, tours, i);
      GeneratedUnique(installation, rounds[i].spec, states[i].prevSpec);
      TourIsPlan(tours[i], rounds[i].spec, states[i].prevSpec);
    }
  }

  /** The world in which the plan of a round starts. */
  function Start(s: Installation, r: Round): World
  {
    s.world.(store := r.seen, ready := 0)
  }

  /** How the world and the remembered spec come out of a round. */
  lemma RoundFacts(s: Installation, r: Round)
    ensures var t, run := After(s, r), RunPlan(Start(s, r), r.plan, r.paused, r.oracle);
      && t.installation.world == (if r.faults.before then Start(s, r) else if t.written then Write(run.w) else run.w)
      && (t.installation.prevSpec == s.prevSpec || t.installation.prevSpec == r.spec)
      && (t.out == Done ==> !r.faults.before && run.out == Done && t.installation.prevSpec == r.spec)
      && (r.faults == NO_PASS_FAULTS ==> t.out == run.out && (t.written <==> t.out == Done))
  {
  }

  // ---- convergence of the requeue loop ----

  ghost predicate Calm(r: Round, spec: Spec)
  {
    r.spec == spec && !r.paused && Faultless(r.oracle) && r.faults == NO_PASS_FAULTS
  }

  lemma MissingSeen(s: Installation, r: Round)
    requires IsRound(s, r)
    ensures Missing(r.seen, Flatten(r.spec)) == Missing(s.world.store, Flatten(r.spec))
  {
  }

  lemma CalmRound(s: Installation, r: Round, spec: Spec)
    requires IsRound(s, r) && Calm(r, spec)
    ensures var before, after := |Missing(s.world.store, Flatten(spec))|, |Missing(After(s, r).installation.world.store, Flatten(spec))|;
      && After(s, r).out == (if before == 0 then Done else Requeue)
      && after == if before == 0 then 0 else before - 1
  {
    RoundFacts(s, r);
    MissingSeen(s, r);
    MissingShrinks(Start(s, r), r.plan, r.oracle);
  }

  /** With a fixed unpaused spec and no API errors, the loop is requeued exactly once for each missing
      StatefulSet, whatever the iteration order and whatever the cluster reports, and then
      finishes with all of them present. */
  lemma {:induction false} RequeuesOncePerMissing(states: seq<Installation>, rounds: seq<Round>, spec: Spec, i: nat)
    requires IsRun(states, rounds) && forall j | 0 <= j < |rounds| :: Calm(rounds[j], spec)
    requires i < |states|
    ensures var missing := |Missing(states[0].world.store, Flatten(spec))|;
      && |Missing(states[i].world.store, Flatten(spec))| == (if i < missing then missing - i else 0)
      && (i < |rounds| ==> After(states[i], rounds[i]).out == if i < missing then Requeue else Done)
  {
    if i > 0 {
      RequeuesOncePerMissing(states, rounds, spec, i - 1);
      CalmRound(states[i - 1], rounds[i - 1], spec);
      FollowsFacts(states[i - 1], rounds[i - 1], states[i]);
    }
    if i < |rounds| {
      CalmRound(states[i], rounds[i], spec);
    }
  }

  // ---- the report of a finished pass ----

  lemma AllReadyIff(seen: map<Name, StatefulSet>, goal: map<Key, Config>)
    ensures |ReadyKeys(seen, goal)| <= |goal|
    ensures |ReadyKeys(seen, goal)| == |goal| <==> forall k | k in goal :: InService(seen, k, goal[k])
  {
    SubsetSize(ReadyKeys(seen, goal), goal.Keys);
    assert |goal| == |goal.Keys|;
    assert forall k | k in goal :: k in ReadyKeys(seen, goal) <==> InService(seen, k, goal[k]);
    if forall k | k in goal :: InService(seen, k, goal[k]) {
      assert ReadyKeys(seen, goal) == goal.Keys;
    }
  }

  /** After a finished unpaused pass ReadyReplicas is the number of wanted replicas found in service, at
      most ReplicasCount, and the state is Completed exactly when all of them are. */
  lemma FinishedPassReports(s: Installation, r: Round)
    requires IsRound(s, r) && !r.paused && After(s, r).out == Done
    ensures var t := After(s, r).installation;
      && t.world.ready == |ReadyKeys(r.seen, Flatten(r.spec))| <= t.replicasCount == |Flatten(r.spec)|
      && (t.state == Completed <==> forall k | k in Flatten(r.spec) :: InService(r.seen, k, Flatten(r.spec)[k]))
  {
    RoundFacts(s, r);
    FinishedPassCounts(Start(s, r), r.plan, r.oracle);
    AllReadyIff(r.seen, Flatten(r.spec));
  }

  /** Once every missing StatefulSet was created, a pass that finds all of them in service completes. */
  lemma ConvergesToCompleted(states: seq<Installation>, rounds: seq<Round>, spec: Spec, i: nat)
    requires IsRun(states, rounds) && forall j | 0 <= j < |rounds| :: Calm(rounds[j], spec)
    requires |Missing(states[0].world.store, Flatten(spec))| <= i < |rounds|
    requires forall k | k in Flatten(spec) :: InService(rounds[i].seen, k, Flatten(spec)[k])
    ensures After(states[i], rounds[i]).out == Done && states[i + 1].state == Completed
  {
    RequeuesOncePerMissing(states, rounds, spec, i);
    FinishedPassReports(states[i], rounds[i]);
    RoundFacts(states[i], rounds[i]);
    FollowsFacts(states[i], rounds[i], states[i + 1]);
  }

  // ---- safety of deletions ----

  /** n was deleted by a round only as an extra replica of a shard whose wanted replicas all had their
      StatefulSets before the round, and still have them after it. */
  ghost predicate DeletedSafely(s: Installation, r: Round, n: Name)
  {
    exists k :: DeletedFrom(s, r, n, k)
  }

  ghost predicate DeletedFrom(s: Installation, r: Round, n: Name, k: Key)
  {
    && IsExtra(r.spec, s.prevSpec, k) && k.replica == n
    && (forall l | l in Flatten(r.spec) :: l.replica != n)
    && (forall l | l in Flatten(r.spec) && l.at == k.at ::
          l.replica in s.world.store && l.replica in After(s, r).installation.world.store)
  }

  lemma WantedStays(s: Installation, r: Round, l: Key)
    requires IsRound(s, r) && l in Flatten(r.spec) && l.replica in s.world.store
    ensures l.replica in After(s, r).installation.world.store
  {
    RoundFacts(s, r);
    forall d | d in Doomed(r.plan)
      ensures d.replica != l.replica
    {
      if d.replica == l.replica {
        GoalNamesApart(r.plan, l, d);
      }
    }
    NotDoomedStays(Start(s, r), r.plan, r.paused, r.oracle, l.replica);
  }

  lemma RoundDeletesSafely(s: Installation, r: Round, n: Name)
    requires IsRound(s, r) && !r.paused
    requires n in s.world.store && n !in After(s, r).installation.world.store
    ensures DeletedSafely(s, r, n)
  {
    var w := Start(s, r);
    RoundFacts(s, r);
    var k := DeletedOnlyWhenShardComplete(w, r.plan, r.oracle, n);
    forall l | l in Flatten(r.spec)
      ensures l.replica != n
    {
      if l.replica == n {
        GoalNamesApart(r.plan, l, k);
      }
    }
    forall l | l in Flatten(r.spec) && l.at == k.at
      ensures l.replica in After(s, r).installation.world.store
    {
      WantedStays(s, r, l);
    }
    assert DeletedFrom(s, r, n, k);
  }

  /** Scale out before scale in, at every unpaused pass of every run: whatever fails, and however the
      spec changes from pass to pass. */
  lemma ScaleOutBeforeScaleIn(states: seq<Installation>, rounds: seq<Round>, i: nat, n: Name)
    requires IsRun(states, rounds) && i < |rounds| && !rounds[i].paused
    requires n in states[i].world.store && n !in states[i + 1].world.store
    ensures DeletedSafely(states[i], rounds[i], n)
  {
    FollowsFacts(states[i], rounds[i], states[i + 1]);
    RoundDeletesSafely(states[i], rounds[i], n);
  }

  // ---- what a finished pass leaves behind ----

  /** Of the remembered replicas that are no longer wanted, a finished pass leaves exactly those that
      existed in a shard that is gone from the spec or has as many replicas as before, or more. */
  lemma FinishedPassLeaves(s: Installation, r: Round, k: Key)
    requires IsRound(s, r) && UniqueNames(r.spec, s.prevSpec) && !r.paused && After(s, r).out == Done
    requires k in Flatten(s.prevSpec) && k !in Flatten(r.spec)
    ensures k.replica in After(s, r).installation.world.store
            <==> k.replica in s.world.store && (k.at !in r.spec || |s.prevSpec[k.at]| <= |r.spec[k.at]|)
  {
    var w := Start(s, r);
    RoundFacts(s, r);
    FinishedPassAt(w, r.plan, r.oracle, k);
    if k !in Doomed(r.plan) {
      forall d | d in Doomed(r.plan)
        ensures d.replica != k.replica
      {
        assert InEither(r.spec, s.prevSpec, d) && InEither(r.spec, s.prevSpec, k);
      }
      if k.replica in w.store {
        NotDoomedStays(w, r.plan, false, r.oracle, k.replica);
      }
      if k.replica in RunPlan(w, r.plan, false, r.oracle).w.store {
        OnlyGoalAppears(w, r.plan, false, r.oracle, k.replica);
        if l :| l in Goal(r.plan) && l.replica == k.replica {
          assert InEither(r.spec, s.prevSpec, l) && InEither(r.spec, s.prevSpec, k);
          assert false;
        }
      }
    }
  }

  ghost predicate Unwanted(spec: Spec, n: Name)
  {
    forall k | k in Flatten(spec) :: k.replica != n
  }

  /** And what is left behind then stays for good: a name that neither the remembered nor any later spec
      contains is never deleted. */
  lemma {:induction false} LeftoversStay(states: seq<Installation>, rounds: seq<Round>, n: Name, i: nat)
    requires IsRun(states, rounds) && n in states[0].world.store && i < |states|
    requires Unwanted(states[0].prevSpec, n) && forall j | 0 <= j < |rounds| :: Unwanted(rounds[j].spec, n)
    ensures n in states[i].world.store && Unwanted(states[i].prevSpec, n)
  {
    if i > 0 {
      LeftoversStay(states, rounds, n, i - 1);
      var s, r := states[i - 1], rounds[i - 1];
      RoundFacts(s, r);
      FollowsFacts(s, r, states[i]);
      NotDoomedStays(Start(s, r), r.plan, r.paused, r.oracle, n);
    }
  }

  // ---- the table history ----

  lemma RoundIsHonest(s: Installation, r: Round, k: Key)
    requires HonestAt(s.world, k)
    ensures HonestAt(After(s, r).installation.world, k)
  {
    RoundFacts(s, r);
    RunIsHonest(Start(s, r), r.plan, r.paused, r.oracle, k);
  }

  /** Over every run, as long as the status is carried from pass to pass, it says Sync exactly of the
      replicas whose tables were created since a pass last saw them down. */
  lemma {:induction false} StatusStaysHonest(states: seq<Installation>, rounds: seq<Round>, k: Key, i: nat)
    requires IsCarried(states, rounds) && HonestAt(states[0].world, k) && i < |states|
    ensures HonestAt(states[i].world, k)
  {
    if i > 0 {
      StatusStaysHonest(states, rounds, k, i - 1);
      RoundIsHonest(states[i - 1], rounds[i - 1], k);
      assert states[i] == After(states[i - 1], rounds[i - 1]).installation;
    }
  }

  /** A replica in NotSync that is in service at its generation is in state Sync after one finished pass and
      in phase Normal after two. */
  lemma SyncInOnePassNormalInTwo(s: Installation, r: Round, q: Round, k: Key)
    requires IsRound(s, r) && !r.paused && After(s, r).out == Done
    requires IsRound(After(s, r).installation, q) && !q.paused && After(After(s, r).installation, q).out == Done
    requires k in Flatten(r.spec) && k in Flatten(q.spec)
    requires InService(r.seen, k, Flatten(r.spec)[k]) && HasReachedGeneration(r.seen[k.replica])
    requires InService(q.seen, k, Flatten(q.spec)[k])
    requires StatusAt(s.world, k).state == NotSync
    ensures StatusAt(After(s, r).installation.world, k) == ReplicaStatus(Ready, Sync)
    ensures StatusAt(After(After(s, r).installation, q).installation.world, k) == ReplicaStatus(Normal, Sync)
  {
    var t := After(s, r).installation;
    RoundFacts(s, r);
    RoundFacts(t, q);
    FinishedPassAt(Start(s, r), r.plan, r.oracle, k);
    FinishedPassAt(Start(t, q), q.plan, q.oracle, k);
  }

  /** But phase Normal does not imply Sync: a replica first seen already in service, or in service short
      of its generation, is counted ready without its tables ever being created. */
  lemma NormalWithoutTables(s: Installation, r: Round, k: Key)
    requires IsRound(s, r) && !r.paused && After(s, r).out == Done
    requires k in Flatten(r.spec) && InService(r.seen, k, Flatten(r.spec)[k])
    requires StatusAt(s.world, k).state != Sync
    ensures StatusAt(After(s, r).installation.world, k).phase == Normal
            <==> StatusAt(s.world, k).state == Unset || !HasReachedGeneration(r.seen[k.replica])
    ensures StatusAt(After(s, r).installation.world, k).state != Sync
            <==> StatusAt(s.world, k).state == Unset || !HasReachedGeneration(r.seen[k.replica])
  {
    RoundFacts(s, r);
    FinishedPassAt(Start(s, r), r.plan, r.oracle, k);
  }
}
