/** Paused passes create nothing but still delete: when that is safe. */
module PausedRuns {
  import opened Names
  import opened Reconcile
  import opened Passes
  import opened Runs

  lemma {:induction false} PausedNeverCreates(w: World, p: Plan, oracle: Oracle, n: Name)
    requires n in RunPlan(w, p, true, oracle).w.store
    ensures n in w.store
    decreases p
  {
    if p.Then? {
      var s := Act(w, p.first, true, oracle);
      if s.out == Done {
        PausedNeverCreates(s.w, p.rest, oracle, n);
      }
    }
  }

  /** Without API errors a paused pass always finishes. */
  lemma {:induction false} PausedPassFinishes(w: World, p: Plan, oracle: Oracle)
    requires Faultless(oracle)
    ensures RunPlan(w, p, true, oracle).out == Done
    decreases p
  {
    if p.Then? {
      assert NoFaults(oracle(p.first.key.replica));
      PausedPassFinishes(Act(w, p.first, true, oracle).w, p.rest, oracle);
    }
  }

  lemma {:induction false} PausedPassDeletes(w: World, p: Plan, oracle: Oracle, k: Key)
    requires Apart(p) && RunPlan(w, p, true, oracle).out == Done && k in Doomed(p)
    ensures k.replica !in RunPlan(w, p, true, oracle).w.store
    decreases p
  {
    var s := Act(w, p.first, true, oracle);
    if p.first == Delete(k) {
      RunIsLocal(s.w, p.rest, true, oracle, k);
    } else {
      PausedPassDeletes(s.w, p.rest, oracle, k);
    }
  }

  lemma {:induction false} DoomedNamesApart(p: Plan, k: Key, l: Key)
    requires Apart(p) && k in Doomed(p) && l in Doomed(p) && k.replica == l.replica
    ensures k == l
  {
    NamesOfPlan(p.rest);
    if k in Doomed(p.rest) && l in Doomed(p.rest) {
      DoomedNamesApart(p.rest, k, l);
    }
  }

  /** Every wanted replica of the shard of k has its StatefulSet. */
  ghost predicate ShardComplete(s: Installation, r: Round, k: Key)
  {
    forall l | l in Flatten(r.spec) && l.at == k.at :: l.replica in s.world.store
  }

  lemma DeletedIsExtra(s: Installation, r: Round, n: Name) returns (k: Key)
    requires IsRound(s, r) && n in s.world.store && n !in After(s, r).installation.world.store
    ensures IsExtra(r.spec, s.prevSpec, k) && k.replica == n && k in Doomed(r.plan)
    ensures forall l | l in Flatten(r.spec) :: l.replica != n
  {
    RoundFacts(s, r);
    if forall d | d in Doomed(r.plan) :: d.replica != n {
      NotDoomedStays(Start(s, r), r.plan, r.paused, r.oracle, n);
    }
    k :| k in Doomed(r.plan) && k.replica == n;
    forall l | l in Flatten(r.spec)
      ensures l.replica != n
    {
      if l.replica == n {
        GoalNamesApart(r.plan, l, k);
      }
    }
  }

  /** What a paused pass deletes, whatever fails, is deleted safely exactly if its shard was complete. */
  lemma PausedDeletionSafeIff(s: Installation, r: Round, n: Name)
    requires IsRound(s, r) && r.paused
    requires n in s.world.store && n !in After(s, r).installation.world.store
    ensures DeletedSafely(s, r, n) <==> forall k | IsExtra(r.spec, s.prevSpec, k) && k.replica == n :: ShardComplete(s, r, k)
  {
    var k := DeletedIsExtra(s, r, n);
    forall d | IsExtra(r.spec, s.prevSpec, d) && d.replica == n
      ensures d == k
    {
      DoomedNamesApart(r.plan, d, k);
    }
    if ShardComplete(s, r, k) {
      forall l | l in Flatten(r.spec) && l.at == k.at
        ensures l.replica in After(s, r).installation.world.store
      {
        WantedStays(s, r, l);
      }
      assert DeletedFrom(s, r, n, k);
    }
  }

  /** A finished paused pass keeps to scale-out before scale-in exactly if every shard that has an extra
      replica to delete was complete before it. */
  lemma PausedPassSafeIff(s: Installation, r: Round)
    requires IsRound(s, r) && r.paused && After(s, r).out == Done
    ensures (forall n | n in s.world.store && n !in After(s, r).installation.world.store :: DeletedSafely(s, r, n))
            <==> forall k | IsExtra(r.spec, s.prevSpec, k) && k.replica in s.world.store :: ShardComplete(s, r, k)
  {
    RoundFacts(s, r);
    forall k | IsExtra(r.spec, s.prevSpec, k) && k.replica in s.world.store
      ensures k.replica !in After(s, r).installation.world.store
      ensures DeletedSafely(s, r, k.replica) ==> ShardComplete(s, r, k)
    {
      PausedPassDeletes(Start(s, r), r.plan, r.oracle, k);
      PausedDeletionSafeIff(s, r, k.replica);
    }
    if forall k | IsExtra(r.spec, s.prevSpec, k) && k.replica in s.world.store :: ShardComplete(s, r, k) {
      forall n | n in s.world.store && n !in After(s, r).installation.world.store
        ensures DeletedSafely(s, r, n)
      {
        PausedDeletionSafeIff(s, r, n);
      }
    }
  }

  /** So with an extra replica to delete and a wanted one of its shard missing, a paused pass without API
      errors deletes the first and does not create the second. */
  lemma PausedPassDeletesFirst(s: Installation, r: Round, extra: Key, wanted: Key)
    requires IsRound(s, r) && r.paused && Faultless(r.oracle) && r.faults == NO_PASS_FAULTS
    requires IsExtra(r.spec, s.prevSpec, extra) && extra.replica in s.world.store
    requires wanted in Flatten(r.spec) && wanted.at == extra.at && wanted.replica !in s.world.store
    ensures After(s, r).out == Done
    ensures var store := After(s, r).installation.world.store; extra.replica !in store && wanted.replica !in store
    ensures !DeletedSafely(s, r, extra.replica)
  {
    var w := Start(s, r);
    RoundFacts(s, r);
    PausedPassFinishes(w, r.plan, r.oracle);
    PausedPassDeletes(w, r.plan, r.oracle, extra);
    if wanted.replica in After(s, r).installation.world.store {
      PausedNeverCreates(w, r.plan, r.oracle, wanted.replica);
    }
    PausedDeletionSafeIff(s, r, extra.replica);
  }
}
