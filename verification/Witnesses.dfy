/** Passes of an installation "d" with one cluster "c" of one shard, as Sync makes them, in which the
    reconcile loop falls short. */
module Witnesses {
  import opened Commons
  import opened Names
  import opened Reconcile
  import opened Passes
  import opened Tours
  import opened Runs
  import opened PausedRuns
  import opened StoredStatus

  const AT := ShardKey(Name("c"), Name(ShardName("d", "c", 0)))
  const CFG := Config("spec")

  function Replica(o: nat): Name
  {
    Name(ReplicaName(AT.shard.text, o))
  }

  /** A shard of the given replicas. */
  function ShardOf(replicas: set<Name>): Spec
  {
    map[AT := map n | n in replicas :: CFG]
  }

  function InStore(replicas: set<Name>, ready: int): map<Name, StatefulSet>
  {
    map n | n in replicas :: StatefulSet(Some(CFG), 1, 1, SetStatus(1, ready, 1, 1, "", ""))
  }

  const NO_FAULTS := Faults(false, false, false, false, false, false, false, false, false, false)

  function Calmly(n: Name): Faults
  {
    NO_FAULTS
  }

  /** A pass without faults over the shard, in the given orders. */
  function PassOver(s: Installation, spec: Spec, paused: bool, order: seq<Name>, extras: seq<Name>): Round
  {
    Round(spec, StopPlan(Stop(AT, order, extras), spec, s.prevSpec), paused, Calmly, NO_PASS_FAULTS, s.world.store)
  }

  /** An installation whose status was read from the API server. */
  function Installed(store: map<Name, StatefulSet>, replicas: map<Key, ReplicaStatus>, log: seq<Event>, prev: Spec): Installation
  {
    Installation(World(store, replicas, 0, log, replicas), prev, 0, InProgress)
  }

  lemma ReplicasDiffer()
    ensures Replica(0) != Replica(1)
  {
    if Replica(0) == Replica(1) {
      ReplicaNameInjective(AT.shard.text, 0, AT.shard.text, 1);
    }
  }

  lemma ShardIsGenerated(replicas: set<Name>)
    requires replicas <= {Replica(0), Replica(1)}
    ensures AllGenerated("d", ShardOf(replicas))
  {
    forall k | k in Flatten(ShardOf(replicas))
      ensures Generated("d", k)
    {
      assert k.at == AT && k.replica in replicas;
      assert IsNamed("d", k, 0, if k.replica == Replica(0) then 0 else 1);
    }
  }

  lemma AppendEnd(p: Plan)
    ensures Append(p, End) == p
  {
  }

  /** Such a pass is one Sync makes. */
  lemma PassIsSync(s: Installation, replicas: set<Name>, paused: bool, order: seq<Name>, extras: seq<Name>)
    requires replicas <= {Replica(0), Replica(1)}
    requires Lists(order, replicas) && Lists(extras, Replicas(s.prevSpec, AT).Keys)
    requires AllGenerated("d", s.prevSpec)
    ensures var r := PassOver(s, ShardOf(replicas), paused, order, extras);
      && IsSync("d", s, r, [Stop(AT, order, extras)], After(s, r).installation)
      && IsRound(s, r) && UniqueNames(r.spec, s.prevSpec)
  {
    var spec, stop := ShardOf(replicas), Stop(AT, order, extras);
    var r := PassOver(s, spec, paused, order, extras);
    assert spec[AT].Keys == replicas;
    assert IsStop(stop, spec, s.prevSpec);
    assert [stop][0].at == AT;
    assert TourPlan([stop], 1, spec, s.prevSpec) == End;
    AppendEnd(StopPlan(stop, spec, s.prevSpec));
    ShardIsGenerated(replicas);
    GeneratedUnique("d", spec, s.prevSpec);
    TourIsPlan([stop], spec, s.prevSpec);
  }

  lemma NothingFails(s: Installation, spec: Spec, paused: bool, order: seq<Name>, extras: seq<Name>)
    ensures Faultless(PassOver(s, spec, paused, order, extras).oracle)
  {
    assert NoFaults(NO_FAULTS);
  }

  // ---- a paused pass ----

  /** Replica 1 is in service and about to be replaced by replica 0, which does not exist yet. */
  const REPLACING := Installed(InStore({Replica(1)}, 1), map[], [], ShardOf({Replica(0), Replica(1)}))

  /** Paused, the pass creates nothing and deletes replica 1, the only one there is. */
  lemma PausedPassDeletesTheOnlyReplica()
    ensures var s := REPLACING;
      var r := PassOver(s, ShardOf({Replica(0)}), true, [Replica(0)], [Replica(0), Replica(1)]);
      && IsSync("d", s, r, [Stop(AT, [Replica(0)], [Replica(0), Replica(1)])], After(s, r).installation)
      && IsRound(s, r) && After(s, r).out == Done
      && Replica(1) in s.world.store && !DeletedSafely(s, r, Replica(1))
      && Replica(0) !in After(s, r).installation.world.store && Replica(1) !in After(s, r).installation.world.store
  {
    var order, extras := [Replica(0)], [Replica(0), Replica(1)];
    ReplicasDiffer();
    TwoReplicas();
    ShardIsGenerated({Replica(0), Replica(1)});
    PassIsSync(REPLACING, {Replica(0)}, true, order, extras);
    NothingFails(REPLACING, ShardOf({Replica(0)}), true, order, extras);
    PausedPassDeletesFirst(REPLACING, PassOver(REPLACING, ShardOf({Replica(0)}), true, order, extras), Key(AT, Replica(1)), Key(AT, Replica(0)));
  }

  lemma TwoReplicas()
    ensures Lists([Replica(0), Replica(1)], Replicas(ShardOf({Replica(0), Replica(1)}), AT).Keys)
    ensures |ShardOf({Replica(0), Replica(1)})[AT]| == 2 && |ShardOf({Replica(0)})[AT]| == 1
    ensures Key(AT, Replica(0)) in Flatten(ShardOf({Replica(0)}))
    ensures IsExtra(ShardOf({Replica(0)}), ShardOf({Replica(0), Replica(1)}), Key(AT, Replica(1)))
  {
    ReplicasDiffer();
    assert ShardOf({Replica(0), Replica(1)})[AT].Keys == {Replica(0), Replica(1)};
    assert ShardOf({Replica(0)})[AT].Keys == {Replica(0)};
    assert |{Replica(0), Replica(1)}| == 2;
  }

  lemma OneReplica(o: nat)
    requires o < 2
    ensures Lists([Replica(o)], Replicas(ShardOf({Replica(o)}), AT).Keys)
    ensures |ShardOf({Replica(o)})[AT]| == 1
    ensures forall k :: k in Flatten(ShardOf({Replica(o)})) <==> k == Key(AT, Replica(o))
    ensures Flatten(ShardOf({Replica(o)}))[Key(AT, Replica(o))] == CFG
  {
    assert ShardOf({Replica(o)})[AT].Keys == {Replica(o)};
  }

  lemma FinishesIff(s: Installation, r: Round)
    requires IsRound(s, r) && Calm(r, r.spec)
    ensures After(s, r).out == if Missing(s.world.store, Flatten(r.spec)) == {} then Done else Requeue
  {
    RoundFacts(s, r);
    MissingSeen(s, r);
    MissingShrinks(Start(s, r), r.plan, r.oracle);
  }

  // ---- replicas left behind ----

  /** Replica 0 was renamed to replica 1, and both exist. */
  const RENAMED := Installed(InStore({Replica(0), Replica(1)}, 1), map[], [], ShardOf({Replica(0)}))

  /** The finished pass leaves replica 0. */
  lemma RenamedReplicaIsLeft()
    ensures var s := RENAMED;
      var r := PassOver(s, ShardOf({Replica(1)}), false, [Replica(1)], [Replica(0)]);
      && IsSync("d", s, r, [Stop(AT, [Replica(1)], [Replica(0)])], After(s, r).installation)
      && IsRound(s, r) && After(s, r).out == Done
      && Key(AT, Replica(0)) in Flatten(s.prevSpec) && Key(AT, Replica(0)) !in Flatten(r.spec)
      && Replica(0) in After(s, r).installation.world.store
  {
    var order, extras := [Replica(1)], [Replica(0)];
    var r := PassOver(RENAMED, ShardOf({Replica(1)}), false, order, extras);
    ReplicasDiffer();
    OneReplica(0);
    OneReplica(1);
    ShardIsGenerated({Replica(0)});
    PassIsSync(RENAMED, {Replica(1)}, false, order, extras);
    NothingFails(RENAMED, ShardOf({Replica(1)}), false, order, extras);
    FinishesIff(RENAMED, r);
    FinishedPassLeaves(RENAMED, r, Key(AT, Replica(0)));
  }

  /** The shard was dropped from the spec. */
  const DROPPED := Installed(InStore({Replica(0)}, 1), map[], [], ShardOf({Replica(0)}))

  function EmptyPass(s: Installation): Round
  {
    Round(map[], End, false, Calmly, NO_PASS_FAULTS, s.world.store)
  }

  lemma EmptyPassIsSync(s: Installation)
    requires AllGenerated("d", s.prevSpec)
    ensures IsSync("d", s, EmptyPass(s), [], After(s, EmptyPass(s)).installation)
    ensures IsRound(s, EmptyPass(s)) && UniqueNames(map[], s.prevSpec)
  {
    GeneratedUnique("d", map[], s.prevSpec);
    TourIsPlan([], map[], s.prevSpec);
  }

  lemma EmptyPassLeaves(s: Installation, n: Name)
    requires n in s.world.store
    ensures After(s, EmptyPass(s)).out == Done && n in After(s, EmptyPass(s)).installation.world.store
  {
  }

  lemma DroppedFacts()
    ensures AllGenerated("d", DROPPED.prevSpec) && Replica(0) in DROPPED.world.store
    ensures Key(AT, Replica(0)) in Flatten(DROPPED.prevSpec)
  {
    OneReplica(0);
    ShardIsGenerated({Replica(0)});
  }

  /** The finished pass does not visit it, and leaves its replica. */
  lemma DroppedShardIsLeft()
    ensures IsSync("d", DROPPED, EmptyPass(DROPPED), [], After(DROPPED, EmptyPass(DROPPED)).installation)
    ensures IsRound(DROPPED, EmptyPass(DROPPED)) && After(DROPPED, EmptyPass(DROPPED)).out == Done
    ensures Key(AT, Replica(0)) in Flatten(DROPPED.prevSpec) && EmptyPass(DROPPED).spec == map[]
    ensures Replica(0) in After(DROPPED, EmptyPass(DROPPED)).installation.world.store
  {
    DroppedFacts();
    EmptyPassIsSync(DROPPED);
    EmptyPassLeaves(DROPPED, Replica(0));
  }

  // ---- a status dropped by a requeue ----

  /** Replica 0 exists, with a history and a status that agree; replica 1 is still to be created. */
  function Growing(ready: int, status: ReplicaStatus, last: Event): Installation
  {
    Installed(InStore({Replica(0)}, ready), map[Key(AT, Replica(0)) := status], [last], ShardOf({Replica(0)}))
  }

  const GROWING_STOP := Stop(AT, [Replica(0), Replica(1)], [Replica(0)])

  function GrowingPass(s: Installation): Round
  {
    PassOver(s, ShardOf({Replica(0), Replica(1)}), false, GROWING_STOP.order, GROWING_STOP.extras)
  }

  ghost predicate IsGrowing(s: Installation)
  {
    s.prevSpec == ShardOf({Replica(0)}) && s.world.store.Keys == {Replica(0)} && s.world.stored == s.world.replicas
  }

  lemma FirstIsCarriedOut(w: World, p: Plan, oracle: Oracle, q: Plan, stop: Option<Action>)
    requires StopsAt(w, p, false, oracle, q, stop) && Apart(p) && p.Then? && p.first.Visit?
    requires Act(w, p.first, false, oracle).out == Done
    ensures p.first.key in Goal(q) && Goal(q)[p.first.key] == p.first.cfg
  {
    if stop.Some? {
      var rest :| p == Append(q, Then(stop.value, rest));
      PartsApart(q, Then(stop.value, rest));
      assert q.Then?;
    }
  }

  lemma GrowingMisses(s: Installation)
    requires s.world.store.Keys == {Replica(0)}
    ensures Missing(s.world.store, Flatten(ShardOf({Replica(0), Replica(1)}))) != {}
  {
    ReplicasDiffer();
    TwoReplicas();
    assert Key(AT, Replica(1)) in Missing(s.world.store, Flatten(ShardOf({Replica(0), Replica(1)})));
  }

  lemma GrowingPassIsRequeued(s: Installation)
    requires IsGrowing(s)
    ensures var r := GrowingPass(s);
      && IsSync("d", s, r, [GROWING_STOP], After(s, r).installation)
      && IsRound(s, r) && After(s, r).out == Requeue && Doomed(r.plan) == {}
  {
    var r := GrowingPass(s);
    var both := {Replica(0), Replica(1)};
    GrowingMisses(s);
    TwoReplicas();
    OneReplica(0);
    ShardIsGenerated({Replica(0)});
    PassIsSync(s, both, false, GROWING_STOP.order, GROWING_STOP.extras);
    NothingFails(s, ShardOf(both), false, GROWING_STOP.order, GROWING_STOP.extras);
    FinishesIff(s, r);
  }

  lemma GrowingPassStops(s: Installation) returns (q: Plan, stop: Option<Action>)
    requires IsGrowing(s)
    ensures var r := GrowingPass(s);
      && IsSync("d", s, r, [GROWING_STOP], After(s, r).installation)
      && After(s, r).out == Requeue
      && Key(AT, Replica(0)) in Goal(q) && Goal(q)[Key(AT, Replica(0))] == CFG
      && forall k | HonestAt(s.world, k) ::
           StoredHonestAt(After(s, r).installation.world, k) <==> SurvivesDrop(Start(s, r), false, r.oracle, q, stop, k)
  {
    var r := GrowingPass(s);
    var k := Key(AT, Replica(0));
    GrowingPassIsRequeued(s);
    RoundFacts(s, r);
    q, stop := UnwrittenRoundHonestIff(s, r);
    assert r.plan.first == Visit(k, ConfigOf(ShardOf({Replica(0), Replica(1)})[AT], Replica(0)));
    assert NoFaults(r.oracle(Replica(0)));
    FirstIsCarriedOut(Start(s, r), r.plan, r.oracle, q, stop);
  }

  /** Replica 0 was in sync and lost its pod: the status that is read back still says it is in sync. */
  lemma DroppedStatusSaysSync()
    ensures var k := Key(AT, Replica(0));
      var s := Growing(0, ReplicaStatus(Normal, Sync), Tables(k));
      && IsSync("d", s, GrowingPass(s), [GROWING_STOP], After(s, GrowingPass(s)).installation)
      && After(s, GrowingPass(s)).out == Requeue && HonestAt(s.world, k)
      && !StoredHonestAt(After(s, GrowingPass(s)).installation.world, k)
  {
    var k := Key(AT, Replica(0));
    var s := Growing(0, ReplicaStatus(Normal, Sync), Tables(k));
    assert HonestAt(s.world, k);
    var q, stop := GrowingPassStops(s);
  }

  /** Replica 0 came into service and got its tables: the status that is read back does not know. */
  lemma DroppedStatusMissesTables()
    ensures var k := Key(AT, Replica(0));
      var s := Growing(1, ReplicaStatus(Scale, NotSync), Down(k));
      && IsSync("d", s, GrowingPass(s), [GROWING_STOP], After(s, GrowingPass(s)).installation)
      && After(s, GrowingPass(s)).out == Requeue && HonestAt(s.world, k)
      && !StoredHonestAt(After(s, GrowingPass(s)).installation.world, k)
  {
    var k := Key(AT, Replica(0));
    var s := Growing(1, ReplicaStatus(Scale, NotSync), Down(k));
    assert HonestAt(s.world, k);
    var q, stop := GrowingPassStops(s);
  }

  // ---- a status written by a deletion ----

  /** A tour of two shards, of which the first loses its second replica and the second is new. */
  function ShrinkingTour(at: ShardKey, bt: ShardKey, r0: Name, r1: Name, b0: Name): Tour
  {
    [Stop(at, [r0], [r0, r1]), Stop(bt, [b0], [])]
  }

  function ShrunkSpec(at: ShardKey, bt: ShardKey, r0: Name, b0: Name): Spec
  {
    map[at := map[r0 := CFG], bt := map[b0 := CFG]]
  }

  function FullSpec(at: ShardKey, r0: Name, r1: Name): Spec
  {
    map[at := map[r0 := CFG, r1 := CFG]]
  }

  lemma ShrinkingPlan(at: ShardKey, bt: ShardKey, r0: Name, r1: Name, b0: Name)
    requires at != bt && r0 != r1
    ensures TourPlan(ShrinkingTour(at, bt, r0, r1, b0), 0, ShrunkSpec(at, bt, r0, b0), FullSpec(at, r0, r1))
            == Then(Visit(Key(at, r0), CFG), Then(Delete(Key(at, r1)), Then(Visit(Key(bt, b0), CFG), End)))
  {
    var tour, spec, prev := ShrinkingTour(at, bt, r0, r1, b0), ShrunkSpec(at, bt, r0, b0), FullSpec(at, r0, r1);
    FirstStop(at, r0, r1, spec, prev);
    SecondStop(bt, b0, spec, prev);
    var first, second := StopPlan(tour[0], spec, prev), StopPlan(tour[1], spec, prev);
    assert TourPlan(tour, 2, spec, prev) == End;
    AppendEnd(second);
    assert TourPlan(tour, 1, spec, prev) == second;
    assert TourPlan(tour, 0, spec, prev) == Append(first, second);
    AppendThen(Visit(Key(at, r0), CFG), Then(Delete(Key(at, r1)), End), second);
    AppendThen(Delete(Key(at, r1)), End, second);
  }

  lemma AppendThen(a: Action, p: Plan, q: Plan)
    ensures Append(Then(a, p), q) == Then(a, Append(p, q)) && Append(End, q) == q
  {
  }

  lemma FirstStop(at: ShardKey, r0: Name, r1: Name, spec: Spec, prev: Spec)
    requires at in spec && spec[at] == map[r0 := CFG] && at in prev && prev[at] == map[r0 := CFG, r1 := CFG] && r0 != r1
    ensures StopPlan(Stop(at, [r0], [r0, r1]), spec, prev)
            == Then(Visit(Key(at, r0), CFG), Then(Delete(Key(at, r1)), End))
  {
    var cfgs, extras := spec[at], [r0, r1];
    assert |cfgs| == 1 && |prev[at]| == 2;
    assert Deletions(at, extras, 2, cfgs) == End;
    assert Deletions(at, extras, 1, cfgs) == Then(Delete(Key(at, r1)), End);
    assert Deletions(at, extras, 0, cfgs) == Deletions(at, extras, 1, cfgs);
    assert Visits(at, [r0], 1, cfgs) == End;
    assert Visits(at, [r0], 0, cfgs) == Then(Visit(Key(at, r0), CFG), End);
    AppendThen(Visit(Key(at, r0), CFG), End, Deletions(at, extras, 0, cfgs));
  }

  lemma SecondStop(bt: ShardKey, b0: Name, spec: Spec, prev: Spec)
    requires bt in spec && spec[bt] == map[b0 := CFG] && bt !in prev
    ensures StopPlan(Stop(bt, [b0], []), spec, prev) == Then(Visit(Key(bt, b0), CFG), End)
  {
    assert Visits(bt, [b0], 1, spec[bt]) == End;
    assert Visits(bt, [b0], 0, spec[bt]) == Then(Visit(Key(bt, b0), CFG), End);
    assert Deletions(bt, [], 0, spec[bt]) == End;
    AppendEnd(Visits(bt, [b0], 0, spec[bt]));
  }

  lemma ShrinkingIsTour(at: ShardKey, bt: ShardKey, r0: Name, r1: Name, b0: Name)
    requires at != bt && r0 != r1
    ensures IsTour(ShrinkingTour(at, bt, r0, r1, b0), ShrunkSpec(at, bt, r0, b0), FullSpec(at, r0, r1))
  {
    var tour, spec, prev := ShrinkingTour(at, bt, r0, r1, b0), ShrunkSpec(at, bt, r0, b0), FullSpec(at, r0, r1);
    assert spec[at].Keys == {r0} && spec[bt].Keys == {b0} && prev[at].Keys == {r0, r1} && Replicas(prev, bt).Keys == {};
    assert Lists([r0], {r0}) && Lists([r0, r1], {r0, r1}) && Lists([b0], {b0}) && Lists<Name>([], {});
    assert tour[0].at == at && tour[1].at == bt;
  }

  /** Both replicas of the first shard were in sync, and the first has lost its pod. */
  function Shrinking(at: ShardKey, r0: Name, r1: Name): Installation
  {
    var k0, k1, sync := Key(at, r0), Key(at, r1), ReplicaStatus(Normal, Sync);
    Installed(InStore({r0, r1}, 0), map[k0 := sync, k1 := sync], [Tables(k0), Tables(k1)], FullSpec(at, r0, r1))
  }

  function ShrinkingPass(at: ShardKey, bt: ShardKey, r0: Name, r1: Name, b0: Name): Round
  {
    var spec := ShrunkSpec(at, bt, r0, b0);
    Round(spec, TourPlan(ShrinkingTour(at, bt, r0, r1, b0), 0, spec, FullSpec(at, r0, r1)), false, Calmly, NO_PASS_FAULTS, InStore({r0, r1}, 0))
  }

  lemma CalmlyIsFaultless()
    ensures Faultless(Calmly)
  {
    assert NoFaults(NO_FAULTS);
  }

  /** The pass sees that the first is down, deletes the second and is requeued for the new shard: the status
      in the API server is honest about both. */
  lemma RequeuedAfterDeletionIsHonest(at: ShardKey, bt: ShardKey, r0: Name, r1: Name, b0: Name)
    requires at != bt && r0 != r1 && b0 != r0 && b0 != r1
    ensures var p := After(Shrinking(at, r0, r1), ShrinkingPass(at, bt, r0, r1, b0));
      && p.out == Requeue
      && p.installation.world.stored == map[Key(at, r0) := ReplicaStatus(Scale, NotSync)]
      && StoredHonestAt(p.installation.world, Key(at, r0)) && StoredHonestAt(p.installation.world, Key(at, r1))
  {
    var s, k0, k1 := Shrinking(at, r0, r1), Key(at, r0), Key(at, r1);
    ShrinkingPlan(at, bt, r0, r1, b0);
    CalmlyIsFaultless();
    ShrinkingStartsHonest(s.world, k0, k1);
    DeletionRound(s, ShrinkingPass(at, bt, r0, r1, b0), k0, k1, Key(bt, b0), CFG, CFG);
    assert s.world.replicas[k0 := ReplicaStatus(Scale, NotSync)] - {k1} == map[k0 := ReplicaStatus(Scale, NotSync)];
  }

  lemma ShrinkingStartsHonest(w: World, k0: Key, k1: Key)
    requires k0 != k1 && w.log == [Tables(k0), Tables(k1)]
    requires k0 in w.replicas && w.replicas[k0].state == Sync && k1 in w.replicas && w.replicas[k1].state == Sync
    ensures HonestAt(w, k0) && HonestAt(w, k1)
  {
    assert w.log[..1] == [Tables(k0)];
  }

  const BT := ShardKey(Name("c"), Name(ShardName("d", "c", 1)))
  const B0 := Name(ReplicaName(BT.shard.text, 0))

  lemma SecondShardDiffers()
    ensures AT != BT && B0 != Replica(0) && B0 != Replica(1)
  {
    if AT.shard == BT.shard {
      ReplicaNameInjective("d" + "-" + "c", 0, "d" + "-" + "c", 1);
    }
    forall o: nat | o < 2
      ensures B0 != Replica(o)
    {
      if B0 == Replica(o) {
        ReplicaNameInjective(BT.shard.text, 0, AT.shard.text, o);
      }
    }
  }

  lemma ShrinkingIsGenerated()
    ensures AllGenerated("d", ShrunkSpec(AT, BT, Replica(0), B0)) && AllGenerated("d", FullSpec(AT, Replica(0), Replica(1)))
  {
    forall k | k in Flatten(ShrunkSpec(AT, BT, Replica(0), B0))
      ensures Generated("d", k)
    {
      if k.at == AT {
        assert IsNamed("d", k, 0, 0);
      } else {
        assert k == Key(BT, B0) && IsNamed("d", k, 1, 0);
      }
    }
    ShardIsGenerated({Replica(0), Replica(1)});
    var both := {Replica(0), Replica(1)};
    assert FullSpec(AT, Replica(0), Replica(1))[AT] == ShardOf(both)[AT];
    assert FullSpec(AT, Replica(0), Replica(1)) == ShardOf(both);
  }

  /** With generated names that is a pass Sync makes. */
  lemma ShrinkingIsSync()
    ensures var s, r := Shrinking(AT, Replica(0), Replica(1)), ShrinkingPass(AT, BT, Replica(0), Replica(1), B0);
      && IsSync("d", s, r, ShrinkingTour(AT, BT, Replica(0), Replica(1), B0), After(s, r).installation)
      && IsRound(s, r) && AT != BT && Replica(0) != Replica(1) && B0 != Replica(0) && B0 != Replica(1)
  {
    ReplicasDiffer();
    SecondShardDiffers();
    ShrinkingIsGenerated();
    GeneratedShrinkingIsSync("d", AT, BT, Replica(0), Replica(1), B0);
  }

  lemma GeneratedShrinkingIsSync(installation: string, at: ShardKey, bt: ShardKey, r0: Name, r1: Name, b0: Name)
    requires at != bt && r0 != r1
    requires AllGenerated(installation, ShrunkSpec(at, bt, r0, b0)) && AllGenerated(installation, FullSpec(at, r0, r1))
    ensures var s, r := Shrinking(at, r0, r1), ShrinkingPass(at, bt, r0, r1, b0);
      && IsSync(installation, s, r, ShrinkingTour(at, bt, r0, r1, b0), After(s, r).installation)
      && IsRound(s, r)
  {
    ShrinkingIsTour(at, bt, r0, r1, b0);
    GeneratedUnique(installation, ShrunkSpec(at, bt, r0, b0), FullSpec(at, r0, r1));
    TourIsPlan(ShrinkingTour(at, bt, r0, r1, b0), ShrunkSpec(at, bt, r0, b0), FullSpec(at, r0, r1));
  }

  // ---- in service without tables ----

  /** A replica that is already in service when it is first seen. */
  const ADOPTED := Installed(InStore({Replica(0)}, 1), map[], [], map[])

  /** It is reported in phase Normal, and the installation as completed, without its tables having been
      created. */
  lemma AdoptedReplicaHasNoTables()
    ensures var s := ADOPTED;
      var r := PassOver(s, ShardOf({Replica(0)}), false, [Replica(0)], []);
      var t := After(s, r).installation;
      && IsSync("d", s, r, [Stop(AT, [Replica(0)], [])], t)
      && After(s, r).out == Done && t.state == Completed
      && StatusAt(t.world, Key(AT, Replica(0))).phase == Normal && StatusAt(t.world, Key(AT, Replica(0))).state != Sync
  {
    var r := PassOver(ADOPTED, ShardOf({Replica(0)}), false, [Replica(0)], []);
    OneReplica(0);
    ShardIsGenerated({});
    PassIsSync(ADOPTED, {Replica(0)}, false, [Replica(0)], []);
    NothingFails(ADOPTED, ShardOf({Replica(0)}), false, [Replica(0)], []);
    FinishesIff(ADOPTED, r);
    NormalWithoutTables(ADOPTED, r, Key(AT, Replica(0)));
    FinishedPassReports(ADOPTED, r);
  }
}
