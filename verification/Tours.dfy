/** Whatever order the maps are iterated in, the nested loops carry out a plan of the spec: each wanted
    replica visited once, each extra replica deleted once, deletions of a shard after its visits. */
module Tours {
  import opened Commons
  import opened Names
  import opened Reconcile
  import opened Passes

  predicate InEither(spec: Spec, prev: Spec, k: Key)
  {
    k in Flatten(spec) || k in Flatten(prev)
  }

  /** No two replicas of the new and the remembered spec share a name. */
  ghost predicate UniqueNames(spec: Spec, prev: Spec)
  {
    forall k, l | InEither(spec, prev, k) && InEither(spec, prev, l) && k.replica == l.replica :: k == l
  }

  lemma GeneratedUnique(installation: string, spec: Spec, prev: Spec)
    requires forall k | InEither(spec, prev, k) :: Generated(installation, k)
    ensures UniqueNames(spec, prev)
  {
    forall k, l | InEither(spec, prev, k) && InEither(spec, prev, l) && k.replica == l.replica
      ensures k == l
    {
      GeneratedPlaced(installation, k, l);
    }
  }

  // ---- appending plans ----

  lemma {:induction false} AppendParts(p: Plan, q: Plan)
    ensures Goal(Append(p, q)) == Goal(q) + Goal(p)
    ensures Doomed(Append(p, q)) == Doomed(p) + Doomed(q)
    ensures NamesIn(Append(p, q)) == NamesIn(p) + NamesIn(q)
  {
    if p.Then? {
      AppendParts(p.rest, q);
    }
  }

  lemma {:induction false} AppendApart(p: Plan, q: Plan)
    requires Apart(p) && Apart(q) && NamesIn(p) !! NamesIn(q)
    ensures Apart(Append(p, q))
  {
    if p.Then? {
      AppendApart(p.rest, q);
      AppendParts(p.rest, q);
    }
  }

  lemma {:induction false} PartsApart(q: Plan, t: Plan)
    requires Apart(Append(q, t))
    ensures Apart(q) && Apart(t) && NamesIn(q) !! NamesIn(t)
  {
    if q.Then? {
      PartsApart(q.rest, t);
      AppendParts(q.rest, t);
    }
  }

  lemma {:induction false} AppendVisitsFirst(p: Plan, q: Plan)
    requires VisitsFirst(p) && VisitsFirst(q)
    requires forall k, l | k in Doomed(p) && l in Goal(q) :: k.at != l.at
    ensures VisitsFirst(Append(p, q))
  {
    if p.Then? {
      AppendVisitsFirst(p.rest, q);
      AppendParts(p.rest, q);
    }
  }

  lemma {:induction false} NamesComeFromKeys(p: Plan, n: Name) returns (k: Key)
    requires n in NamesIn(p)
    ensures k.replica == n && (k in Goal(p) || k in Doomed(p))
  {
    if p.first.key.replica == n {
      k := p.first.key;
    } else {
      k := NamesComeFromKeys(p.rest, n);
    }
  }

  // ---- one shard ----

  lemma {:induction false} VisitsParts(at: ShardKey, order: seq<Name>, i: nat, cfgs: map<Name, Config>, k: Key)
    ensures var p := Visits(at, order, i, cfgs);
      && (k in Goal(p) <==> k.at == at && ListedFrom(order, i, k.replica))
      && (k in Goal(p) ==> Goal(p)[k] == ConfigOf(cfgs, k.replica))
      && (k.replica in NamesIn(p) <==> ListedFrom(order, i, k.replica))
      && Doomed(p) == {}
    decreases |order| - i
  {
    if i < |order| {
      VisitsParts(at, order, i + 1, cfgs, k);
    }
  }

  lemma {:induction false} VisitsApart(at: ShardKey, order: seq<Name>, i: nat, cfgs: map<Name, Config>)
    requires forall a, b :: 0 <= a < b < |order| ==> order[a] != order[b]
    ensures Apart(Visits(at, order, i, cfgs))
    decreases |order| - i
  {
    if i < |order| {
      VisitsApart(at, order, i + 1, cfgs);
      VisitsParts(at, order, i + 1, cfgs, Key(at, order[i]));
    }
  }

  lemma {:induction false} DeletionsParts(at: ShardKey, extras: seq<Name>, i: nat, cfgs: map<Name, Config>, k: Key)
    ensures var p := Deletions(at, extras, i, cfgs);
      && (k in Doomed(p) <==> k.at == at && ListedFrom(extras, i, k.replica) && k.replica !in cfgs)
      && (k.replica in NamesIn(p) <==> ListedFrom(extras, i, k.replica) && k.replica !in cfgs)
      && Goal(p) == map[]
    decreases |extras| - i
  {
    if i < |extras| {
      DeletionsParts(at, extras, i + 1, cfgs, k);
    }
  }

  lemma {:induction false} DeletionsApart(at: ShardKey, extras: seq<Name>, i: nat, cfgs: map<Name, Config>)
    requires forall a, b :: 0 <= a < b < |extras| ==> extras[a] != extras[b]
    ensures Apart(Deletions(at, extras, i, cfgs))
    decreases |extras| - i
  {
    if i < |extras| {
      DeletionsApart(at, extras, i + 1, cfgs);
      DeletionsParts(at, extras, i + 1, cfgs, Key(at, extras[i]));
    }
  }

  lemma ListedIff(l: seq<Name>, s: set<Name>, n: Name)
    requires Lists(l, s)
    ensures ListedFrom(l, 0, n) <==> n in s
  {
    assert n in l <==> n in s;
  }

  /** The plan of one shard: its replicas, then its extras. */
  lemma StopParts(stop: Stop, spec: Spec, prev: Spec, k: Key)
    requires IsStop(stop, spec, prev)
    ensures var p := StopPlan(stop, spec, prev);
      && (k in Goal(p) <==> k.at == stop.at && k in Flatten(spec))
      && (k in Goal(p) ==> Goal(p)[k] == Flatten(spec)[k])
      && (k in Doomed(p) <==> k.at == stop.at && IsExtra(spec, prev, k))
  {
    var cfgs := spec[stop.at];
    var visits, extras := Visits(stop.at, stop.order, 0, cfgs), ExtrasPlan(stop, spec, prev);
    AppendParts(visits, extras);
    VisitsParts(stop.at, stop.order, 0, cfgs, k);
    DeletionsParts(stop.at, stop.extras, 0, cfgs, k);
    ListedIff(stop.order, cfgs.Keys, k.replica);
    ListedIff(stop.extras, Replicas(prev, stop.at).Keys, k.replica);
  }

  lemma {:induction false} VisitsOnly(at: ShardKey, order: seq<Name>, i: nat, cfgs: map<Name, Config>)
    ensures Doomed(Visits(at, order, i, cfgs)) == {} && VisitsFirst(Visits(at, order, i, cfgs))
    decreases |order| - i
  {
    if i < |order| {
      VisitsOnly(at, order, i + 1, cfgs);
    }
  }

  lemma {:induction false} DeletionsOnly(at: ShardKey, extras: seq<Name>, i: nat, cfgs: map<Name, Config>)
    ensures Goal(Deletions(at, extras, i, cfgs)) == map[] && VisitsFirst(Deletions(at, extras, i, cfgs))
    decreases |extras| - i
  {
    if i < |extras| {
      DeletionsOnly(at, extras, i + 1, cfgs);
    }
  }

  lemma StopVisitsFirst(stop: Stop, spec: Spec, prev: Spec)
    ensures VisitsFirst(StopPlan(stop, spec, prev))
  {
    var cfgs := Replicas(spec, stop.at);
    VisitsOnly(stop.at, stop.order, 0, cfgs);
    DeletionsOnly(stop.at, stop.extras, 0, cfgs);
    AppendVisitsFirst(Visits(stop.at, stop.order, 0, cfgs), ExtrasPlan(stop, spec, prev));
  }

  lemma StopApart(stop: Stop, spec: Spec, prev: Spec)
    requires IsStop(stop, spec, prev)
    ensures Apart(StopPlan(stop, spec, prev))
  {
    var cfgs := spec[stop.at];
    var visits, extras := Visits(stop.at, stop.order, 0, cfgs), ExtrasPlan(stop, spec, prev);
    VisitsApart(stop.at, stop.order, 0, cfgs);
    DeletionsApart(stop.at, stop.extras, 0, cfgs);
    forall n
      ensures !(n in NamesIn(visits) && n in NamesIn(extras))
    {
      VisitsParts(stop.at, stop.order, 0, cfgs, Key(stop.at, n));
      DeletionsParts(stop.at, stop.extras, 0, cfgs, Key(stop.at, n));
      ListedIff(stop.order, cfgs.Keys, n);
    }
    AppendApart(visits, extras);
  }

  // ---- the whole tour ----

  predicate Ahead(tour: Tour, i: nat, at: ShardKey)
  {
    exists j | i <= j < |tour| :: tour[j].at == at
  }

  lemma {:induction false} TourParts(tour: Tour, i: nat, spec: Spec, prev: Spec, k: Key)
    requires AreStops(tour, spec, prev)
    ensures var p := TourPlan(tour, i, spec, prev);
      && (k in Goal(p) <==> Ahead(tour, i, k.at) && k in Flatten(spec))
      && (k in Goal(p) ==> Goal(p)[k] == Flatten(spec)[k])
      && (k in Doomed(p) <==> Ahead(tour, i, k.at) && IsExtra(spec, prev, k))
    decreases |tour| - i
  {
    if i < |tour| {
      TourParts(tour, i + 1, spec, prev, k);
      StopParts(tour[i], spec, prev, k);
      AppendParts(StopPlan(tour[i], spec, prev), TourPlan(tour, i + 1, spec, prev));
    }
  }

  lemma {:induction false} TourApart(tour: Tour, i: nat, spec: Spec, prev: Spec)
    requires AreStops(tour, spec, prev) && ShardsDiffer(tour) && UniqueNames(spec, prev)
    ensures Apart(TourPlan(tour, i, spec, prev))
    decreases |tour| - i
  {
    if i < |tour| {
      TourApart(tour, i + 1, spec, prev);
      StopApart(tour[i], spec, prev);
      StopAndRestDisjoint(tour, i, spec, prev);
      AppendApart(StopPlan(tour[i], spec, prev), TourPlan(tour, i + 1, spec, prev));
    }
  }

  lemma DeletionsBeforeNextShards(tour: Tour, i: nat, spec: Spec, prev: Spec, k: Key, l: Key)
    requires AreStops(tour, spec, prev) && ShardsDiffer(tour) && i < |tour|
    requires k in Doomed(StopPlan(tour[i], spec, prev)) && l in Goal(TourPlan(tour, i + 1, spec, prev))
    ensures k.at != l.at
  {
    StopParts(tour[i], spec, prev, k);
    TourParts(tour, i + 1, spec, prev, l);
  }

  lemma {:induction false} TourVisitsFirst(tour: Tour, i: nat, spec: Spec, prev: Spec)
    requires AreStops(tour, spec, prev) && ShardsDiffer(tour)
    ensures VisitsFirst(TourPlan(tour, i, spec, prev))
    decreases |tour| - i
  {
    if i < |tour| {
      TourVisitsFirst(tour, i + 1, spec, prev);
      var stop, rest := StopPlan(tour[i], spec, prev), TourPlan(tour, i + 1, spec, prev);
      StopVisitsFirst(tour[i], spec, prev);
      forall k, l | k in Doomed(stop) && l in Goal(rest)
        ensures k.at != l.at
      {
        DeletionsBeforeNextShards(tour, i, spec, prev, k, l);
      }
      AppendVisitsFirst(stop, rest);
    }
  }

  lemma StopAndRestDisjoint(tour: Tour, i: nat, spec: Spec, prev: Spec)
    requires AreStops(tour, spec, prev) && ShardsDiffer(tour) && UniqueNames(spec, prev) && i < |tour|
    ensures NamesIn(StopPlan(tour[i], spec, prev)) !! NamesIn(TourPlan(tour, i + 1, spec, prev))
  {
    var stop, rest := StopPlan(tour[i], spec, prev), TourPlan(tour, i + 1, spec, prev);
    forall n | n in NamesIn(stop)
      ensures n !in NamesIn(rest)
    {
      var k := NamesComeFromKeys(stop, n);
      StopParts(tour[i], spec, prev, k);
      if n in NamesIn(rest) {
        var l := NamesComeFromKeys(rest, n);
        TourParts(tour, i + 1, spec, prev, l);
        assert InEither(spec, prev, k) && InEither(spec, prev, l);
        assert false;
      }
    }
  }

  lemma TourVisitsSpec(tour: Tour, spec: Spec, prev: Spec)
    requires IsTour(tour, spec, prev)
    ensures Goal(TourPlan(tour, 0, spec, prev)) == Flatten(spec)
  {
    forall k: Key {
      TourParts(tour, 0, spec, prev, k);
    }
  }

  lemma TourDeletesExtras(tour: Tour, spec: Spec, prev: Spec)
    requires IsTour(tour, spec, prev)
    ensures forall k :: k in Doomed(TourPlan(tour, 0, spec, prev)) <==> IsExtra(spec, prev, k)
  {
    forall k: Key {
      TourParts(tour, 0, spec, prev, k);
    }
  }

  /** Every tour is a plan. */
  lemma TourIsPlan(tour: Tour, spec: Spec, prev: Spec)
    requires IsTour(tour, spec, prev) && UniqueNames(spec, prev)
    ensures IsPlan(TourPlan(tour, 0, spec, prev), spec, prev)
  {
    TourApart(tour, 0, spec, prev);
    TourVisitsFirst(tour, 0, spec, prev);
    TourVisitsSpec(tour, spec, prev);
    TourDeletesExtras(tour, spec, prev);
  }
}
