/** Expanding the persistent volumes of a StatefulSet (controllers/daisymanager/daisy_member_manager.go,
    controllers/daisymanager/validation.go, pkg/k8s/equality.go, pkg/k8s/controller_utils.go). */
module Volumes {
  import opened Commons
  import opened Text
  import opened Names

  /** A volume claim template; size 0 stands for a storage request that is not set. */
  datatype Claim = Claim(name: Name, size: int)

  /** The fields of a StatefulSet that volumes depend on. */
  datatype StatefulSet = StatefulSet(name: Name, replicas: Option<int>, claims: seq<Claim>)

  datatype Pvc = Pvc(name: Name, size: int)

  type Sizes = map<Name, int>

  datatype Comparison = Incomparable | Same | Increase | Decrease

  /** CompareStorageRequests. */
  function Compare(initial: int, updated: int): Comparison
  {
    if initial == 0 || updated == 0 then Incomparable
    else if updated < initial then Decrease
    else if updated > initial then Increase
    else Same
  }

  /** GetClaim and claimMatchingName: the first claim with the name. */
  function GetClaim(claims: seq<Claim>, name: Name): (r: Option<Claim>)
    ensures r.Some? ==> r.value in claims && r.value.name == name
    ensures r.None? ==> forall c | c in claims :: c.name != name
  {
    if claims == [] then None
    else if claims[0].name == name then Some(claims[0])
    else GetClaim(claims[1..], name)
  }

  lemma {:induction false} FirstClaim(claims: seq<Claim>, name: Name, i: nat)
    requires i < |claims| && claims[i].name == name && forall j | 0 <= j < i :: claims[j].name != name
    ensures GetClaim(claims, name) == Some(claims[i])
  {
    if i > 0 {
      FirstClaim(claims[1..], name, i - 1);
    }
  }

  /** One claim of ValidateClaimsStorageUpdate; expandable holds the claims whose storage class is found
      and allows volume expansion. */
  predicate ValidClaim(initial: seq<Claim>, updated: Claim, validateClass: bool, expandable: set<Claim>)
  {
    var was := GetClaim(initial, updated.name);
    was.Some? && match Compare(was.value.size, updated.size)
                 case Increase => !validateClass || updated in expandable
                 case Decrease => false
                 case _ => true
  }

  /** ValidateClaimsStorageUpdate: whether it returns no error. */
  predicate ValidateClaimsStorageUpdate(initial: seq<Claim>, updated: seq<Claim>, validateClass: bool, expandable: set<Claim>)
  {
    updated == [] ||
    (ValidClaim(initial, updated[0], validateClass, expandable) &&
     ValidateClaimsStorageUpdate(initial, updated[1..], validateClass, expandable))
  }

  /** A valid update adds no claim and shrinks none that has a size; claims may disappear. */
  lemma {:induction false} ValidUpdateIff(initial: seq<Claim>, updated: seq<Claim>, validateClass: bool, expandable: set<Claim>)
    ensures ValidateClaimsStorageUpdate(initial, updated, validateClass, expandable) <==>
            forall c | c in updated :: ValidClaim(initial, c, validateClass, expandable)
  {
    if updated != [] {
      ValidUpdateIff(initial, updated[1..], validateClass, expandable);
      assert updated == [updated[0]] + updated[1..];
    }
  }

  /** In sizes: an update is accepted exactly if every claim has a template, is not below it where both have
      a size, and where it is above it, may be expanded or that is not asked for. */
  lemma ValidUpdateMeans(initial: seq<Claim>, updated: seq<Claim>, validateClass: bool, expandable: set<Claim>)
    ensures ValidateClaimsStorageUpdate(initial, updated, validateClass, expandable) <==>
            forall c | c in updated ::
              var t := GetClaim(initial, c.name);
              && t.Some?
              && (t.value.size != 0 && c.size != 0 ==> c.size >= t.value.size)
              && (t.value.size != 0 && c.size > t.value.size && c.size != 0 && validateClass ==> c in expandable)
  {
    ValidUpdateIff(initial, updated, validateClass, expandable);
  }

  /** GetReplicas. */
  function Replicas(s: StatefulSet): int
  {
    match s.replicas
    case None => 0
    case Some(n) => n
  }

  /** The PVC of a claim for the pod with an ordinal. */
  function PvcName(claim: Name, set_: Name, ordinal: nat): Name
  {
    Name(claim.text + "-" + ReplicaName(set_.text, ordinal))
  }

  /** PVC names clash exactly when the ordinal and the dashed pair claim-set agree. */
  lemma PvcNamesClashIff(c: Name, s: Name, i: nat, d: Name, t: Name, j: nat)
    ensures PvcName(c, s, i) == PvcName(d, t, j) <==> c.text + "-" + s.text == d.text + "-" + t.text && i == j
    ensures s == t ==> (PvcName(c, s, i) == PvcName(d, t, j) <==> c == d && i == j)
  {
    PvcNameParts(c, s, i);
    PvcNameParts(d, t, j);
    if PvcName(c, s, i) == PvcName(d, t, j) {
      ReplicaNameInjective(c.text + "-" + s.text, i, d.text + "-" + t.text, j);
    }
    if c.text + "-" + s.text == d.text + "-" + t.text && s == t {
      var a, b := c.text + "-" + s.text, d.text + "-" + t.text;
      assert |c.text| == |d.text|;
      assert a[..|c.text|] == c.text && b[..|d.text|] == d.text;
    }
  }

  lemma PvcNameParts(c: Name, s: Name, i: nat)
    ensures PvcName(c, s, i).text == ReplicaName(c.text + "-" + s.text, i)
  {
  }

  /** Even in one installation two StatefulSets can share a PVC, through dashes in the names of claims
      and clusters. */
  lemma SetsCanShareAPvc()
    ensures PvcName(Name("data"), Name(FullName("d", "d-c", 0, 0)), 0) == PvcName(Name("data-d"), Name(FullName("d", "c", 0, 0)), 0)
  {
    var zero := Decimal(0);
    assert FullName("d", "d-c", 0, 0) == "d-d-c-" + zero + "-" + zero;
    assert FullName("d", "c", 0, 0) == "d-c-" + zero + "-" + zero;
    assert "data" + "-" + ("d-d-c-" + zero + "-" + zero) == "data-d" + "-" + ("d-c-" + zero + "-" + zero);
    PvcNamesClashIff(Name("data"), Name(FullName("d", "d-c", 0, 0)), 0, Name("data-d"), Name(FullName("d", "c", 0, 0)), 0);
  }

  /** p is the PVC of a named claim of the set, for one of its pods. */
  predicate Owned(s: StatefulSet, c: Name, i: int, p: Name)
  {
    0 <= i < Replicas(s) && c.text != "" && GetClaim(s.claims, c).Some? && p == PvcName(c, s.name, i)
  }

  /** What a request becomes when an expected size is known. */
  function Expand(size: int, expected: Option<Claim>): (r: int)
  {
    if expected.Some? && Compare(size, expected.value.size) == Increase then expected.value.size else size
  }

  /** The size a PVC is to have once the set `old` has been taken to `cur`. */
  ghost function Goal(was: StatefulSet, cur: StatefulSet, p: Name, size: int): int
  {
    if c, i :| Owned(was, c, i, p) then Expand(size, GetClaim(cur.claims, c)) else size
  }

  /** A PVC of the set goes to the maximum of its size and the expected one when both are set. */
  lemma GoalIsMaximum(was: StatefulSet, cur: StatefulSet, c: Name, i: int, p: Name, size: int)
    requires Owned(was, c, i, p)
    ensures var expected := GetClaim(cur.claims, c);
      Goal(was, cur, p, size) ==
      if expected.Some? && size != 0 && expected.value.size != 0 && expected.value.size > size then expected.value.size else size
  {
    forall d, j | Owned(was, d, j, p)
      ensures d == c
    {
      PvcNamesClashIff(c, was.name, i, d, was.name, j);
    }
  }

  /** Every pod of the set, up to its number of replicas, is covered, and every claim template with a name: the
      PVC called claim, dash, set, dash, ordinal. */
  lemma EveryPodIsCovered(was: StatefulSet, cur: StatefulSet, c: Name, i: nat, size: int)
    requires was.replicas.Some? && i < was.replicas.value && c.text != "" && exists t | t in was.claims :: t.name == c
    ensures var p := Name(c.text + "-" + was.name.text + "-" + Decimal(i));
      Goal(was, cur, p, size) ==
      match GetClaim(cur.claims, c)
      case Some(t) => if size != 0 && t.size != 0 && t.size > size then t.size else size
      case None => size
  {
    var p := Name(c.text + "-" + was.name.text + "-" + Decimal(i));
    PvcNameParts(c, was.name, i);
    assert PvcName(c, was.name, i) == p;
    assert Owned(was, c, i, p);
    GoalIsMaximum(was, cur, c, i, p, size);
  }

  /** Without a number of replicas, or beyond it, and for claims without a name, nothing is touched. */
  lemma OthersAreNotCovered(was: StatefulSet, cur: StatefulSet, p: Name, size: int)
    requires forall c: Name, i: nat | c.text != "" && (exists t | t in was.claims :: t.name == c) && was.replicas.Some? && i < was.replicas.value ::
      p != PvcName(c, was.name, i)
    ensures Goal(was, cur, p, size) == size
  {
    forall c: Name, i: int
      ensures !Owned(was, c, i, p)
    {
    }
  }

  // ---- the store and what one call does to it ----

  /** The PVCs held by the API server; `fails` says which calls to it do. */
  class Client {
    var pvcs: Sizes
    var calls: nat
    const fails: nat -> bool

    constructor (pvcs: Sizes, fails: nat -> bool)
      ensures this.pvcs == pvcs && this.fails == fails
    {
      this.pvcs := pvcs;
      this.calls := 0;
      this.fails := fails;
    }

    ghost predicate Reliable()
    {
      forall n :: !fails(n)
    }

    method Get(p: Name) returns (ok: bool, pvc: Option<Pvc>)
      modifies this`calls
      ensures ok <==> !fails(old(calls))
      ensures ok ==> pvc == if p in pvcs then Some(Pvc(p, pvcs[p])) else None
    {
      ok := !fails(calls);
      calls := calls + 1;
      pvc := if p in pvcs then Some(Pvc(p, pvcs[p])) else None;
    }

    method Update(pvc: Pvc) returns (ok: bool)
      modifies this
      ensures ok <==> !fails(old(calls)) && pvc.name in old(pvcs)
      ensures ok ==> pvcs == old(pvcs)[pvc.name := pvc.size]
      ensures !ok ==> pvcs == old(pvcs)
    {
      ok := !fails(calls) && pvc.name in pvcs;
      calls := calls + 1;
      if ok {
        pvcs := pvcs[pvc.name := pvc.size];
      }
    }

    /** RetrieveActualPVCs: all PVCs of the set, by claim name. */
    method RetrieveActualPVCs(s: StatefulSet) returns (ok: bool, found: map<Name, seq<Pvc>>)
      modifies this`calls
      ensures ok ==> OnlyOwned(s, pvcs, found) && forall c, i, p | Owned(s, c, i, p) && p in pvcs :: Includes(found, c, p)
      ensures Reliable() ==> ok
    {
      found := map[];
      var i := 0;
      while i < Replicas(s)
        invariant 0 <= i && OnlyOwned(s, pvcs, found) && Complete(s, pvcs, found, i, 0)
        invariant i <= Replicas(s) || i == 0
      {
        for k := 0 to |s.claims|
          invariant OnlyOwned(s, pvcs, found) && Complete(s, pvcs, found, i, k)
        {
          var c := s.claims[k].name;
          if c.text == "" {
            continue;
          }
          var got, pvc := Get(PvcName(c, s.name, i));
          if !got {
            return false, map[];
          }
          if pvc.Some? {
            FoundOneMore(s, pvcs, found, i, k);
            found := Found(found, c, pvc.value);
          }
        }
        i := i + 1;
      }
      AllFound(s, pvcs, found, i);
      ok := true;
    }

    /** resizePVCs, with the map of PVCs iterated in any order. */
    method ResizePVCs(cur: StatefulSet, was: StatefulSet) returns (ok: bool)
      modifies this
      ensures Between(was, cur, old(pvcs), pvcs)
      ensures ok ==> Reached(was, cur, old(pvcs), pvcs)
      ensures Reliable() ==> ok
    {
      var found;
      ok, found := RetrieveActualPVCs(was);
      if !ok {
        return;
      }
      ghost var before := pvcs;
      var todo := found.Keys;
      while todo != {}
        invariant todo <= found.Keys
        invariant ok && Between(was, cur, before, pvcs)
        invariant forall c | c in found && c !in todo :: Settled(was, cur, before, pvcs, found[c], |found[c]|)
      {
        var c := Pick(todo);
        todo := todo - {c};
        var expected := GetClaim(cur.claims, c);
        forall k | 0 <= k < |found[c]|
          ensures found[c][k].name in before && before[found[c][k].name] == found[c][k].size
          ensures Goal(was, cur, found[c][k].name, found[c][k].size) == Expand(found[c][k].size, expected)
        {
          OwnedGoal(was, cur, c, found[c][k].name, found[c][k].size);
        }
        ok := ResizeClaim(found[c], expected, was, cur, before);
        if !ok {
          return;
        }
      }
    }

    /** The inner loop of resizePVCs, over the PVCs of one claim. */
    method ResizeClaim(vs: seq<Pvc>, expected: Option<Claim>, was: StatefulSet, cur: StatefulSet, ghost before: Sizes) returns (ok: bool)
      requires Between(was, cur, before, pvcs)
      requires forall k | 0 <= k < |vs| :: vs[k].name in before && before[vs[k].name] == vs[k].size
      requires forall k | 0 <= k < |vs| :: Goal(was, cur, vs[k].name, vs[k].size) == Expand(vs[k].size, expected)
      modifies this
      ensures Between(was, cur, before, pvcs) && Advances(was, cur, before, old(pvcs), pvcs)
      ensures ok ==> Settled(was, cur, before, pvcs, vs, |vs|)
      ensures Reliable() ==> ok
    {
      for k := 0 to |vs|
        invariant Between(was, cur, before, pvcs) && Advances(was, cur, before, old(pvcs), pvcs)
        invariant Settled(was, cur, before, pvcs, vs, k)
      {
        var pvc := vs[k];
        if expected.Some? && Compare(pvc.size, expected.value.size) == Increase {
          ok := Update(pvc.(size := expected.value.size));
          if !ok {
            return;
          }
        }
      }
      ok := true;
    }

    /** handleVolumeExpansion; nothing is done for a set that needs to be recreated. */
    method HandleVolumeExpansion(cur: StatefulSet, was: StatefulSet, validateClass: bool, expandable: set<Claim>) returns (recreate: bool, ok: bool)
      modifies this
      ensures Expanded(was, cur, validateClass, expandable, old(pvcs), pvcs, ok)
      ensures Reliable() ==> (ok <==> ValidateClaimsStorageUpdate(was.claims, cur.claims, validateClass, expandable))
      ensures recreate <==> ok && NeedsRecreate(cur, was)
    {
      if !ValidateClaimsStorageUpdate(was.claims, cur.claims, validateClass, expandable) {
        return false, false;
      }
      ok := ResizePVCs(cur, was);
      recreate := ok && NeedsRecreate(cur, was);
    }
  }

  /** needsRecreate: some claim template has grown. */
  predicate NeedsRecreate(cur: StatefulSet, was: StatefulSet)
  {
    exists c | c in cur.claims ::
      var actual := GetClaim(was.claims, c.name);
      actual.Some? && Compare(actual.value.size, c.size) == Increase
  }

  /** Re-creation is asked for exactly if some claim that was there before, and has a size then and now, has
      grown. */
  lemma NeedsRecreateIff(cur: StatefulSet, was: StatefulSet)
    ensures NeedsRecreate(cur, was) <==>
            exists c, t | c in cur.claims && GetClaim(was.claims, c.name) == Some(t) :: t.size != 0 && c.size != 0 && c.size > t.size
  {
    if c, t :| c in cur.claims && GetClaim(was.claims, c.name) == Some(t) && t.size != 0 && c.size != 0 && c.size > t.size {
      assert Compare(t.size, c.size) == Increase;
    }
    if c :| c in cur.claims && GetClaim(was.claims, c.name).Some? && Compare(GetClaim(was.claims, c.name).value.size, c.size) == Increase {
      var t := GetClaim(was.claims, c.name).value;
      assert GetClaim(was.claims, c.name) == Some(t) && c.size > t.size;
    }
  }

  /** No PVC appears or disappears and each is as before or where it is to go. */
  ghost predicate Between(was: StatefulSet, cur: StatefulSet, before: Sizes, after: Sizes)
  {
    after.Keys == before.Keys && forall p | p in before :: after[p] == before[p] || after[p] == Goal(was, cur, p, before[p])
  }

  /** Every PVC is where it is to go. */
  ghost predicate Reached(was: StatefulSet, cur: StatefulSet, before: Sizes, after: Sizes)
  {
    after.Keys == before.Keys && forall p | p in before :: after[p] == Goal(was, cur, p, before[p])
  }

  /** What one call of handleVolumeExpansion may do. */
  ghost predicate Expanded(was: StatefulSet, cur: StatefulSet, validateClass: bool, expandable: set<Claim>, before: Sizes, after: Sizes, ok: bool)
  {
    if !ValidateClaimsStorageUpdate(was.claims, cur.claims, validateClass, expandable) then !ok && after == before
    else if ok then Reached(was, cur, before, after)
    else Between(was, cur, before, after)
  }

  /** From one moment to the next PVCs stay or go where they are to go. */
  ghost predicate Advances(was: StatefulSet, cur: StatefulSet, before: Sizes, mid: Sizes, now: Sizes)
    requires mid.Keys <= before.Keys
  {
    now.Keys == mid.Keys && forall p | p in mid :: now[p] == mid[p] || now[p] == Goal(was, cur, p, before[p])
  }

  ghost predicate Settled(was: StatefulSet, cur: StatefulSet, before: Sizes, now: Sizes, vs: seq<Pvc>, k: nat)
  {
    forall j | 0 <= j < k && j < |vs| :: vs[j].name in before && vs[j].name in now && now[vs[j].name] == Goal(was, cur, vs[j].name, before[vs[j].name])
  }

  lemma OwnedGoal(was: StatefulSet, cur: StatefulSet, c: Name, p: Name, size: int)
    requires OwnedBy(was, c, p)
    ensures Goal(was, cur, p, size) == Expand(size, GetClaim(cur.claims, c))
  {
    var i :| 0 <= i < Replicas(was) && Owned(was, c, i, p);
    GoalIsMaximum(was, cur, c, i, p, size);
  }

  predicate Includes(found: map<Name, seq<Pvc>>, c: Name, p: Name)
  {
    c in found && exists v | v in found[c] :: v.name == p
  }

  predicate OwnedBy(s: StatefulSet, c: Name, p: Name)
  {
    exists i | 0 <= i < Replicas(s) :: Owned(s, c, i, p)
  }

  ghost predicate OnlyOwned(s: StatefulSet, pvcs: Sizes, found: map<Name, seq<Pvc>>)
  {
    forall c, v | c in found && v in found[c] :: OwnedBy(s, c, v.name) && v.name in pvcs && pvcs[v.name] == v.size
  }

  function Found(found: map<Name, seq<Pvc>>, c: Name, v: Pvc): map<Name, seq<Pvc>>
  {
    found[c := (if c in found then found[c] else []) + [v]]
  }

  predicate Seen(s: StatefulSet, pvcs: Sizes, found: map<Name, seq<Pvc>>, i: nat, k: nat)
    requires k < |s.claims|
  {
    var c := s.claims[k].name;
    c.text != "" && PvcName(c, s.name, i) in pvcs ==> Includes(found, c, PvcName(c, s.name, i))
  }

  /** All pods below the i-th and, for that one, all claims below the k-th have been asked for. */
  ghost predicate Complete(s: StatefulSet, pvcs: Sizes, found: map<Name, seq<Pvc>>, i: nat, k: nat)
  {
    forall j: nat, m: nat | m < |s.claims| && (j < i || (j == i && m < k)) :: Seen(s, pvcs, found, j, m)
  }

  lemma FoundOneMore(s: StatefulSet, pvcs: Sizes, found: map<Name, seq<Pvc>>, i: nat, k: nat)
    requires OnlyOwned(s, pvcs, found) && Complete(s, pvcs, found, i, k)
    requires k < |s.claims| && i < Replicas(s) && s.claims[k].name.text != "" && PvcName(s.claims[k].name, s.name, i) in pvcs
    ensures var c := s.claims[k].name;
      var p := PvcName(c, s.name, i);
      var r := Found(found, c, Pvc(p, pvcs[p]));
      OnlyOwned(s, pvcs, r) && Complete(s, pvcs, r, i, k + 1)
  {
    var c := s.claims[k].name;
    var p := PvcName(c, s.name, i);
    var r := Found(found, c, Pvc(p, pvcs[p]));
    assert Owned(s, c, i, p);
    assert Pvc(p, pvcs[p]) in r[c];
    forall d, q | Includes(found, d, q)
      ensures Includes(r, d, q)
    {
      var v :| v in found[d] && v.name == q;
      assert v in r[d];
    }
    forall j: nat, m: nat | m < |s.claims| && (j < i || (j == i && m < k + 1))
      ensures Seen(s, pvcs, r, j, m)
    {
      assert (j == i && m == k) || Seen(s, pvcs, found, j, m);
      assert Includes(r, c, p);
    }
    assert OwnedBy(s, c, p);
    assert OnlyOwned(s, pvcs, r);
  }

  lemma AllFound(s: StatefulSet, pvcs: Sizes, found: map<Name, seq<Pvc>>, i: nat)
    requires Complete(s, pvcs, found, i, 0) && Replicas(s) <= i
    ensures forall c, j, p | Owned(s, c, j, p) && p in pvcs :: Includes(found, c, p)
  {
    forall c, j, p | Owned(s, c, j, p) && p in pvcs
      ensures Includes(found, c, p)
    {
      var claim := GetClaim(s.claims, c).value;
      var m :| 0 <= m < |s.claims| && s.claims[m] == claim;
      assert Seen(s, pvcs, found, j, m);
    }
  }

  // ---- whole runs ----

  datatype Call = Call(was: StatefulSet, cur: StatefulSet, validateClass: bool, expandable: set<Claim>, ok: bool)

  /** States of the store with a call of handleVolumeExpansion between each two, for any sets and any of
      them refused or cut short. */
  ghost predicate IsRun(states: seq<Sizes>, calls: seq<Call>)
  {
    && |states| == |calls| + 1
    && forall k | 0 <= k < |calls| :: IsCall(calls[k], states[k], states[k + 1])
  }

  ghost predicate IsCall(c: Call, before: Sizes, after: Sizes)
  {
    Expanded(c.was, c.cur, c.validateClass, c.expandable, before, after, c.ok)
  }

  lemma GoalGrows(was: StatefulSet, cur: StatefulSet, p: Name, size: int)
    ensures Goal(was, cur, p, size) >= size
    ensures size == 0 ==> Goal(was, cur, p, size) == 0
    ensures Goal(was, cur, p, Goal(was, cur, p, size)) == Goal(was, cur, p, size)
  {
    if c, i :| Owned(was, c, i, p) {
      GoalIsMaximum(was, cur, c, i, p, size);
      GoalIsMaximum(was, cur, c, i, p, Goal(was, cur, p, size));
    }
  }

  /** Over any run no PVC shrinks, appears or disappears, and one without a request never gets one. */
  lemma {:induction false} NeverShrinks(states: seq<Sizes>, calls: seq<Call>, i: nat, j: nat, p: Name)
    requires IsRun(states, calls) && i <= j < |states|
    ensures p in states[i] <==> p in states[j]
    ensures p in states[i] && p in states[j] ==>
      states[i][p] <= states[j][p] && (states[i][p] == 0 ==> states[j][p] == 0)
  {
    if i < j {
      NeverShrinks(states, calls, i, j - 1, p);
      assert IsCall(calls[j - 1], states[j - 1], states[j]);
      if p in states[j - 1] {
        GoalGrows(calls[j - 1].was, calls[j - 1].cur, p, states[j - 1][p]);
      }
    }
  }

  /** After a successful call for its set a PVC is at least as large as its claim, however the run goes on. */
  lemma StaysExpanded(states: seq<Sizes>, calls: seq<Call>, k: nat, j: nat, c: Name, i: int, p: Name)
    requires IsRun(states, calls) && k < j < |states| && calls[k].ok
    requires Owned(calls[k].was, c, i, p) && p in states[k] && states[k][p] != 0
    requires GetClaim(calls[k].cur.claims, c).Some?
    ensures p in states[j] && (GetClaim(calls[k].cur.claims, c).value.size != 0 ==> states[j][p] >= GetClaim(calls[k].cur.claims, c).value.size)
  {
    assert IsCall(calls[k], states[k], states[k + 1]);
    GoalIsMaximum(calls[k].was, calls[k].cur, c, i, p, states[k][p]);
    NeverShrinks(states, calls, k + 1, j, p);
  }

  /** The call asks for that size of the PVC. */
  predicate AsksFor(call: Call, p: Name, size: int)
  {
    exists c | c in call.cur.claims :: OwnedBy(call.was, c.name, p) && c.size == size
  }

  /** The size of a PVC is the one it started with or one a call of the run asked for. */
  lemma {:induction false} SizesAreAskedFor(states: seq<Sizes>, calls: seq<Call>, j: nat, p: Name)
    requires IsRun(states, calls) && j < |states| && p in states[j]
    ensures p in states[0] && (states[j][p] == states[0][p] || exists k | 0 <= k < j :: AsksFor(calls[k], p, states[j][p]))
  {
    if j > 0 {
      var call := calls[j - 1];
      assert IsCall(call, states[j - 1], states[j]);
      SizesAreAskedFor(states, calls, j - 1, p);
      if states[j][p] != states[j - 1][p] {
        GoalFromClaim(call.was, call.cur, p, states[j - 1][p]);
        assert AsksFor(call, p, states[j][p]);
      }
    }
  }

  lemma GoalFromClaim(was: StatefulSet, cur: StatefulSet, p: Name, size: int)
    ensures Goal(was, cur, p, size) != size ==> exists c | c in cur.claims :: OwnedBy(was, c.name, p) && c.size == Goal(was, cur, p, size)
  {
    if c, i :| Owned(was, c, i, p) {
      GoalIsMaximum(was, cur, c, i, p, size);
      assert OwnedBy(was, c, p);
    }
  }

  /** Calls that take one set to one spec may fail halfway any number of times: as soon as one succeeds,
      and ever after, all PVCs are exactly where a single successful call would have put them. */
  lemma {:induction false} RetriesReachGoal(states: seq<Sizes>, calls: seq<Call>, was: StatefulSet, cur: StatefulSet, j: nat)
    requires IsRun(states, calls) && j < |states|
    requires forall k | 0 <= k < |calls| :: calls[k].was == was && calls[k].cur == cur
    ensures Between(was, cur, states[0], states[j])
    ensures (exists k | 0 <= k < j :: calls[k].ok) ==> Reached(was, cur, states[0], states[j])
  {
    if j > 0 {
      RetriesReachGoal(states, calls, was, cur, j - 1);
      assert IsCall(calls[j - 1], states[j - 1], states[j]);
      OneMoreTry(calls[j - 1], states[0], states[j - 1], states[j]);
    }
  }

  lemma OneMoreTry(c: Call, start: Sizes, before: Sizes, after: Sizes)
    requires Between(c.was, c.cur, start, before) && IsCall(c, before, after)
    ensures Between(c.was, c.cur, start, after)
    ensures c.ok || Reached(c.was, c.cur, start, before) ==> Reached(c.was, c.cur, start, after)
  {
    forall p | p in start {
      GoalGrows(c.was, c.cur, p, start[p]);
    }
  }

  /** A second successful call changes nothing. */
  lemma SecondExpansionChangesNothing(c: Call, d: Call, before: Sizes, mid: Sizes, after: Sizes)
    requires IsCall(c, before, mid) && IsCall(d, mid, after) && c.ok && c.was == d.was && c.cur == d.cur
    ensures after == mid
  {
    forall p | p in before {
      GoalGrows(c.was, c.cur, p, before[p]);
    }
  }

  // ---- reduced requests ----

  /** Requests are checked against the claim templates, which never change, and not against the PVCs: one
      that is below the size of a PVC is let through exactly if it, or that of the template, is not set,
      or it is not below the template; the PVC then keeps its size. */
  lemma ReductionPassesIff(was: StatefulSet, cur: StatefulSet, c: Claim, i: int, p: Name, size: int)
    requires Owned(was, c.name, i, p) && GetClaim(cur.claims, c.name) == Some(c) && c.size < size
    ensures var template := GetClaim(was.claims, c.name).value.size;
      ValidClaim(was.claims, c, false, {}) <==> template == 0 || c.size == 0 || template <= c.size
    ensures Goal(was, cur, p, size) == size != c.size
  {
    GoalIsMaximum(was, cur, c.name, i, p, size);
  }

  /** The claim has no template, or asks for less than a template with a size. */
  predicate Refused(initial: seq<Claim>, c: Claim)
  {
    var template := GetClaim(initial, c.name);
    template.None? || (template.value.size != 0 && c.size != 0 && c.size < template.value.size)
  }

  /** For a whole call, as the reconcile loop makes it, in which nothing fails: reducing the request of a
      PVC is refused exactly if some claim is below its template or new, and has no effect either way. */
  lemma ReductionRefusedIff(call: Call, before: Sizes, after: Sizes, c: Claim, i: int, p: Name)
    requires IsCall(call, before, after) && !call.validateClass
    requires call.ok <==> ValidateClaimsStorageUpdate(call.was.claims, call.cur.claims, false, call.expandable)
    requires Owned(call.was, c.name, i, p) && GetClaim(call.cur.claims, c.name) == Some(c)
    requires p in before && c.size < before[p]
    ensures !call.ok <==> exists d | d in call.cur.claims :: Refused(call.was.claims, d)
    ensures p in after && after[p] == before[p]
  {
    ValidUpdateIff(call.was.claims, call.cur.claims, false, call.expandable);
    assert forall d | d in call.cur.claims ::
        ValidClaim(call.was.claims, d, false, call.expandable) <==> !Refused(call.was.claims, d);
    GoalIsMaximum(call.was, call.cur, c.name, i, p, before[p]);
  }

  /** A PVC expanded to 20, of a template of 10 or of one without a size, survives a successful call that
      asks for 15. */
  method ReductionAccepted(template: int) returns (client: Client, ok: bool)
    requires template == 10 || template == 0
    ensures ok && client.pvcs == map[PvcName(Name("data"), Name("s"), 0) := 20]
  {
    var data := Name("data");
    var was := StatefulSet(Name("s"), Some(1), [Claim(data, template)]);
    var cur := was.(claims := [Claim(data, 15)]);
    client := new Client(map[PvcName(data, Name("s"), 0) := 20], _ => false);
    ghost var before := client.pvcs;
    var recreate;
    recreate, ok := client.HandleVolumeExpansion(cur, was, false, {});
    assert GetClaim(was.claims, data) == Some(Claim(data, template)) && GetClaim(cur.claims, data) == Some(Claim(data, 15));
    ValidUpdateIff(was.claims, cur.claims, false, {});
    assert Owned(was, data, 0, PvcName(data, Name("s"), 0));
    GoalIsMaximum(was, cur, data, 0, PvcName(data, Name("s"), 0), 20);
  }
}
