/** Delete-slots: which ordinals the replicas of a shard get, and the two loops that fill the shard
    and replica maps (controllers/daisymanager/normalizer.go). */
module Slots {
  import opened Commons
  import opened Text
  import opened Names
  import opened Annotations

  function Elements<T>(l: seq<T>): set<T>
  {
    set v | v in l
  }

  lemma {:induction false} ElementsSize<T>(l: seq<T>)
    requires NoRepeats(l)
    ensures |Elements(l)| == |l|
  {
    if l != [] {
      var m := l[..|l| - 1];
      ElementsSize(m);
      assert l == m + [l[|l| - 1]];
      assert Elements(l) == Elements(m) + {l[|l| - 1]};
    }
  }

  /** The naturals below n. */
  function Below(n: int): (s: set<nat>)
    ensures forall i: nat :: i in s <==> i < n
    ensures |s| == if n <= 0 then 0 else n
  {
    if n <= 0 then {} else Below(n - 1) + {n - 1}
  }

  // ---- the reference meaning: the i-th natural number outside a set ----

  /** How many naturals below n are outside `skip`. */
  function FreeBelow(n: nat, skip: set<int>): nat
  {
    if n == 0 then 0 else FreeBelow(n - 1, skip) + if n - 1 in skip then 0 else 1
  }

  /** r is outside `skip` and exactly i naturals below it are too. */
  predicate IsNth(r: int, i: nat, skip: set<int>)
  {
    r >= 0 && r !in skip && FreeBelow(r, skip) == i
  }

  function Within(skip: set<int>, lo: int, hi: int): set<int>
  {
    set v | v in skip && lo <= v < hi
  }

  function Negatives(skip: set<int>): set<int>
  {
    set v | v in skip && v < 0
  }

  lemma {:induction false} FreeBelowCounts(n: nat, skip: set<int>)
    ensures FreeBelow(n, skip) + |Within(skip, 0, n)| == n
    ensures |Within(skip, 0, n)| <= |skip|
  {
    if n > 0 {
      FreeBelowCounts(n - 1, skip);
      var less := Within(skip, 0, n - 1);
      assert Within(skip, 0, n) == if n - 1 in skip then less + {n - 1} else less;
    }
    SubsetSize(Within(skip, 0, n), skip);
  }

  lemma {:induction false} FreeBelowMonotone(m: nat, n: nat, skip: set<int>)
    requires m < n
    ensures FreeBelow(m, skip) <= FreeBelow(n, skip)
    ensures m !in skip ==> FreeBelow(m, skip) < FreeBelow(n, skip)
  {
    if m < n - 1 {
      FreeBelowMonotone(m, n - 1, skip);
    }
  }

  /** The i-th natural outside `skip`. */
  function Nth(i: nat, skip: set<int>): (r: nat)
    ensures IsNth(r, i, skip)
  {
    NthFrom(0, i, skip)
  }

  function NthFrom(n: nat, i: nat, skip: set<int>): (r: nat)
    requires FreeBelow(n, skip) <= i
    ensures IsNth(r, i, skip)
    decreases i + |skip| - n
  {
    FreeBelowCounts(n, skip);
    FreeBelowCounts(n + 1, skip);
    if n !in skip && FreeBelow(n, skip) == i then n else NthFrom(n + 1, i, skip)
  }

  lemma NthUnique(r: int, q: int, i: nat, skip: set<int>)
    requires IsNth(r, i, skip) && IsNth(q, i, skip)
    ensures r == q
  {
    if r < q {
      FreeBelowMonotone(r, q, skip);
    } else if q < r {
      FreeBelowMonotone(q, r, skip);
    }
  }

  /** Nth is strictly increasing, its image is the complement of `skip`, and it moves an index
      by at most |skip|. */
  lemma NthIsSelection(skip: set<int>)
    ensures forall i: nat, j: nat :: i < j ==> Nth(i, skip) < Nth(j, skip)
    ensures forall r: nat :: r !in skip <==> exists i: nat :: Nth(i, skip) == r
    ensures forall i: nat :: i <= Nth(i, skip) <= i + |skip|
  {
    forall i: nat, j: nat | i < j
      ensures Nth(i, skip) < Nth(j, skip)
    {
      if Nth(j, skip) < Nth(i, skip) {
        FreeBelowMonotone(Nth(j, skip), Nth(i, skip), skip);
      }
    }
    forall r: nat | r !in skip
      ensures exists i: nat :: Nth(i, skip) == r
    {
      NthUnique(Nth(FreeBelow(r, skip), skip), r, FreeBelow(r, skip), skip);
    }
    forall i: nat
      ensures i <= Nth(i, skip) <= i + |skip|
    {
      FreeBelowCounts(Nth(i, skip), skip);
    }
  }

  // ---- getNextIndex ----

  ghost predicate Increasing(l: seq<int>)
  {
    forall i, j :: 0 <= i < j < |l| ==> l[i] < l[j]
  }

  /** sets.Int.List: the members in ascending order. */
  method Ascending(s: set<int>) returns (l: seq<int>)
    ensures Increasing(l) && forall v :: v in l <==> v in s
    ensures |l| == |s|
  {
    l := [];
    var rest := s;
    while rest != {}
      invariant rest <= s && |l| + |rest| == |s|
      invariant Increasing(l)
      invariant forall v :: v in l <==> v in s && v !in rest
      invariant forall i, w :: 0 <= i < |l| && w in rest ==> l[i] < w
    {
      var low := Pick(rest);
      var left := rest - {low};
      while left != {}
        invariant low in rest && left <= rest
        invariant forall v | v in rest && v !in left :: low <= v
      {
        var v := Pick(left);
        if v < low {
          low := v;
        }
        left := left - {v};
      }
      l, rest := l + [low], rest - {low};
    }
  }

  /** The index the code computes, for any slots: with k negative slots it is the (index + k)-th
      natural outside `skip`. */
  function NextIndex(index: nat, skip: set<int>): nat
  {
    Nth(index + |Negatives(skip)|, skip)
  }

  lemma SlotBelowIff(l: seq<int>, skip: set<int>, j: nat, r: nat, v: int)
    requires Increasing(l) && forall x :: x in l <==> x in skip
    requires j <= |l|
    requires j > 0 ==> l[j - 1] < r
    requires j < |l| ==> r < l[j]
    ensures v in l[..j] <==> v in skip && v < r
    ensures v in skip ==> v != r
  {
    if v in skip {
      var q :| 0 <= q < |l| && l[q] == v;
      assert q < j ==> l[..j][q] == v;
    }
  }

  /** The slots below a number that lies between two neighbours of the sorted slots. */
  lemma SlotsBelow(l: seq<int>, skip: set<int>, j: nat, r: nat)
    requires Increasing(l) && forall v :: v in l <==> v in skip
    requires j <= |l|
    requires j > 0 ==> l[j - 1] < r
    requires j < |l| ==> r < l[j]
    ensures r !in skip && |Negatives(skip)| + |Within(skip, 0, r)| == j
  {
    ElementsSize(l[..j]);
    forall v {
      SlotBelowIff(l, skip, j, r, v);
    }
    assert Elements(l[..j]) == Negatives(skip) + Within(skip, 0, r);
  }

  /** A number lying strictly between two neighbours of the sorted slots, j of them below it, and
      equal to index + j, is NextIndex. */
  lemma BetweenSlots(l: seq<int>, skip: set<int>, j: nat, index: nat)
    requires Increasing(l) && forall v :: v in l <==> v in skip
    requires j <= |l|
    requires j > 0 ==> l[j - 1] < index + j
    requires j < |l| ==> index + j < l[j]
    ensures index + j == NextIndex(index, skip)
  {
    var r := index + j;
    SlotsBelow(l, skip, j, r);
    FreeBelowCounts(r, skip);
    NthUnique(r, NextIndex(index, skip), index + |Negatives(skip)|, skip);
  }

  /** getNextIndex. */
  method GetNextIndex(index: nat, skip: set<int>) returns (r: nat)
    ensures r == NextIndex(index, skip)
  {
    if |skip| == 0 {
      BetweenSlots([], skip, 0, index);
      return index;
    }
    var tmp := Ascending(skip);
    var index' := index + 1;
    var g := tmp[0];
    var c := tmp[0] + 1;
    if g >= index' {
      BetweenSlots(tmp, skip, 0, index);
      return index' - 1;
    }
    for j := 0 to |tmp|
      invariant g < index'
      invariant c == tmp[if j == 0 then 0 else j - 1] + 1
      invariant g == c - if j == 0 then 1 else j
    {
      var v := tmp[j];
      if v > c {
        if g + v - c >= index' {
          BetweenSlots(tmp, skip, j, index);
          return c + index' - g - 1;
        }
        g := g + v - c;
      }
      c := v + 1;
    }
    BetweenSlots(tmp, skip, |tmp|, index);
    return c + index' - g - 1;
  }

  /** getNextIndex is the index-th unskipped natural exactly when no slot is negative. */
  lemma NextIndexRightIff(index: nat, skip: set<int>)
    ensures IsNth(NextIndex(index, skip), index, skip) <==> forall v | v in skip :: v >= 0
  {
    assert forall v | v in skip && v < 0 :: v in Negatives(skip);
    assert (forall v | v in skip :: v >= 0) ==> Negatives(skip) == {};
    if IsNth(NextIndex(index, skip), index, skip) {
      assert |Negatives(skip)| == 0;
    }
  }

  /** A single slot of -1 shifts every replica by one. */
  lemma NegativeSlotShifts()
    ensures NextIndex(0, {-1}) == 1
  {
    assert Negatives({-1}) == {-1};
    assert IsNth(1, 1, {-1});
    NthUnique(1, NextIndex(0, {-1}), 1, {-1});
  }

  // ---- which ordinals a shard gets ----

  /** normalizeShardReplicasCount. */
  function ReplicaCount(layout: int, slots: set<int>): int
  {
    if layout > |slots| then layout - |slots| else layout
  }

  /** The slots left in force once normalizeShard has compared the count with the layout. */
  function SlotsInForce(layout: int, slots: set<int>): set<int>
  {
    if ReplicaCount(layout, slots) == layout then {} else slots
  }

  /** The ordinals of the replicas of a fresh shard, in the order they are created. */
  function OrdinalList(layout: int, slots: set<int>): (l: seq<nat>)
  {
    var count := ReplicaCount(layout, slots);
    seq(if count < 0 then 0 else count, (i: nat) => NextIndex(i, SlotsInForce(layout, slots)))
  }

  function Ordinals(layout: int, slots: set<int>): set<nat>
  {
    Elements(OrdinalList(layout, slots))
  }

  /** `chosen` consists of the smallest naturals outside `skip`. */
  ghost predicate SmallestOutside(chosen: set<nat>, skip: set<int>)
  {
    forall r: nat, o :: o in chosen && r <= o ==> (r in chosen <==> r !in skip)
  }

  lemma SmallestOutsideUnique(a: set<nat>, b: set<nat>, skip: set<int>)
    requires SmallestOutside(a, skip) && SmallestOutside(b, skip) && |a| == |b|
    ensures a == b
  {
    if a <= b {
      SubsetSize(a, b);
    } else {
      var x :| x in a && x !in b;
      forall y | y in b
        ensures y in a
      {
        assert y < x;
      }
      SubsetSize(b, a);
    }
  }

  /** With non-negative slots fewer than the layout asks replicas, a shard gets the smallest
      layout - |slots| naturals outside the slots, all of them below the layout; otherwise the slots
      are ignored. A shard is never left empty. */
  lemma OrdinalsExact(layout: int, slots: set<int>)
    requires forall v | v in slots :: v >= 0
    ensures layout > |slots| ==>
      SmallestOutside(Ordinals(layout, slots), slots) && |Ordinals(layout, slots)| == layout - |slots|
    ensures layout <= |slots| ==> Ordinals(layout, slots) == Below(layout)
    ensures forall o | o in Ordinals(layout, slots) :: o < layout
    ensures layout > |slots| && (forall v | v in slots :: v < layout) ==>
      Ordinals(layout, slots) == set i | i in Below(layout) && i !in slots
    ensures layout > 0 ==> Ordinals(layout, slots) != {}
  {
    if layout <= |slots| {
      IgnoredSlots(layout, slots);
    } else {
      AppliedSlots(layout, slots);
      if forall v | v in slots :: v < layout {
        SlotsInRange(layout, slots);
      }
    }
  }

  /** With any slots that are taken into account, negative ones included: o is the ordinal of a replica if it is
      no slot, and among the naturals that are none it is not one of the first |negative slots| and belongs to
      the layout - |slots| after those. */
  lemma OrdinalsOfAnySlots(layout: int, slots: set<int>, o: nat)
    requires |slots| < layout
    ensures var g := |Negatives(slots)|;
      o in Ordinals(layout, slots) <==> o !in slots && g <= FreeBelow(o, slots) < g + layout - |slots|
  {
    var g, l := |Negatives(slots)|, OrdinalList(layout, slots);
    assert SlotsInForce(layout, slots) == slots;
    if o in l {
      var i :| 0 <= i < |l| && l[i] == o;
      assert IsNth(Nth(i + g, slots), i + g, slots);
    }
    if o !in slots && g <= FreeBelow(o, slots) < g + layout - |slots| {
      var i := FreeBelow(o, slots) - g;
      NthUnique(o, Nth(i + g, slots), i + g, slots);
      assert l[i] == o;
    }
  }

  lemma SlotsInRange(layout: int, slots: set<int>)
    requires layout > |slots| && forall v | v in slots :: 0 <= v < layout
    ensures Ordinals(layout, slots) == set i | i in Below(layout) && i !in slots
  {
    AppliedSlots(layout, slots);
    var free := set i | i in Below(layout) && i !in slots;
    var taken := set i | i in Below(layout) && i in slots;
    assert Below(layout) == free + taken;
    SameSize(taken, slots);
    SmallestOutsideUnique(Ordinals(layout, slots), free, slots);
  }

  lemma IgnoredSlots(layout: int, slots: set<int>)
    requires layout <= |slots|
    ensures Ordinals(layout, slots) == Below(layout)
  {
    var l := OrdinalList(layout, slots);
    forall i | 0 <= i < |l|
      ensures l[i] == i
    {
      assert Negatives({}) == {};
      NthIsSelection({});
    }
    forall o: nat
      ensures o in l <==> o in Below(layout)
    {
      if o < |l| {
        assert l[o] == o;
      }
    }
  }

  lemma AppliedSlots(layout: int, slots: set<int>)
    requires forall v | v in slots :: v >= 0
    requires layout > |slots|
    ensures SmallestOutside(Ordinals(layout, slots), slots) && |Ordinals(layout, slots)| == layout - |slots|
    ensures forall o | o in Ordinals(layout, slots) :: o < layout
  {
    assert Negatives(slots) == {};
    NthIsSelection(slots);
    assert SlotsInForce(layout, slots) == slots;
    var l := OrdinalList(layout, slots);
    assert forall i | 0 <= i < |l| :: l[i] == Nth(i, slots);
    ElementsSize(l);
    forall r: nat, o | o in l && r <= o && r !in slots
      ensures r in l
    {
      var i :| 0 <= i < |l| && l[i] == o;
      SmallerIsListed(slots, l, r, i);
    }
  }

  lemma SmallerIsListed(slots: set<int>, l: seq<nat>, r: nat, i: nat)
    requires forall j | 0 <= j < |l| :: l[j] == Nth(j, slots)
    requires i < |l| && r <= l[i] && r !in slots
    ensures r in l
  {
    NthIsSelection(slots);
    var j: nat :| Nth(j, slots) == r;
    assert j <= i;
    assert l[j] == r;
  }

  lemma {:induction false} SameSize(a: set<nat>, b: set<int>)
    requires forall i: int :: i in b <==> i >= 0 && i in a
    ensures |a| == |b|
  {
    if a == {} {
      assert forall i :: i !in b;
    } else {
      var x :| x in a;
      SameSize(a - {x}, b - {x});
    }
  }

  /** Marking the slot of an existing replica removes exactly that replica and renames no other,
      precisely as long as another slot still leaves the shard non-empty. */
  lemma MarkingASlotRemovesItIff(layout: int, slots: set<int>, s: nat)
    requires forall v | v in slots :: v >= 0
    requires |slots| < layout && s in Ordinals(layout, slots)
    ensures Ordinals(layout, slots + {s}) == Ordinals(layout, slots) - {s} <==> |slots| + 1 < layout
  {
    OrdinalsExact(layout, slots);
    OrdinalsExact(layout, slots + {s});
    var before, after := Ordinals(layout, slots), Ordinals(layout, slots + {s});
    assert s !in slots;
    if |slots| + 1 < layout {
      SmallestOutsideUnique(after, before - {s}, slots + {s});
    } else {
      assert |after| == layout;
      SubsetSize(before - {s}, before);
    }
  }

  // ---- the fill loops ----

  /** One round of a fill loop that generates the names in order and stops at as many entries: it
      asks for the name at the current size. */
  function FillStep<K(==), V>(m: map<K, V>, names: seq<K>, v: V): map<K, V>
  {
    if |m| < |names| then m[names[|m|] := v] else m
  }

  function FillSteps<K(==), V>(m: map<K, V>, n: nat, names: seq<K>, v: V): map<K, V>
  {
    if n == 0 then m else FillStep(FillSteps(m, n - 1, names, v), names, v)
  }

  /** No pre-existing key is one of the names the loop is going to generate. */
  ghost predicate NoCollision<K, V>(m: map<K, V>, names: seq<K>)
  {
    forall i | |m| <= i < |names| :: names[i] !in m
  }

  lemma MapGrows<K, V>(m: map<K, V>, k: K, v: V)
    requires k !in m
    ensures |m[k := v]| == |m| + 1
  {
    assert m[k := v].Keys == m.Keys + {k};
    assert |m[k := v]| == |m[k := v].Keys| && |m| == |m.Keys|;
  }

  lemma {:induction false} FillGrows<K, V>(m: map<K, V>, n: nat, names: seq<K>, v: V)
    requires NoRepeats(names) && NoCollision(m, names)
    requires |m| + n <= |names|
    ensures |FillSteps(m, n, names, v)| == |m| + n
    ensures NoCollision(FillSteps(m, n, names, v), names)
  {
    if n > 0 {
      FillGrows(m, n - 1, names, v);
      MapGrows(FillSteps(m, n - 1, names, v), names[|m| + n - 1], v);
    }
  }

  /** One more round of the loop: the next name is new. */
  lemma FillNext<K, V>(m: map<K, V>, n: nat, names: seq<K>, v: V)
    requires NoRepeats(names) && NoCollision(m, names) && |m| + n < |names|
    ensures FillSteps(m, n + 1, names, v) == FillSteps(m, n, names, v)[names[|m| + n] := v]
    ensures |FillSteps(m, n + 1, names, v)| == |m| + n + 1
  {
    FillGrows(m, n, names, v);
    FillGrows(m, n + 1, names, v);
  }

  /** The n names from position lo on. */
  function Segment<K>(names: seq<K>, lo: nat, n: nat): set<K>
    requires lo + n <= |names|
  {
    if n == 0 then {} else Segment(names, lo, n - 1) + {names[lo + n - 1]}
  }

  /** What n collision-free rounds leave in the map: the old entries and the next n names. */
  lemma {:induction false} FillContents<K, V>(m: map<K, V>, n: nat, names: seq<K>, v: V, k: K)
    requires NoRepeats(names) && NoCollision(m, names)
    requires |m| + n <= |names|
    ensures k in FillSteps(m, n, names, v) <==> k in m || k in Segment(names, |m|, n)
    ensures k in FillSteps(m, n, names, v) ==> FillSteps(m, n, names, v)[k] == if k in m then m[k] else v
  {
    if n > 0 {
      FillContents(m, n - 1, names, v, k);
      var before, last := FillSteps(m, n - 1, names, v), |m| + n - 1;
      assert |before| == last && names[last] !in before by {
        FillGrows(m, n - 1, names, v);
      }
      assert FillSteps(m, n, names, v) == before[names[last] := v];
    }
  }

  lemma {:induction false} SegmentIsPrefix<K>(names: seq<K>, n: nat)
    requires n <= |names|
    ensures Segment(names, 0, n) == Elements(names[..n])
  {
    if n > 0 {
      SegmentIsPrefix(names, n - 1);
      assert names[..n] == names[..n - 1] + [names[n - 1]];
    }
  }

  lemma {:induction false} FillStuck<K, V>(m: map<K, V>, n: nat, names: seq<K>, v: V, i: nat)
    requires |m| <= i < |names| && names[i] in m
    ensures |FillSteps(m, n, names, v)| <= i && m.Keys <= FillSteps(m, n, names, v).Keys
  {
    if n > 0 {
      FillStuck(m, n - 1, names, v, i);
      var before := FillSteps(m, n - 1, names, v);
      var after := FillSteps(m, n, names, v);
      assert after.Keys == before.Keys + {names[|before|]};
      if |before| == i {
        assert after.Keys == before.Keys;
      }
      assert |after| == |after.Keys| && |before| == |before.Keys|;
    }
  }

  /** A fill loop ends exactly when no pre-existing key is a name it will generate; it then ends
      with exactly the target size if it started no larger. */
  lemma FillTerminatesIff<K, V>(m: map<K, V>, names: seq<K>, v: V)
    requires NoRepeats(names)
    ensures (exists n: nat :: |FillSteps(m, n, names, v)| >= |names|) <==> NoCollision(m, names)
    ensures |m| <= |names| && NoCollision(m, names) ==> |FillSteps(m, |names| - |m|, names, v)| == |names|
  {
    if NoCollision(m, names) {
      if |m| <= |names| {
        FillGrows(m, |names| - |m|, names, v);
        assert |FillSteps(m, |names| - |m|, names, v)| >= |names|;
      } else {
        assert |FillSteps(m, 0, names, v)| >= |names|;
      }
    } else {
      var i :| |m| <= i < |names| && names[i] in m;
      forall n: nat
        ensures |FillSteps(m, n, names, v)| < |names|
      {
        FillStuck(m, n, names, v, i);
      }
    }
  }

  /** CreateReplicaName. */
  function CreateReplicaName(shard: string, index: nat, skip: set<int>): Name
  {
    Name(ReplicaName(shard, NextIndex(index, skip)))
  }

  /** The replica names a shard generates, in order of index. */
  function ReplicaNames(shard: string, count: int, skip: set<int>): (names: seq<Name>)
    ensures NoRepeats(names)
  {
    var names := seq(if count < 0 then 0 else count, (i: nat) => CreateReplicaName(shard, i, skip));
    ReplicaNamesDistinct(names, shard, skip);
    names
  }

  lemma NameAt(shard: string, count: int, skip: set<int>, i: nat)
    requires i < count
    ensures |ReplicaNames(shard, count, skip)| == count
    ensures ReplicaNames(shard, count, skip)[i] == Name(ReplicaName(shard, NextIndex(i, skip)))
  {
  }

  lemma ReplicaNamesDistinct(names: seq<Name>, shard: string, skip: set<int>)
    requires forall i: nat | i < |names| :: names[i] == CreateReplicaName(shard, i, skip)
    ensures NoRepeats(names)
  {
    NthIsSelection(skip);
    forall i: nat, j: nat | i < j < |names|
      ensures names[i] != names[j]
    {
      if names[i] == names[j] {
        ReplicaNameInjective(shard, NextIndex(i, skip), shard, NextIndex(j, skip));
      }
    }
  }

  /** The shard names a cluster generates, in order of index. */
  function ShardNames(installation: string, cluster: string, count: int): (names: seq<Name>)
    ensures NoRepeats(names)
  {
    var names := seq(if count < 0 then 0 else count, (i: nat) => Name(ShardName(installation, cluster, i)));
    ShardNamesDistinct(names, installation, cluster);
    names
  }

  lemma ShardNamesDistinct(names: seq<Name>, installation: string, cluster: string)
    requires forall i: nat | i < |names| :: names[i] == Name(ShardName(installation, cluster, i))
    ensures NoRepeats(names)
  {
    forall i: nat, j: nat | i < j < |names|
      ensures names[i] != names[j]
    {
      if names[i] == names[j] {
        ReplicaNameInjective(installation + "-" + cluster, i, installation + "-" + cluster, j);
      }
    }
  }

  /** A cluster of two shards of which only the second is given explicitly, under its generated name:
      ensureClusterLayoutShards would ask for that name for ever. */
  lemma ExplicitShardBlocksTheLoop<V>(given: V, empty: V, n: nat)
    ensures var m := map[Name(ShardName("d", "c", 1)) := given];
      var names := ShardNames("d", "c", 2);
      !NoCollision(m, names) && |FillSteps(m, n, names, empty)| < 2
  {
    var m, names := map[Name(ShardName("d", "c", 1)) := given], ShardNames("d", "c", 2);
    assert |m| == 1 && names[1] in m;
    FillStuck(m, n, names, empty, 1);
  }

  /** The layout of a cluster, with its map of shards. */
  class Layout<V> {
    var shards: map<Name, V>
    const shardsCount: int

    constructor (shards: map<Name, V>, shardsCount: int)
      ensures this.shards == shards && this.shardsCount == shardsCount
    {
      this.shards, this.shardsCount := shards, shardsCount;
    }

    /** ensureClusterLayoutShards, on the inputs on which its loop ends. */
    method EnsureClusterLayoutShards(installation: string, cluster: string, empty: V)
      requires NoCollision(shards, ShardNames(installation, cluster, shardsCount))
      modifies this
      ensures |old(shards)| <= shardsCount ==>
        && |shards| == shardsCount
        && shards == FillSteps(old(shards), shardsCount - |old(shards)|, ShardNames(installation, cluster, shardsCount), empty)
      ensures |old(shards)| > shardsCount ==> shards == old(shards)
    {
      ghost var names := ShardNames(installation, cluster, shardsCount);
      ghost var given, n := shards, 0;
      while |shards| < shardsCount
        invariant |shards| == |given| + n && (n == 0 || |shards| <= shardsCount)
        invariant shards == FillSteps(given, n, names, empty)
        decreases shardsCount - |shards|
      {
        FillNext(given, n, names, empty);
        shards := shards[Name(ShardName(installation, cluster, |shards|)) := empty];
        n := n + 1;
      }
    }
  }

  /** A shard, with its map of replicas. */
  class Shard<V> {
    const name: string
    var replicas: map<Name, V>
    var replicaCount: int

    constructor (name: string, replicas: map<Name, V>)
      ensures this.name == name && this.replicas == replicas
    {
      this.name, this.replicas, this.replicaCount := name, replicas, 0;
    }

    /** normalizeReplicas, first loop: the names the shard should have. */
    method NewReplicas(skip: set<int>) returns (newReplicas: set<Name>)
      ensures newReplicas == Elements(ReplicaNames(name, replicaCount, skip))
    {
      ghost var names := ReplicaNames(name, replicaCount, skip);
      newReplicas := {};
      var i := 0;
      while i < replicaCount
        invariant 0 <= i <= |names|
        invariant newReplicas == Elements(names[..i])
      {
        var index := GetNextIndex(i, skip);
        assert names[..i + 1] == names[..i] + [names[i]];
        newReplicas := newReplicas + {Name(ReplicaName(name, index))};
        i := i + 1;
      }
      assert names[..i] == names;
    }

    /** normalizeReplicas, second loop: fill up to the count. */
    method FillReplicas(skip: set<int>, filler: V)
      requires NoCollision(replicas, ReplicaNames(name, replicaCount, skip))
      modifies this`replicas
      ensures |old(replicas)| <= replicaCount ==>
        && |replicas| == replicaCount
        && replicas == FillSteps(old(replicas), replicaCount - |old(replicas)|, ReplicaNames(name, replicaCount, skip), filler)
      ensures |old(replicas)| > replicaCount ==> replicas == old(replicas)
    {
      ghost var names := ReplicaNames(name, replicaCount, skip);
      ghost var given, n := replicas, 0;
      while |replicas| < replicaCount
        invariant |replicas| == |given| + n && (n == 0 || |replicas| <= replicaCount)
        invariant replicas == FillSteps(given, n, names, filler)
        decreases replicaCount - |replicas|
      {
        NameAt(name, replicaCount, skip, |replicas|);
        FillNext(given, n, names, filler);
        var index := GetNextIndex(|replicas|, skip);
        replicas := replicas[Name(ReplicaName(name, index)) := filler];
        n := n + 1;
      }
    }

    /** normalizeReplicas, last loop: drop the replicas that are not in the new set. */
    method DropReplicas(newReplicas: set<Name>)
      modifies this`replicas
      ensures replicas == map r | r in old(replicas) && r in newReplicas :: old(replicas)[r]
    {
      var todo := replicas.Keys;
      while todo != {}
        invariant todo <= replicas.Keys <= old(replicas).Keys
        invariant forall r :: r in replicas <==> r in old(replicas) && (r in todo || r in newReplicas)
        invariant forall r :: r in replicas ==> replicas[r] == old(replicas)[r]
        decreases todo
      {
        var r := Pick(todo);
        todo := todo - {r};
        if r !in newReplicas {
          replicas := replicas - {r};
        }
      }
    }

    /** normalizeReplicas; `filler` is what normalizeReplica makes of a new replica of this shard. */
    method NormalizeReplicas(skip: set<int>, filler: V)
      requires NoCollision(replicas, ReplicaNames(name, replicaCount, skip))
      modifies this`replicas
      ensures replicas == NormalizedReplicas(name, replicaCount, skip, old(replicas), filler)
      ensures |old(replicas)| <= replicaCount ==> |replicas| == replicaCount
    {
      var newReplicas := NewReplicas(skip);
      FillReplicas(skip, filler);
      if |replicas| > replicaCount {
        DropReplicas(newReplicas);
      }
    }

    /** normalizeShardReplicasCount. */
    method NormalizeShardReplicasCount(layoutReplicasCount: int, slots: set<int>)
      modifies this`replicaCount
      ensures replicaCount == ReplicaCount(layoutReplicasCount, slots)
    {
      replicaCount := layoutReplicasCount;
      if replicaCount > |slots| {
        replicaCount := replicaCount - |slots|;
      }
    }

    /** The replica part of normalizeShard: read the slots, count, and fill. */
    method NormalizeShard(annotation: Option<seq<string>>, layoutReplicasCount: int, filler: V)
      requires var slots := AnnotatedSlots(annotation, name);
        NoCollision(replicas, ReplicaNames(name, ReplicaCount(layoutReplicasCount, slots), SlotsInForce(layoutReplicasCount, slots)))
      modifies this
      ensures var slots := AnnotatedSlots(annotation, name);
        && replicaCount == ReplicaCount(layoutReplicasCount, slots)
        && replicas == NormalizedReplicas(name, replicaCount, SlotsInForce(layoutReplicasCount, slots), old(replicas), filler)
    {
      var slots := GetDeleteSlotsForShard(annotation, name);
      NormalizeShardReplicasCount(layoutReplicasCount, slots);
      var skip := slots;
      if replicaCount == layoutReplicasCount {
        skip := {};
      }
      NormalizeReplicas(skip, filler);
    }
  }

  /** What normalizeReplicas makes of the replicas of a shard: it fills up to the count, keeping every
      replica, or drops those without a generated name. */
  function NormalizedReplicas<V>(shard: string, count: int, skip: set<int>, given: map<Name, V>, filler: V): map<Name, V>
  {
    var names := ReplicaNames(shard, count, skip);
    if |given| <= count then FillSteps(given, count - |given|, names, filler)
    else map r | r in given && r in Elements(names) :: given[r]
  }

  function AnnotatedSlots(annotation: Option<seq<string>>, shard: string): set<int>
  {
    if annotation.None? then {} else DeleteSlots(annotation.value, shard)
  }

  function NamesOf(shard: string, ordinals: set<nat>): set<Name>
  {
    set o | o in ordinals :: Name(ReplicaName(shard, o))
  }

  lemma FreshNames(shard: string, layout: int, slots: set<int>)
    ensures Elements(ReplicaNames(shard, ReplicaCount(layout, slots), SlotsInForce(layout, slots)))
         == NamesOf(shard, Ordinals(layout, slots))
  {
    var skip := SlotsInForce(layout, slots);
    var l, names := OrdinalList(layout, slots), ReplicaNames(shard, ReplicaCount(layout, slots), skip);
    forall i | 0 <= i < |l|
      ensures names[i] == Name(ReplicaName(shard, l[i])) && l[i] in l && names[i] in names
    {
    }
  }

  /** A shard that starts empty gets exactly the replicas named by its ordinals. */
  lemma FreshReplicas<V>(shard: string, layout: int, slots: set<int>, filler: V)
    ensures NormalizedReplicas(shard, ReplicaCount(layout, slots), SlotsInForce(layout, slots), map[], filler)
            == map r | r in NamesOf(shard, Ordinals(layout, slots)) :: filler
  {
    var names := ReplicaNames(shard, ReplicaCount(layout, slots), SlotsInForce(layout, slots));
    FreshNames(shard, layout, slots);
    FillAll(names, filler);
    NormalizedFromEmpty(shard, ReplicaCount(layout, slots), SlotsInForce(layout, slots), filler);
  }

  lemma NormalizedFromEmpty<V>(shard: string, count: int, skip: set<int>, filler: V)
    ensures var names := ReplicaNames(shard, count, skip);
      NormalizedReplicas(shard, count, skip, map[], filler) == FillSteps(map[], |names|, names, filler)
  {
    if count < 0 {
      assert ReplicaNames(shard, count, skip) == [];
    }
  }

  lemma FillAll<V>(names: seq<Name>, v: V)
    requires NoRepeats(names)
    ensures FillSteps(map[], |names|, names, v) == map r | r in Elements(names) :: v
  {
    var filled := FillSteps(map[], |names|, names, v);
    forall r: Name
      ensures r in filled <==> r in Elements(names)
      ensures r in filled ==> filled[r] == v
    {
      FillAllAt(names, v, r);
    }
  }

  lemma FillAllAt<V>(names: seq<Name>, v: V, r: Name)
    requires NoRepeats(names)
    ensures var filled := FillSteps(map[], |names|, names, v);
      (r in filled <==> r in Elements(names)) && (r in filled ==> filled[r] == v)
  {
    FillContents<Name, V>(map[], |names|, names, v, r);
    SegmentIsPrefix(names, |names|);
    assert names[..|names|] == names;
  }

  /** A shard given more replicas than its count keeps exactly those with the name of one of its ordinals, as
      they were; with all of these given, it ends with as many as it has ordinals. */
  lemma OthersAreDropped<V>(shard: string, layout: int, slots: set<int>, given: map<Name, V>, filler: V)
    requires |given| > ReplicaCount(layout, slots)
    ensures var r := NormalizedReplicas(shard, ReplicaCount(layout, slots), SlotsInForce(layout, slots), given, filler);
      && (forall n :: n in r <==> n in given && exists o :: o in Ordinals(layout, slots) && n == Name(ReplicaName(shard, o)))
      && (forall n | n in r :: r[n] == given[n])
      && ((forall o | o in Ordinals(layout, slots) :: Name(ReplicaName(shard, o)) in given) ==> |r| == |Ordinals(layout, slots)|)
  {
    var r := NormalizedReplicas(shard, ReplicaCount(layout, slots), SlotsInForce(layout, slots), given, filler);
    var wanted := NamesOf(shard, Ordinals(layout, slots));
    FreshNames(shard, layout, slots);
    assert forall n :: n in r <==> n in given && n in wanted;
    if forall o | o in Ordinals(layout, slots) :: Name(ReplicaName(shard, o)) in given {
      assert r.Keys == wanted;
      assert |r| == |r.Keys|;
      NamesCount(shard, Ordinals(layout, slots));
    }
  }

  lemma {:induction false} NamesCount(shard: string, ordinals: set<nat>)
    ensures |NamesOf(shard, ordinals)| == |ordinals|
  {
    if ordinals == {} {
      assert NamesOf(shard, ordinals) == {};
    } else {
      var o :| o in ordinals;
      var n := Name(ReplicaName(shard, o));
      forall q | q in ordinals - {o}
        ensures Name(ReplicaName(shard, q)) != n
      {
        if Name(ReplicaName(shard, q)) == n {
          ReplicaNameInjective(shard, q, shard, o);
        }
      }
      assert NamesOf(shard, ordinals) == NamesOf(shard, ordinals - {o}) + {n};
      NamesCount(shard, ordinals - {o});
    }
  }

  /** The ordinals in the order of the list are ascending. */
  lemma OrdinalsAscend(layout: int, slots: set<int>, i: nat, j: nat)
    requires i < j < |OrdinalList(layout, slots)|
    ensures OrdinalList(layout, slots)[i] < OrdinalList(layout, slots)[j]
  {
    NthIsSelection(SlotsInForce(layout, slots));
  }

  /** A shard given too few replicas keeps them all as they were, and gets the names of the ordinals from the
      position of its size on, up to the count. */
  lemma MissingAreFilled<V>(shard: string, layout: int, slots: set<int>, given: map<Name, V>, filler: V, n: Name)
    requires |given| <= ReplicaCount(layout, slots)
    requires NoCollision(given, ReplicaNames(shard, ReplicaCount(layout, slots), SlotsInForce(layout, slots)))
    ensures var r := NormalizedReplicas(shard, ReplicaCount(layout, slots), SlotsInForce(layout, slots), given, filler);
      var l := OrdinalList(layout, slots);
      && |r| == |l| == ReplicaCount(layout, slots)
      && (n in r <==> n in given || exists i | |given| <= i < |l| :: n == Name(ReplicaName(shard, l[i])))
      && (n in r ==> r[n] == if n in given then given[n] else filler)
  {
    var count, skip := ReplicaCount(layout, slots), SlotsInForce(layout, slots);
    NamesOfList(shard, layout, slots);
    FilledUp(given, ReplicaNames(shard, count, skip), filler, n);
  }

  lemma FilledUp<K, V>(m: map<K, V>, names: seq<K>, v: V, k: K)
    requires NoRepeats(names) && NoCollision(m, names) && |m| <= |names|
    ensures var r := FillSteps(m, |names| - |m|, names, v);
      && |r| == |names|
      && (k in r <==> k in m || exists i | |m| <= i < |names| :: names[i] == k)
      && (k in r ==> r[k] == if k in m then m[k] else v)
  {
    FillGrows(m, |names| - |m|, names, v);
    FillContents(m, |names| - |m|, names, v, k);
    SegmentMembers(names, |m|, |names| - |m|, k);
  }

  lemma NamesOfList(shard: string, layout: int, slots: set<int>)
    ensures var names, l := ReplicaNames(shard, ReplicaCount(layout, slots), SlotsInForce(layout, slots)), OrdinalList(layout, slots);
      |names| == |l| && forall i | 0 <= i < |l| :: names[i] == Name(ReplicaName(shard, l[i]))
  {
    var count, skip := ReplicaCount(layout, slots), SlotsInForce(layout, slots);
    forall i | 0 <= i < |OrdinalList(layout, slots)| {
      NameAt(shard, count, skip, i);
    }
  }

  lemma {:induction false} SegmentMembers<K>(names: seq<K>, lo: nat, n: nat, k: K)
    requires lo + n <= |names|
    ensures k in Segment(names, lo, n) <==> exists i | lo <= i < lo + n :: names[i] == k
  {
    if n > 0 {
      SegmentMembers(names, lo, n - 1, k);
    }
  }

  lemma ReplicaNamesDiffer(shard: string, i: nat, j: nat)
    requires i != j
    ensures Name(ReplicaName(shard, i)) != Name(ReplicaName(shard, j))
  {
    if ReplicaName(shard, i) == ReplicaName(shard, j) {
      ReplicaNameInjective(shard, i, shard, j);
    }
  }

  lemma FirstTwo(shard: string, n: Name)
    ensures (exists o :: o in Ordinals(2, {}) && n == Name(ReplicaName(shard, o)))
            <==> n == Name(ReplicaName(shard, 0)) || n == Name(ReplicaName(shard, 1))
  {
    OrdinalsExact(2, {});
    assert 0 in Ordinals(2, {}) && 1 in Ordinals(2, {});
  }

  /** Three replicas given where the layout asks for two: the third is dropped. */
  lemma ThirdReplicaIsDropped<V>(shard: string, given: map<Name, V>, filler: V, n: Name)
    requires given.Keys == {Name(ReplicaName(shard, 0)), Name(ReplicaName(shard, 1)), Name(ReplicaName(shard, 2))}
    ensures var r := NormalizedReplicas(shard, ReplicaCount(2, {}), SlotsInForce(2, {}), given, filler);
      && (n in r <==> n == Name(ReplicaName(shard, 0)) || n == Name(ReplicaName(shard, 1)))
      && (n in r ==> r[n] == given[n])
  {
    ReplicaNamesDiffer(shard, 0, 1);
    ReplicaNamesDiffer(shard, 0, 2);
    ReplicaNamesDiffer(shard, 1, 2);
    assert |given| == |given.Keys| == 3;
    OthersAreDropped(shard, 2, {}, given, filler);
    FirstTwo(shard, n);
  }

  // ---- from the annotation to the replicas ----

  /** End to end, for an annotation that names replicas of any clusters and shards: of the replicas the
      layout creates, exactly those marked for this shard are removed if and only if the slots are taken into
      account, no other slot reaches the shard and its own are below the layout; or they are ignored as too
      many, and none of its own is below the layout. */
  lemma AnnotatedReplicasAreTheOnesRemovedIff(installation: string, marked: seq<Marked>, cluster: string, index: nat, layout: int)
    requires forall r | r in marked :: r.ordinal <= MAX_INT64
    ensures var slots := DeleteSlots(Entries(installation, marked), ShardName(installation, cluster, index));
      var own := OwnOrdinals(marked, cluster, index);
      Ordinals(layout, slots) == Below(layout) - own <==>
        if |slots| < layout then slots == Ints(own) && forall o | o in own :: o < layout else own !! Below(layout)
  {
    var slots := DeleteSlots(Entries(installation, marked), ShardName(installation, cluster, index));
    var own := OwnOrdinals(marked, cluster, index);
    OwnAreSlots(installation, marked, cluster, index);
    OrdinalsExact(layout, slots);
    if |slots| < layout {
      OwnRemovedIff(layout, slots, own);
    } else {
      assert own !! Below(layout) <==> Below(layout) - own == Below(layout);
    }
  }

  lemma OwnRemovedIff(layout: int, slots: set<int>, own: set<nat>)
    requires |slots| < layout && Ints(own) <= slots && forall v | v in slots :: v >= 0
    ensures Ordinals(layout, slots) == Below(layout) - own <==> slots == Ints(own) && forall o | o in own :: o < layout
  {
    var low := own * Below(layout);
    OrdinalsExact(layout, slots);
    assert Below(layout) - own == Below(layout) - low;
    assert Below(layout) == (Below(layout) - low) + low;
    SameSize(low, Ints(low));
    SubsetSize(Ints(low), slots);
    if slots == Ints(own) && forall o | o in own :: o < layout {
      SlotsInRange(layout, slots);
      assert Below(layout) - own == set i | i in Below(layout) && i !in slots;
    }
  }

  function Ints(s: set<nat>): set<int>
  {
    set o: int | o in s
  }

  lemma OwnAreSlots(installation: string, marked: seq<Marked>, cluster: string, index: nat)
    requires forall r | r in marked :: r.ordinal <= MAX_INT64
    ensures var slots := DeleteSlots(Entries(installation, marked), ShardName(installation, cluster, index));
      Ints(OwnOrdinals(marked, cluster, index)) <= slots && forall v | v in slots :: v >= 0
  {
    DeleteSlotsExact(installation, marked, cluster, index);
    forall r | r in marked {
      OwnReach(installation, r);
    }
  }

  // ---- shards with names of their own ----

  /** An annotation that marks replicas of a shard without dashes in its name. */
  function ShortEntries(shard: string, marked: seq<nat>): seq<string>
  {
    seq(|marked|, i requires 0 <= i < |marked| => ReplicaName(shard, marked[i]))
  }

  lemma ShortNameIsSlotMinusOne(shard: string, o: nat)
    requires '-' !in shard
    ensures Contains(ReplicaName(shard, o), shard) && ExtractLastOrdinal(ReplicaName(shard, o)) == -1
  {
    SplitName(shard, o);
    SplitWithout(shard, '-');
    ContainsInfix("", shard, "-" + Decimal(o));
    assert "" + shard + ("-" + Decimal(o)) == ReplicaName(shard, o);
  }

  lemma ShortSlots(shard: string, marked: seq<nat>)
    requires '-' !in shard && marked != []
    ensures DeleteSlots(ShortEntries(shard, marked), shard) == {-1}
  {
    var entries := ShortEntries(shard, marked);
    forall i | 0 <= i < |entries|
      ensures Contains(entries[i], shard) && ExtractLastOrdinal(entries[i]) == -1
    {
      ShortNameIsSlotMinusOne(shard, marked[i]);
    }
    assert entries[0] in entries;
  }

  lemma MinusOneDropsTheFirst(layout: int)
    requires layout > 1
    ensures Ordinals(layout, {-1}) == Below(layout) - {0}
  {
    assert Negatives({-1}) == {-1};
    forall o: nat
      ensures o in Ordinals(layout, {-1}) <==> o in Below(layout) - {0}
    {
      OrdinalsOfAnySlots(layout, {-1}, o);
      FreeBelowCounts(o, {-1});
      assert Within({-1}, 0, o) == {};
    }
  }

  /** A shard that was given a name without dashes: whichever of its replicas are marked, the first one is
      removed and no other, so that these are the marked ones exactly if it is the only one marked. */
  lemma ShortNameRemovesTheFirst(shard: string, marked: seq<nat>, layout: int)
    requires '-' !in shard && marked != [] && layout > 1
    ensures var slots := DeleteSlots(ShortEntries(shard, marked), shard);
      && Ordinals(layout, slots) == Below(layout) - {0}
      && (Ordinals(layout, slots) == Below(layout) - Elements(marked) <==> Elements(marked) * Below(layout) == {0})
  {
    ShortSlots(shard, marked);
    MinusOneDropsTheFirst(layout);
    assert 0 in Below(layout);
    assert Below(layout) - Elements(marked) == Below(layout) - (Elements(marked) * Below(layout));
    SameComplement(Below(layout), Elements(marked) * Below(layout), {0});
  }

  lemma SameComplement(u: set<nat>, a: set<nat>, b: set<nat>)
    requires a <= u && b <= u
    ensures u - a == u - b <==> a == b
  {
    assert a == u - (u - a) && b == u - (u - b);
  }

  /** For example, marking replica 1 of two of shard "s" removes replica 0 and keeps replica 1. */
  lemma MarkingOneRemovesZero()
    ensures Ordinals(2, DeleteSlots([ReplicaName("s", 1)], "s")) == {1}
  {
    assert ShortEntries("s", [1]) == [ReplicaName("s", 1)];
    ShortNameRemovesTheFirst("s", [1], 2);
    assert Below(2) - {0} == {1};
  }
}
