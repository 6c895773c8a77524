/** What a list of replica names in the delete-slots annotation of an installation means for one of its
    shards (controllers/daisymanager/util.go). The annotation lists replicas of every cluster and shard,
    and a shard takes every entry its name occurs in. */
module Annotations {
  import opened Text
  import opened Parts
  import opened Names

  /** A replica named in the annotation. */
  datatype Marked = Marked(cluster: string, index: nat, ordinal: nat)

  function EntryOf(installation: string, r: Marked): string
  {
    FullName(installation, r.cluster, r.index, r.ordinal)
  }

  function Entries(installation: string, marked: seq<Marked>): (entries: seq<string>)
  {
    seq(|marked|, k requires 0 <= k < |marked| => EntryOf(installation, marked[k]))
  }

  function EntryParts(installation: string, r: Marked): seq<string>
  {
    Split(installation, '-') + Split(r.cluster, '-') + [Decimal(r.index)] + [Decimal(r.ordinal)]
  }

  function ShardParts(installation: string, cluster: string, index: nat): (parts: seq<string>)
    ensures |parts| >= 3
  {
    Split(installation, '-') + Split(cluster, '-') + [Decimal(index)]
  }

  /** The slot of r is taken by a shard: somewhere among the dashed parts of its name, one ends with the
      first part of the shard's name, the middle ones are equal, and one starts with the last. */
  ghost predicate Reaches(installation: string, r: Marked, cluster: string, index: nat)
  {
    PartsMatch(EntryParts(installation, r), ShardParts(installation, cluster, index))
  }

  lemma PartsOfShard(installation: string, cluster: string, index: nat)
    ensures Split(ShardName(installation, cluster, index), '-') == ShardParts(installation, cluster, index)
  {
    SplitName(installation + "-" + cluster, index);
    SplitAppend(installation, cluster, '-');
  }

  lemma PartsOfEntry(installation: string, r: Marked)
    ensures Split(EntryOf(installation, r), '-') == EntryParts(installation, r)
  {
    PartsOfShard(installation, r.cluster, r.index);
    SplitName(ShardName(installation, r.cluster, r.index), r.ordinal);
  }

  /** An entry contains the name of a shard exactly if it reaches it. */
  lemma EntryMatchesIff(installation: string, r: Marked, cluster: string, index: nat)
    ensures Contains(EntryOf(installation, r), ShardName(installation, cluster, index))
            <==> Reaches(installation, r, cluster, index)
  {
    PartsOfShard(installation, cluster, index);
    PartsOfEntry(installation, r);
    ContainsIff(EntryOf(installation, r), ShardName(installation, cluster, index), '-');
  }

  /** A shard takes the slots of its own replicas. */
  lemma OwnReach(installation: string, r: Marked)
    ensures Reaches(installation, r, r.cluster, r.index)
  {
    var shard := ShardName(installation, r.cluster, r.index);
    ContainsInfix("", shard, "-" + Decimal(r.ordinal));
    assert "" + shard + ("-" + Decimal(r.ordinal)) == EntryOf(installation, r);
    EntryMatchesIff(installation, r, r.cluster, r.index);
  }

  /** The slots of a shard are exactly the ordinals of the annotated replicas, of whatever cluster and
      shard, that reach it. */
  lemma DeleteSlotsExact(installation: string, marked: seq<Marked>, cluster: string, index: nat)
    requires forall r | r in marked :: r.ordinal <= MAX_INT64
    ensures DeleteSlots(Entries(installation, marked), ShardName(installation, cluster, index))
            == set r | r in marked && Reaches(installation, r, cluster, index) :: r.ordinal
  {
    var entries, shard := Entries(installation, marked), ShardName(installation, cluster, index);
    forall r | r in marked
      ensures EntryOf(installation, r) in entries
      ensures ExtractLastOrdinal(EntryOf(installation, r)) == r.ordinal
      ensures Contains(EntryOf(installation, r), shard) <==> Reaches(installation, r, cluster, index)
    {
      var k :| 0 <= k < |marked| && marked[k] == r;
      assert entries[k] == EntryOf(installation, r);
      OrdinalRoundTrip(installation, r.cluster, r.index, r.ordinal);
      EntryMatchesIff(installation, r, cluster, index);
    }
    forall e | e in entries
      ensures exists r :: r in marked && e == EntryOf(installation, r)
    {
      var k :| 0 <= k < |entries| && entries[k] == e;
      assert marked[k] in marked;
    }
  }

  /** The ordinals of the annotated replicas of one shard. */
  function OwnOrdinals(marked: seq<Marked>, cluster: string, index: nat): set<nat>
  {
    set r | r in marked && r.cluster == cluster && r.index == index :: r.ordinal
  }

  /** So annotating replicas of one shard only gives back exactly their ordinals. */
  lemma AnnotationRoundTrip(installation: string, marked: seq<Marked>, cluster: string, index: nat)
    requires forall r | r in marked :: r.cluster == cluster && r.index == index && r.ordinal <= MAX_INT64
    ensures DeleteSlots(Entries(installation, marked), ShardName(installation, cluster, index))
            == set o: int | o in OwnOrdinals(marked, cluster, index)
  {
    DeleteSlotsExact(installation, marked, cluster, index);
    forall r | r in marked {
      OwnReach(installation, r);
    }
  }

  // ---- other shards of the same cluster ----

  predicate IsLetter(c: char) {
    c != '-' && !IsDigit(c)
  }

  lemma {:induction false} LastLetter(s: string) returns (p: nat)
    requires exists c :: c in s && IsLetter(c)
    ensures p < |s| && IsLetter(s[p]) && forall i | p < i < |s| :: !IsLetter(s[i])
  {
    if IsLetter(s[|s| - 1]) {
      p := |s| - 1;
    } else {
      var t := s[..|s| - 1];
      assert forall c | c in s && IsLetter(c) :: c in t;
      p := LastLetter(t);
    }
  }

  /** When the last letter of both texts lies in their common stem, the second can only occur in the
      first at its beginning. */
  lemma OnlyAtTheStart(stem: string, tail: string, x: string, o: nat)
    requires exists c :: c in stem && IsLetter(c)
    requires forall c | c in tail :: !IsLetter(c)
    requires OccursAt(stem + tail, stem + x, o)
    ensures o == 0
  {
    var p := LastLetter(stem);
    var name, part := stem + tail, stem + x;
    assert name[o + p] == name[o..o + |part|][p] == stem[p];
    assert forall q | |stem| <= q < |name| :: name[q] == tail[q - |stem|];
  }

  lemma OccursIff(stem: string, tail: string, x: string)
    requires exists c :: c in stem && IsLetter(c)
    requires forall c | c in tail :: !IsLetter(c)
    ensures Contains(stem + tail, stem + x) <==> x <= tail
  {
    CommonStem(stem, tail, x);
    if Contains(stem + tail, stem + x) {
      var o :| 0 <= o <= |stem + tail| - |stem + x| && OccursAt(stem + tail, stem + x, o);
      OnlyAtTheStart(stem, tail, x, o);
    }
    if x <= tail {
      assert OccursAt(stem + tail, stem + x, 0);
    }
  }

  lemma CommonStem(stem: string, tail: string, x: string)
    ensures OccursAt(stem + tail, stem + x, 0) <==> x <= tail
  {
    if OccursAt(stem + tail, stem + x, 0) {
      assert x == (stem + x)[|stem|..] == (stem + tail)[|stem|..|stem + x|];
    }
    if x <= tail {
      assert stem + tail == (stem + x) + tail[|x|..];
    }
  }

  lemma DigitsBeforeDash(x: string, y: string, z: string)
    requires '-' !in x && '-' !in y
    ensures "-" + x <= "-" + y + "-" + z <==> x <= y
  {
    var t := "-" + y + "-" + z;
    assert t[1..][..|y|] == y && t[|y| + 1] == '-';
    if "-" + x <= t {
      assert x == ("-" + x)[1..] == t[1..|x| + 1];
      assert forall q | 0 <= q < |x| :: x[q] == t[q + 1];
      assert t[1..|x| + 1] == y[..|x|];
    }
    if x <= y {
      assert ("-" + y)[..|x| + 1] == "-" + x;
    }
  }

  lemma NameIsStemAndTail(stem: string, x: string, y: string)
    ensures stem + "-" + x + "-" + y == stem + ("-" + x + "-" + y)
  {
  }

  /** As soon as the installation or cluster name has a letter (Kubernetes service names must start
      with one), a replica name of shard j contains the name of shard i exactly when i's decimal
      text is a prefix of j's. */
  lemma SubstringMatchIff(installation: string, cluster: string, i: nat, j: nat, ordinal: nat)
    requires exists c :: c in installation + "-" + cluster && IsLetter(c)
    ensures Contains(FullName(installation, cluster, j, ordinal), ShardName(installation, cluster, i))
            <==> Decimal(i) <= Decimal(j)
  {
    var stem := installation + "-" + cluster;
    var tail := "-" + Decimal(j) + "-" + Decimal(ordinal);
    NameIsStemAndTail(stem, Decimal(j), Decimal(ordinal));
    assert stem + "-" + Decimal(i) == stem + ("-" + Decimal(i));
    OccursIff(stem, tail, "-" + Decimal(i));
    DigitsBeforeDash(Decimal(i), Decimal(j), Decimal(ordinal));
  }

  /** Within a cluster, shard i takes the slots of every shard whose index starts with its digits. */
  lemma SameClusterReachesIff(installation: string, r: Marked, index: nat)
    requires exists c :: c in installation + "-" + r.cluster && IsLetter(c)
    ensures Reaches(installation, r, r.cluster, index) <==> Decimal(index) <= Decimal(r.index)
  {
    SubstringMatchIff(installation, r.cluster, index, r.index, r.ordinal);
    EntryMatchesIff(installation, r, r.cluster, index);
  }

  lemma TenStartsWithOne()
    ensures Decimal(1) <= Decimal(10)
  {
    assert Decimal(10) == Decimal(1) + [Digit(0)];
  }

  /** The annotation of a single replica. */
  lemma SingleSlot(installation: string, r: Marked, cluster: string, index: nat)
    requires r.ordinal <= MAX_INT64 && Reaches(installation, r, cluster, index)
    ensures DeleteSlots(Entries(installation, [r]), ShardName(installation, cluster, index)) == {r.ordinal}
  {
    DeleteSlotsExact(installation, [r], cluster, index);
    assert r in [r];
  }

  /** So shards are not isolated: a slot of shard 10 is also taken by shard 1. */
  lemma SlotOfShardTenReachesShardOne()
    ensures DeleteSlots(Entries("x", [Marked("c", 10, 3)]), ShardName("x", "c", 1)) == {3}
  {
    assert 'x' in "x" + "-" + "c" && IsLetter('x');
    TenStartsWithOne();
    SameClusterReachesIff("x", Marked("c", 10, 3), 1);
    SingleSlot("x", Marked("c", 10, 3), "c", 1);
  }

  // ---- shards of other clusters ----

  /** When neither the installation nor the clusters have dashes in their names, a slot leaks from another
      cluster exactly if that cluster's name ends with the installation's, and this one's is the index of
      the marked shard: with other names clusters are isolated. */
  lemma DashlessReachesIff(installation: string, r: Marked, cluster: string, index: nat)
    requires '-' !in installation && '-' !in r.cluster && '-' !in cluster
    ensures Reaches(installation, r, cluster, index) <==>
            ((r.cluster == cluster && Decimal(index) <= Decimal(r.index)) ||
             (EndsWith(r.cluster, installation) && cluster == Decimal(r.index) && Decimal(index) <= Decimal(r.ordinal)))
  {
    SplitWithout(installation, '-');
    SplitWithout(r.cluster, '-');
    SplitWithout(cluster, '-');
    assert EntryParts(installation, r) == [installation, r.cluster, Decimal(r.index), Decimal(r.ordinal)];
    assert ShardParts(installation, cluster, index) == [installation, cluster, Decimal(index)];
    FourAndThree(installation, r.cluster, Decimal(r.index), Decimal(r.ordinal), installation, cluster, Decimal(index));
  }

  /** With dashes they need not be: a shard takes the slots of the shard with its index in the cluster that is
      called like installation and cluster together. */
  lemma PrefixedClusterReaches(installation: string, cluster: string, index: nat, ordinal: nat)
    ensures Reaches(installation, Marked(installation + "-" + cluster, index, ordinal), cluster, index)
  {
    var shard, r := ShardName(installation, cluster, index), Marked(installation + "-" + cluster, index, ordinal);
    var a, b := installation + "-", "-" + Decimal(ordinal);
    ContainsInfix(a, shard, b);
    assert EntryOf(installation, r) == a + shard + b;
    EntryMatchesIff(installation, r, cluster, index);
  }

  lemma DashesAssociate(a: string, b: string, c: string)
    ensures a + "-" + b + "-" + c == a + "-" + (b + "-" + c)
  {
  }

  /** And those of all shards of the cluster that is called like cluster and index together. */
  lemma SuffixedClusterReaches(installation: string, cluster: string, index: nat, other: nat, ordinal: nat)
    ensures Reaches(installation, Marked(cluster + "-" + Decimal(index), other, ordinal), cluster, index)
  {
    var shard, r := ShardName(installation, cluster, index), Marked(cluster + "-" + Decimal(index), other, ordinal);
    var b := "-" + Decimal(other) + "-" + Decimal(ordinal);
    ContainsInfix("", shard, b);
    DashesAssociate(installation, cluster, Decimal(index));
    NameIsStemAndTail(shard, Decimal(other), Decimal(ordinal));
    assert EntryOf(installation, r) == shard + b;
    assert "" + shard == shard;
    EntryMatchesIff(installation, r, cluster, index);
  }

  lemma ClusterOne()
    ensures "c" + "-" + Decimal(1) == "c-1"
  {
    assert Decimal(1) == "1";
  }

  /** In installation "x" shard 1 of cluster "c" takes the slots of shard 1 of cluster "x-c" and of shard 0 of
      cluster "c-1". */
  lemma SlotsOfOtherClustersReachShardOne()
    ensures DeleteSlots(Entries("x", [Marked("x-c", 1, 3)]), ShardName("x", "c", 1)) == {3}
    ensures DeleteSlots(Entries("x", [Marked("c-1", 0, 3)]), ShardName("x", "c", 1)) == {3}
  {
    PrefixedClusterReaches("x", "c", 1, 3);
    assert "x" + "-" + "c" == "x-c";
    SingleSlot("x", Marked("x-c", 1, 3), "c", 1);
    SuffixedClusterReaches("x", "c", 1, 0, 3);
    ClusterOne();
    SingleSlot("x", Marked("c-1", 0, 3), "c", 1);
  }
}
