/** How shards and replicas are named, and how ordinals are read back out of those names
    (controllers/daisymanager/util.go, controllers/daisymanager/normalizer.go). */
module Names {
  import opened Commons
  import opened Text

  /** A name used as a map key. */
  datatype Name = Name(text: string)

  /** Where a shard sits in the installation. */
  datatype ShardKey = ShardKey(cluster: Name, shard: Name)

  /** Where a replica sits in the installation; `replica` is also the name of its StatefulSet. */
  datatype Key = Key(at: ShardKey, replica: Name)

  /** Normalizer.createShardName. */
  function ShardName(installation: string, cluster: string, index: nat): string
  {
    installation + "-" + cluster + "-" + Decimal(index)
  }

  /** The name CreateReplicaName builds once the ordinal is chosen. */
  function ReplicaName(shard: string, ordinal: nat): string
  {
    shard + "-" + Decimal(ordinal)
  }

  function FullName(installation: string, cluster: string, index: nat, ordinal: nat): string
  {
    ReplicaName(ShardName(installation, cluster, index), ordinal)
  }

  predicate IsNamed(installation: string, k: Key, index: nat, ordinal: nat)
  {
    && k.at.shard.text == ShardName(installation, k.at.cluster.text, index)
    && k.replica.text == ReplicaName(k.at.shard.text, ordinal)
  }

  /** k carries the names the normalizer generates for some shard index and ordinal. */
  ghost predicate Generated(installation: string, k: Key)
  {
    exists i: nat, j: nat ::
      IsNamed(installation, k, i, j)
  }

  lemma ReplicaNameInjective(s: string, i: nat, t: string, j: nat)
    requires ReplicaName(s, i) == ReplicaName(t, j)
    ensures s == t && i == j
  {
    LastPartUnique(s, Decimal(i), t, Decimal(j), '-');
    DecimalInjective(i, j);
  }

  /** Two generated names clash exactly when ordinal, index and the dashed pair
      installation-cluster agree: names are unique inside one installation, and installations
      in one namespace can clash only through dashes in their own names. */
  lemma NamesClashIff(d: string, c: string, i: nat, m: nat, e: string, b: string, j: nat, n: nat)
    ensures FullName(d, c, i, m) == FullName(e, b, j, n) <==> d + "-" + c == e + "-" + b && i == j && m == n
    ensures d == e ==> (FullName(d, c, i, m) == FullName(e, b, j, n) <==> c == b && i == j && m == n)
  {
    if FullName(d, c, i, m) == FullName(e, b, j, n) {
      ReplicaNameInjective(ShardName(d, c, i), m, ShardName(e, b, j), n);
      ReplicaNameInjective(d + "-" + c, i, e + "-" + b, j);
    }
    if d == e && d + "-" + c == e + "-" + b {
      assert (d + "-" + c)[|d| + 1..] == c && (e + "-" + b)[|e| + 1..] == b;
    }
  }

  /** Across installations the names are not unique. */
  lemma InstallationsCanClash()
    ensures FullName("a", "b-c", 0, 0) == FullName("a-b", "c", 0, 0)
  {
    NamesClashIff("a", "b-c", 0, 0, "a-b", "c", 0, 0);
    assert "a" + "-" + "b-c" == "a-b" + "-" + "c";
  }

  /** In one installation a generated StatefulSet name determines its cluster and its shard. */
  lemma GeneratedPlaced(installation: string, k: Key, l: Key)
    requires Generated(installation, k) && Generated(installation, l)
    requires k.replica == l.replica
    ensures k == l
  {
    var i: nat, m: nat :| IsNamed(installation, k, i, m);
    var j: nat, n: nat :| IsNamed(installation, l, j, n);
    NamesClashIff(installation, k.at.cluster.text, i, m, installation, l.at.cluster.text, j, n);
  }

  // ---- ordinals read back from names ----

  /** ExtractLastOrdinal. */
  function ExtractLastOrdinal(name: string): int
  {
    var parts := Split(name, '-');
    if |parts| >= 3 then AtoiValue(parts[|parts| - 1]) else -1
  }

  lemma SplitName(stem: string, n: nat)
    ensures Split(ReplicaName(stem, n), '-') == Split(stem, '-') + [Decimal(n)]
  {
    SplitAppend(stem, Decimal(n), '-');
    SplitWithout(Decimal(n), '-');
  }

  lemma ShardHasThreeParts(installation: string, cluster: string, index: nat)
    ensures |Split(ShardName(installation, cluster, index), '-')| >= 3
  {
    SplitName(installation + "-" + cluster, index);
    SplitAppend(installation, cluster, '-');
  }

  /** The ordinal of a generated replica name, as long as it is a Go int, is read back; a larger one is read
      as the largest int. */
  lemma OrdinalRoundTrip(installation: string, cluster: string, index: nat, ordinal: nat)
    ensures ExtractLastOrdinal(FullName(installation, cluster, index, ordinal)) == if ordinal <= MAX_INT64 then ordinal else MAX_INT64
  {
    ShardHasThreeParts(installation, cluster, index);
    SplitName(ShardName(installation, cluster, index), ordinal);
    AtoiDecimal(ordinal);
  }

  /** What is read from a name of any other form: -1 with fewer than two dashes, and 0 if the last part is no
      number. */
  lemma OrdinalOfOtherNames(stem: string, last: string)
    requires '-' !in last
    ensures |Split(stem, '-')| == 1 ==> ExtractLastOrdinal(stem + "-" + last) == -1
    ensures |Split(stem, '-')| >= 2 && (last == "" || (!IsDigit(last[0]) && last[0] != '+')) ==> ExtractLastOrdinal(stem + "-" + last) == 0
    ensures forall n: nat, rest | |Split(stem, '-')| >= 2 && last == Decimal(n) + rest && n <= MAX_UINT64 && rest != "" && !IsDigit(rest[0]) ::
              ExtractLastOrdinal(stem + "-" + last) == 0
    ensures forall n: nat | |Split(stem, '-')| >= 2 && last == "+" + Decimal(n) && n <= MAX_INT64 ::
              ExtractLastOrdinal(stem + "-" + last) == n
  {
    SplitAppend(stem, last, '-');
    SplitWithout(last, '-');
    if last == "" || (!IsDigit(last[0]) && last[0] != '+') {
      AtoiNoNumber(last);
    }
    forall n: nat, rest | last == Decimal(n) + rest && n <= MAX_UINT64 && rest != "" && !IsDigit(rest[0])
      ensures AtoiValue(last) == 0
    {
      AtoiNumberAndMore(n, rest);
    }
    forall n: nat | last == "+" + Decimal(n)
      ensures AtoiValue(last) == AtoiValue(Decimal(n)) && (n <= MAX_INT64 ==> AtoiValue(last) == n)
    {
      AtoiPlus(n);
      AtoiDecimal(n);
    }
  }

  /** The slots the delete-slots annotation marks for one shard: a match is by substring. */
  function DeleteSlots(entries: seq<string>, shard: string): set<int>
  {
    set e | e in entries && Contains(e, shard) :: ExtractLastOrdinal(e)
  }

  /** GetDeleteSlotsForShard; `annotation` is None when the annotation is absent or not a JSON list
      of strings. */
  method GetDeleteSlotsForShard(annotation: Option<seq<string>>, shard: string) returns (slots: set<int>)
    ensures annotation.None? ==> slots == {}
    ensures annotation.Some? ==> slots == DeleteSlots(annotation.value, shard)
  {
    slots := {};
    if annotation.None? {
      return;
    }
    var entries := annotation.value;
    for i := 0 to |entries|
      invariant slots == DeleteSlots(entries[..i], shard)
    {
      assert entries[..i + 1] == entries[..i] + [entries[i]];
      if Contains(entries[i], shard) {
        slots := slots + {ExtractLastOrdinal(entries[i])};
      }
    }
    assert entries[..|entries|] == entries;
  }

  /** No slot is negative exactly when no matching entry has fewer than two dashes, which a shard
      name with two dashes rules out. */
  lemma SlotsNonNegativeIff(entries: seq<string>, shard: string)
    ensures (forall v | v in DeleteSlots(entries, shard) :: v >= 0)
            <==> forall e | e in entries && Contains(e, shard) :: |Split(e, '-')| >= 3
    ensures |Split(shard, '-')| >= 3 ==> forall v | v in DeleteSlots(entries, shard) :: v >= 0
  {
    forall e | e in entries && Contains(e, shard)
      ensures ExtractLastOrdinal(e) in DeleteSlots(entries, shard)
      ensures |Split(e, '-')| >= |Split(shard, '-')|
    {
      var o :| 0 <= o <= |e| - |shard| && OccursAt(e, shard, o);
      assert e == e[..o] + shard + e[o + |shard|..];
      SplitGrows(e[..o], shard, e[o + |shard|..]);
    }
  }

  lemma {:induction false} SplitGrows(a: string, t: string, b: string)
    ensures |Split(a + t + b, '-')| >= |Split(t, '-')|
  {
    if a != "" {
      assert (a + t + b)[1..] == a[1..] + t + b;
      SplitGrows(a[1..], t, b);
    } else if t != "" {
      assert (a + t + b)[1..] == a + t[1..] + b && (a + t + b)[0] == t[0];
      SplitGrows(a, t[1..], b);
    }
  }
}
