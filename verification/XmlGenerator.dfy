/** GenerateXML: from the settings map to the text, with the tree of nodes grown in place
    (pkg/util/xml/xml.go). */
module XmlGenerator {
  import opened Commons
  import opened Text
  import opened Paths
  import opened Settings
  import opened XmlText
  import opened XmlTree

  // ---- sorting paths ----

  /** Strings in Go's order. */
  predicate Leq(a: string, b: string)
  {
    a == "" || (b != "" && (a[0] < b[0] || (a[0] == b[0] && Leq(a[1..], b[1..]))))
  }

  lemma {:induction false} LeqTotal(a: string, b: string)
    ensures Leq(a, b) || Leq(b, a)
    ensures Leq(a, b) && Leq(b, a) ==> a == b
  {
    if a != "" && b != "" && a[0] == b[0] {
      LeqTotal(a[1..], b[1..]);
      assert a == [a[0]] + a[1..] && b == [b[0]] + b[1..];
    }
  }

  lemma {:induction false} LeqTransitive(a: string, b: string, c: string)
    requires Leq(a, b) && Leq(b, c)
    ensures Leq(a, c)
  {
    if a != "" && a[0] == b[0] && b[0] == c[0] {
      LeqTransitive(a[1..], b[1..], c[1..]);
    }
  }

  /** The first difference is at k, and a has the smaller character there. */
  predicate SmallerAt(a: string, b: string, k: nat)
  {
    k < |a| && k < |b| && a[..k] == b[..k] && a[k] < b[k]
  }

  /** A text is before those it begins and those with a larger character at the first difference. */
  lemma {:induction false} LeqIff(a: string, b: string)
    ensures Leq(a, b) <==> a <= b || exists k: nat :: SmallerAt(a, b, k)
  {
    forall k: nat | SmallerAt(a, b, k)
      ensures a[0] <= b[0]
    {
      assert k > 0 ==> a[..k][0] == b[..k][0];
    }
    if a != "" && b != "" && a[0] == b[0] {
      LeqIff(a[1..], b[1..]);
      assert a == [a[0]] + a[1..] && b == [b[0]] + b[1..];
      if k: nat :| SmallerAt(a[1..], b[1..], k) {
        assert a[..k + 1] == [a[0]] + a[1..][..k] && b[..k + 1] == [b[0]] + b[1..][..k];
        assert SmallerAt(a, b, k + 1);
      }
      if k: nat :| SmallerAt(a, b, k) {
        assert k > 0 && a[1..][..k - 1] == a[..k][1..] && b[1..][..k - 1] == b[..k][1..];
        assert SmallerAt(a[1..], b[1..], k - 1);
      }
    } else if a != "" && b != "" && a[0] < b[0] {
      assert SmallerAt(a, b, 0);
    }
  }

  ghost predicate Sorted(l: seq<Path>)
  {
    forall i, j :: 0 <= i < j < |l| ==> Leq(l[i].text, l[j].text)
  }

  function InsertSorted(l: seq<Path>, p: Path): seq<Path>
  {
    if l == [] || Leq(p.text, l[0].text) then [p] + l else [l[0]] + InsertSorted(l[1..], p)
  }

  /** sort.Strings; which algorithm it uses cannot be told from the result. */
  function Sort(l: seq<Path>): seq<Path>
  {
    if l == [] then [] else InsertSorted(Sort(l[1..]), l[0])
  }

  lemma {:induction false} InsertMember(l: seq<Path>, p: Path, q: Path)
    ensures q in InsertSorted(l, p) <==> q == p || q in l
  {
    if l != [] && !Leq(p.text, l[0].text) {
      InsertMember(l[1..], p, q);
      assert l == [l[0]] + l[1..];
    }
  }

  lemma {:induction false} InsertNoRepeats(l: seq<Path>, p: Path)
    requires NoRepeats(l) && p !in l
    ensures NoRepeats(InsertSorted(l, p))
  {
    if l != [] && !Leq(p.text, l[0].text) {
      InsertNoRepeats(l[1..], p);
      InsertMember(l[1..], p, l[0]);
      TailMembers(l, l[0]);
    }
  }

  lemma {:induction false} InsertKeepsSorted(l: seq<Path>, p: Path)
    requires Sorted(l)
    ensures Sorted(InsertSorted(l, p))
  {
    if l != [] {
      LeqTotal(p.text, l[0].text);
      if Leq(p.text, l[0].text) {
        forall i | 0 <= i < |l|
          ensures Leq(p.text, l[i].text)
        {
          if i > 0 {
            LeqTransitive(p.text, l[0].text, l[i].text);
          }
        }
      } else {
        InsertKeepsSorted(l[1..], p);
        var r := InsertSorted(l[1..], p);
        forall i | 0 <= i < |r|
          ensures Leq(l[0].text, r[i].text)
        {
          InsertMember(l[1..], p, r[i]);
        }
      }
    }
  }

  lemma {:induction false} SortFacts(l: seq<Path>)
    ensures Sorted(Sort(l))
    ensures forall q :: q in Sort(l) <==> q in l
    ensures NoRepeats(l) ==> NoRepeats(Sort(l))
  {
    if l != [] {
      SortFacts(l[1..]);
      InsertKeepsSorted(Sort(l[1..]), l[0]);
      forall q {
        InsertMember(Sort(l[1..]), l[0], q);
      }
      if NoRepeats(l) {
        InsertNoRepeats(Sort(l[1..]), l[0]);
      }
    }
  }

  lemma SortedHead(a: seq<Path>, b: seq<Path>)
    requires Sorted(a) && Sorted(b) && a != [] && b != []
    requires forall q :: q in a <==> q in b
    ensures a[0] == b[0]
  {
    assert a[0] in a && b[0] in b;
    var i :| 0 <= i < |b| && b[i] == a[0];
    var j :| 0 <= j < |a| && a[j] == b[0];
    LeqTotal(a[0].text, b[0].text);
  }

  /** A sorted list without repeats is determined by its members. */
  lemma {:induction false} SortedUnique(a: seq<Path>, b: seq<Path>)
    requires Sorted(a) && Sorted(b) && NoRepeats(a) && NoRepeats(b)
    requires forall q :: q in a <==> q in b
    ensures a == b
  {
    if b != [] {
      assert b[0] in b;
    }
    if a != [] {
      assert a[0] in a;
      SortedHead(a, b);
      forall q
        ensures q in a[1..] <==> q in b[1..]
      {
        TailMembers(a, q);
        TailMembers(b, q);
      }
      SortedUnique(a[1..], b[1..]);
      assert a == [a[0]] + a[1..] && b == [b[0]] + b[1..];
    }
  }

  lemma TailMembers(a: seq<Path>, q: Path)
    requires a != [] && NoRepeats(a)
    ensures q in a[1..] <==> q in a && q != a[0]
  {
    assert a == [a[0]] + a[1..];
  }

  // ---- the index of normalised paths ----

  /** normalizePath, with the prefix of the section. */
  function PathOf(prefix: string, name: Path): Path
  {
    if prefix != "" then Path(prefix + "/" + NormalizeText(name.text)) else Norm(name)
  }

  /** paths and data after the names from position i on. */
  function PathsFrom(names: seq<Path>, i: nat, prefix: string): seq<Path>
    decreases |names| - i
  {
    if i >= |names| then []
    else if PathOf(prefix, names[i]).text == "" then PathsFrom(names, i + 1, prefix)
    else [PathOf(prefix, names[i])] + PathsFrom(names, i + 1, prefix)
  }

  function DataFrom(names: seq<Path>, i: nat, prefix: string, data: map<Path, Path>): map<Path, Path>
    decreases |names| - i
  {
    if i >= |names| then data
    else if PathOf(prefix, names[i]).text == "" then DataFrom(names, i + 1, prefix, data)
    else DataFrom(names, i + 1, prefix, data[PathOf(prefix, names[i]) := names[i]])
  }

  function TagsOf(p: Path): seq<Tag>
  {
    var parts := Split(p.text, '/');
    seq(|parts|, i requires 0 <= i < |parts| => Tag(parts[i]))
  }

  lemma TagsInjective(p: Path, q: Path)
    requires TagsOf(p) == TagsOf(q)
    ensures p == q
  {
    var a, b := Split(p.text, '/'), Split(q.text, '/');
    assert |a| == |TagsOf(p)| == |b|;
    forall i | 0 <= i < |a|
      ensures a[i] == b[i]
    {
      assert TagsOf(p)[i] == Tag(a[i]) && TagsOf(q)[i] == Tag(b[i]);
    }
    assert a == b;
    JoinSplit(p.text, '/');
    JoinSplit(q.text, '/');
  }

  /** The value a path gets; the index always has one. */
  function SettingOf(settings: Entries, data: map<Path, Path>, p: Path): Setting
  {
    if p in data && data[p] in settings then settings[data[p]] else Scalar("")
  }

  /** The tree after the branches of paths from position i on. */
  function Grow(t: Tree, paths: seq<Path>, i: nat, settings: Entries, data: map<Path, Path>): Tree
    decreases |paths| - i
  {
    if i >= |paths| then t
    else Grow(AddBranch(t, TagsOf(paths[i]), 0, SettingOf(settings, data, paths[i])), paths, i + 1, settings, data)
  }

  const ROOT := Tree(Tag(""), None, [])

  /** The tree of a settings map, iterated in the given order. */
  function TreeOf(settings: Entries, prefix: string, names: seq<Path>): Tree
  {
    Grow(ROOT, Sort(PathsFrom(names, 0, prefix)), 0, settings, DataFrom(names, 0, prefix, map[]))
  }

  lemma {:induction false} PathsMembers(names: seq<Path>, i: nat, prefix: string, p: Path)
    ensures p in PathsFrom(names, i, prefix) <==> p.text != "" && exists j | i <= j < |names| :: PathOf(prefix, names[j]) == p
    decreases |names| - i
  {
    if i < |names| {
      PathsMembers(names, i + 1, prefix, p);
      assert (exists j | i <= j < |names| :: PathOf(prefix, names[j]) == p) <==>
             PathOf(prefix, names[i]) == p || exists j | i + 1 <= j < |names| :: PathOf(prefix, names[j]) == p;
    }
  }

  lemma {:induction false} DataMembers(names: seq<Path>, i: nat, prefix: string, data: map<Path, Path>, p: Path)
    ensures var r := DataFrom(names, i, prefix, data);
      && (p in r <==> p in data || p in PathsFrom(names, i, prefix))
      && (p in r && p in PathsFrom(names, i, prefix) ==> exists j | i <= j < |names| :: PathOf(prefix, names[j]) == p && r[p] == names[j])
      && (p in data && p !in PathsFrom(names, i, prefix) ==> r[p] == data[p])
    decreases |names| - i
  {
    if i < |names| {
      var q := PathOf(prefix, names[i]);
      DataMembers(names, i + 1, prefix, if q.text == "" then data else data[q := names[i]], p);
    }
  }

  lemma {:induction false} GrowElsewhere(t: Tree, paths: seq<Path>, i: nat, settings: Entries, data: map<Path, Path>, q: seq<Tag>)
    requires forall p | ListedFrom(paths, i, p) :: TagsOf(p) != q
    ensures Lookup(Grow(t, paths, i, settings, data), q, 0) == Lookup(t, q, 0)
    decreases |paths| - i
  {
    if i < |paths| {
      var tags, s := TagsOf(paths[i]), SettingOf(settings, data, paths[i]);
      assert ListedFrom(paths, i, paths[i]);
      assert tags[0..] == tags && q[0..] == q;
      LookupAddBranch(t, tags, 0, s, q);
      assert forall p | ListedFrom(paths, i + 1, p) :: ListedFrom(paths, i, p);
      GrowElsewhere(AddBranch(t, tags, 0, s), paths, i + 1, settings, data, q);
    }
  }

  lemma GrowLast(t: Tree, paths: seq<Path>, i: nat, settings: Entries, data: map<Path, Path>)
    requires i < |paths| && !ListedFrom(paths, i + 1, paths[i])
    ensures Lookup(Grow(t, paths, i, settings, data), TagsOf(paths[i]), 0) == Some(SettingOf(settings, data, paths[i]))
  {
    var tags, s := TagsOf(paths[i]), SettingOf(settings, data, paths[i]);
    LookupAddBranch(t, tags, 0, s, tags);
    forall r | ListedFrom(paths, i + 1, r)
      ensures TagsOf(r) != tags
    {
      if TagsOf(r) == tags {
        TagsInjective(r, paths[i]);
      }
    }
    GrowElsewhere(AddBranch(t, tags, 0, s), paths, i + 1, settings, data, tags);
  }

  /** Looking up the tags of a listed path finds its setting. */
  lemma {:induction false} GrowLookup(t: Tree, paths: seq<Path>, i: nat, settings: Entries, data: map<Path, Path>, p: Path)
    requires ListedFrom(paths, i, p)
    ensures Lookup(Grow(t, paths, i, settings, data), TagsOf(p), 0) == Some(SettingOf(settings, data, p))
    decreases |paths| - i
  {
    if ListedFrom(paths, i + 1, p) {
      GrowLookup(AddBranch(t, TagsOf(paths[i]), 0, SettingOf(settings, data, paths[i])), paths, i + 1, settings, data, p);
    } else {
      assert paths[i] == p;
      GrowLast(t, paths, i, settings, data);
    }
  }

  lemma {:induction false} GrowDistinct(t: Tree, paths: seq<Path>, i: nat, settings: Entries, data: map<Path, Path>)
    requires Distinct(t)
    ensures Distinct(Grow(t, paths, i, settings, data))
    ensures Grow(t, paths, i, settings, data).tag == t.tag
    decreases |paths| - i
  {
    if i < |paths| {
      var tags, s := TagsOf(paths[i]), SettingOf(settings, data, paths[i]);
      AddBranchDistinct(t, tags, 0, s);
      AddBranchKeepsTag(t, tags, 0, s);
      GrowDistinct(AddBranch(t, tags, 0, s), paths, i + 1, settings, data);
    }
  }

  lemma PathFound(settings: Entries, prefix: string, names: seq<Path>, n: Path) returns (m: Path)
    requires Lists(names, settings.Keys) && n in settings && PathOf(prefix, n).text != ""
    ensures m in settings && PathOf(prefix, m) == PathOf(prefix, n)
    ensures Lookup(TreeOf(settings, prefix, names), TagsOf(PathOf(prefix, n)), 0) == Some(settings[m])
  {
    var raw, data := PathsFrom(names, 0, prefix), DataFrom(names, 0, prefix, map[]);
    var p := PathOf(prefix, n);
    SortFacts(raw);
    PathsMembers(names, 0, prefix, p);
    DataMembers(names, 0, prefix, map[], p);
    GrowLookup(ROOT, Sort(raw), 0, settings, data, p);
    m := data[p];
  }

  lemma ValueHasPath(settings: Entries, prefix: string, names: seq<Path>, q: seq<Tag>) returns (n: Path)
    requires Lists(names, settings.Keys) && Lookup(TreeOf(settings, prefix, names), q, 0).Some?
    ensures n in settings && PathOf(prefix, n).text != "" && TagsOf(PathOf(prefix, n)) == q
  {
    var raw, data := PathsFrom(names, 0, prefix), DataFrom(names, 0, prefix, map[]);
    var paths := Sort(raw);
    SortFacts(raw);
    if forall p | ListedFrom(paths, 0, p) :: TagsOf(p) != q {
      GrowElsewhere(ROOT, paths, 0, settings, data, q);
      LookupEmpty(Tag(""), q, 0);
    }
    var p :| ListedFrom(paths, 0, p) && TagsOf(p) == q;
    PathsMembers(names, 0, prefix, p);
    var j :| 0 <= j < |names| && PathOf(prefix, names[j]) == p;
    n := names[j];
  }

  /** The tree is the map: siblings have distinct tags, the tags of the path of a setting lead to a setting
      with that path, and every valued node is the path of some setting. */
  lemma TreeRefinesMap(settings: Entries, prefix: string, names: seq<Path>)
    requires Lists(names, settings.Keys)
    ensures Distinct(TreeOf(settings, prefix, names))
    ensures forall n | n in settings && PathOf(prefix, n).text != "" ::
      exists m | m in settings && PathOf(prefix, m) == PathOf(prefix, n) ::
        Lookup(TreeOf(settings, prefix, names), TagsOf(PathOf(prefix, n)), 0) == Some(settings[m])
    ensures forall q | Lookup(TreeOf(settings, prefix, names), q, 0).Some? ::
      exists n | n in settings && PathOf(prefix, n).text != "" :: TagsOf(PathOf(prefix, n)) == q
  {
    GrowDistinct(ROOT, Sort(PathsFrom(names, 0, prefix)), 0, settings, DataFrom(names, 0, prefix, map[]));
    forall n | n in settings && PathOf(prefix, n).text != ""
      ensures exists m | m in settings && PathOf(prefix, m) == PathOf(prefix, n) ::
        Lookup(TreeOf(settings, prefix, names), TagsOf(PathOf(prefix, n)), 0) == Some(settings[m])
    {
      var m := PathFound(settings, prefix, names, n);
    }
    forall q | Lookup(TreeOf(settings, prefix, names), q, 0).Some?
      ensures exists n | n in settings && PathOf(prefix, n).text != "" :: TagsOf(PathOf(prefix, n)) == q
    {
      var n := ValueHasPath(settings, prefix, names, q);
    }
  }

  // ---- the result does not depend on the order of the map ----

  /** No two settings share a normalised path. */
  ghost predicate DistinctPaths(settings: Entries, prefix: string)
  {
    forall m, n | m in settings && n in settings && PathOf(prefix, m) == PathOf(prefix, n) :: m == n
  }

  lemma {:induction false} PathsNoRepeats(names: seq<Path>, i: nat, prefix: string)
    requires NoRepeats(names)
    requires forall m, n | m in names && n in names && PathOf(prefix, m) == PathOf(prefix, n) :: m == n
    ensures NoRepeats(PathsFrom(names, i, prefix))
    decreases |names| - i
  {
    if i < |names| {
      PathsNoRepeats(names, i + 1, prefix);
      PathsMembers(names, i + 1, prefix, PathOf(prefix, names[i]));
    }
  }

  lemma SamePaths(settings: Entries, prefix: string, names: seq<Path>, others: seq<Path>)
    requires Lists(names, settings.Keys) && Lists(others, settings.Keys) && DistinctPaths(settings, prefix)
    ensures Sort(PathsFrom(names, 0, prefix)) == Sort(PathsFrom(others, 0, prefix))
  {
    var a, b := PathsFrom(names, 0, prefix), PathsFrom(others, 0, prefix);
    PathsNoRepeats(names, 0, prefix);
    PathsNoRepeats(others, 0, prefix);
    SortFacts(a);
    SortFacts(b);
    forall p
      ensures p in a <==> p in b
    {
      PathsOfSettings(settings, prefix, names, p);
      PathsOfSettings(settings, prefix, others, p);
    }
    SortedUnique(Sort(a), Sort(b));
  }

  lemma PathsOfSettings(settings: Entries, prefix: string, names: seq<Path>, p: Path)
    requires Lists(names, settings.Keys)
    ensures p in PathsFrom(names, 0, prefix) <==> p.text != "" && exists n | n in settings :: PathOf(prefix, n) == p
  {
    PathsMembers(names, 0, prefix, p);
    if n :| n in settings && PathOf(prefix, n) == p {
      var j :| 0 <= j < |names| && names[j] == n;
    }
  }

  lemma SameData(settings: Entries, prefix: string, names: seq<Path>, others: seq<Path>)
    requires Lists(names, settings.Keys) && Lists(others, settings.Keys) && DistinctPaths(settings, prefix)
    ensures DataFrom(names, 0, prefix, map[]) == DataFrom(others, 0, prefix, map[])
  {
    var a, b := DataFrom(names, 0, prefix, map[]), DataFrom(others, 0, prefix, map[]);
    forall p
      ensures p in a <==> p in b
      ensures p in a && p in b ==> a[p] == b[p]
    {
      DataMembers(names, 0, prefix, map[], p);
      DataMembers(others, 0, prefix, map[], p);
      PathsOfSettings(settings, prefix, names, p);
      PathsOfSettings(settings, prefix, others, p);
    }
  }

  /** When normalised paths are distinct, the text does not depend on the iteration order. */
  lemma OutputIndependentOfOrder(settings: Entries, prefix: string, names: seq<Path>, others: seq<Path>)
    requires Lists(names, settings.Keys) && Lists(others, settings.Keys) && DistinctPaths(settings, prefix)
    ensures Print(TreeOf(settings, prefix, names), 0) == Print(TreeOf(settings, prefix, others), 0)
  {
    SamePaths(settings, prefix, names, others);
    SameData(settings, prefix, names, others);
  }
}
