/** In which order the document has its elements (pkg/util/xml/xml.go). */
module XmlOrder {
  import opened Commons
  import opened Settings
  import opened XmlText
  import opened XmlTree
  import opened XmlGenerator

  function TagList(ts: seq<Tree>): seq<Tag>
  {
    seq(|ts|, i requires 0 <= i < |ts| => ts[i].tag)
  }

  /** The tags of the children of the node at the end of a path of tags, none if there is no such node. */
  function ChildTags(t: Tree, q: seq<Tag>, k: nat): seq<Tag>
    decreases |q| - k
  {
    if k >= |q| then TagList(t.children)
    else
      var i := FindChild(t.children, q[k]);
      if i < |t.children| then ChildTags(t.children[i], q, k + 1) else []
  }

  /** The path of tags goes on below q, with the tag c. */
  predicate Through(tags: seq<Tag>, q: seq<Tag>, c: Tag)
  {
    |q| < |tags| && tags[..|q|] == q && tags[|q|] == c
  }

  /** From the k-th tag on, the path of tags goes on below q. */
  predicate Below(tags: seq<Tag>, q: seq<Tag>, k: nat)
  {
    |q| < |tags| && forall j | k <= j < |q| :: tags[j] == q[j]
  }

  function Met(known: seq<Tag>, tags: seq<Tag>, q: seq<Tag>, k: nat): seq<Tag>
  {
    if Below(tags, q, k) && tags[|q|] !in known then known + [tags[|q|]] else known
  }

  lemma ChildMet(t: Tree, tags: seq<Tag>, k: nat, s: Setting, q: seq<Tag>)
    requires k == |q|
    ensures ChildTags(AddBranch(t, tags, k, s), q, k) == Met(ChildTags(t, q, k), tags, q, k)
  {
    if k < |tags| {
      var i, ts := FindChild(t.children, tags[k]), WithChild(t.children, tags[k]);
      AddBranchKeepsTag(ts[i], tags, k + 1, s);
      if i < |t.children| {
        assert TagList(t.children)[i] == tags[k];
      }
    }
  }

  lemma NewNodeHasNoChild(tag: Tag, q: seq<Tag>, k: nat)
    ensures ChildTags(NewNode(tag), q, k) == []
  {
  }

  /** A branch adds at most one child to a node, as its last one. */
  lemma {:induction false} ChildTagsAddBranch(t: Tree, tags: seq<Tag>, k: nat, s: Setting, q: seq<Tag>)
    requires k <= |q|
    ensures ChildTags(AddBranch(t, tags, k, s), q, k) == Met(ChildTags(t, q, k), tags, q, k)
    decreases |q| - k
  {
    if k == |q| {
      ChildMet(t, tags, k, s, q);
    } else if k >= |tags| {
      BranchEnds(t, tags, k, s, q);
    } else {
      ChildTagsOther(t, tags, k, s, q);
      if q[k] == tags[k] {
        var child := WithChild(t.children, tags[k])[FindChild(t.children, tags[k])];
        ChildTagsAlong(t, tags, k, q);
        ChildTagsAddBranch(child, tags, k + 1, s, q);
        BelowNext(tags, q, k);
      }
    }
  }

  lemma BranchEnds(t: Tree, tags: seq<Tag>, k: nat, s: Setting, q: seq<Tag>)
    requires |tags| <= k < |q|
    ensures ChildTags(AddBranch(t, tags, k, s), q, k) == ChildTags(t, q, k) && !Below(tags, q, k)
  {
  }

  lemma ChildTagsAlong(t: Tree, tags: seq<Tag>, k: nat, q: seq<Tag>)
    requires k < |q| && k < |tags| && q[k] == tags[k]
    ensures ChildTags(t, q, k) == ChildTags(WithChild(t.children, tags[k])[FindChild(t.children, tags[k])], q, k + 1)
  {
    NewNodeHasNoChild(tags[k], q, k + 1);
  }

  lemma BelowNext(tags: seq<Tag>, q: seq<Tag>, k: nat)
    requires k < |q| && k < |tags| && q[k] == tags[k]
    ensures Below(tags, q, k) == Below(tags, q, k + 1)
  {
  }

  /** Where the branch and q part the children stay, and else they are those below the child of the branch. */
  lemma ChildTagsOther(t: Tree, tags: seq<Tag>, k: nat, s: Setting, q: seq<Tag>)
    requires k < |q| && k < |tags|
    ensures var i, ts := FindChild(t.children, tags[k]), WithChild(t.children, tags[k]);
      ChildTags(AddBranch(t, tags, k, s), q, k) ==
      if q[k] == tags[k] then ChildTags(AddBranch(ts[i], tags, k + 1, s), q, k + 1) else ChildTags(t, q, k)
  {
    var i, ts := FindChild(t.children, tags[k]), WithChild(t.children, tags[k]);
    AddBranchKeepsTag(ts[i], tags, k + 1, s);
    FindAfter(t.children, tags[k], AddBranch(ts[i], tags, k + 1, s), q[k]);
  }

  /** The tags met below q by the paths from position i on, after some known ones. */
  function MetFrom(known: seq<Tag>, paths: seq<Path>, i: nat, q: seq<Tag>): seq<Tag>
    decreases |paths| - i
  {
    if i >= |paths| then known else MetFrom(Met(known, TagsOf(paths[i]), q, 0), paths, i + 1, q)
  }

  lemma {:induction false} ChildTagsGrow(t: Tree, paths: seq<Path>, i: nat, settings: Entries, data: map<Path, Path>, q: seq<Tag>)
    ensures ChildTags(Grow(t, paths, i, settings, data), q, 0) == MetFrom(ChildTags(t, q, 0), paths, i, q)
    decreases |paths| - i
  {
    if i < |paths| {
      var tags, s := TagsOf(paths[i]), SettingOf(settings, data, paths[i]);
      ChildTagsAddBranch(t, tags, 0, s, q);
      ChildTagsGrow(AddBranch(t, tags, 0, s), paths, i + 1, settings, data, q);
    }
  }

  /** One of the first n paths goes through the tag a before any of them goes through b. */
  ghost predicate Earlier(paths: seq<Path>, n: nat, q: seq<Tag>, a: Tag, b: Tag)
    requires n <= |paths|
  {
    exists m | 0 <= m < n :: Through(TagsOf(paths[m]), q, a) && NotBefore(paths, n, q, b, m)
  }

  ghost predicate NotBefore(paths: seq<Path>, n: nat, q: seq<Tag>, b: Tag, m: nat)
    requires n <= |paths|
  {
    forall j | 0 <= j < n :: Through(TagsOf(paths[j]), q, b) ==> m < j
  }

  ghost predicate InOrder(known: seq<Tag>, paths: seq<Path>, n: nat, q: seq<Tag>)
    requires n <= |paths|
  {
    && (forall c :: c in known <==> exists m | 0 <= m < n :: Through(TagsOf(paths[m]), q, c))
    && forall x, y | 0 <= x < y < |known| :: Earlier(paths, n, q, known[x], known[y])
  }

  lemma BelowAll(tags: seq<Tag>, q: seq<Tag>)
    ensures Below(tags, q, 0) <==> |q| < |tags| && tags[..|q|] == q
  {
  }

  lemma MetInOrder(known: seq<Tag>, paths: seq<Path>, n: nat, q: seq<Tag>)
    requires n < |paths| && InOrder(known, paths, n, q)
    ensures InOrder(Met(known, TagsOf(paths[n]), q, 0), paths, n + 1, q)
  {
    var tags := TagsOf(paths[n]);
    var now := Met(known, tags, q, 0);
    BelowAll(tags, q);
    forall c
      ensures c in now <==> exists m | 0 <= m < n + 1 :: Through(TagsOf(paths[m]), q, c)
    {
      assert (exists m | 0 <= m < n + 1 :: Through(TagsOf(paths[m]), q, c))
             <==> Through(tags, q, c) || exists m | 0 <= m < n :: Through(TagsOf(paths[m]), q, c);
    }
    forall x, y | 0 <= x < y < |now|
      ensures Earlier(paths, n + 1, q, now[x], now[y])
    {
      assert now[x] == known[x] && known[x] in known;
      if y < |known| {
        var m :| 0 <= m < n && Through(TagsOf(paths[m]), q, known[x]) && NotBefore(paths, n, q, known[y], m);
        assert NotBefore(paths, n + 1, q, now[y], m);
      } else {
        var m :| 0 <= m < n && Through(TagsOf(paths[m]), q, known[x]);
        assert NotBefore(paths, n + 1, q, now[y], m);
      }
    }
  }

  lemma {:induction false} MetFromInOrder(known: seq<Tag>, paths: seq<Path>, n: nat, q: seq<Tag>)
    requires n <= |paths| && InOrder(known, paths, n, q)
    ensures InOrder(MetFrom(known, paths, n, q), paths, |paths|, q)
    decreases |paths| - n
  {
    if n < |paths| {
      MetInOrder(known, paths, n, q);
      MetFromInOrder(Met(known, TagsOf(paths[n]), q, 0), paths, n + 1, q);
    }
  }

  /** The setting is below q, under the tag c. */
  predicate Under(settings: Entries, prefix: string, n: Path, q: seq<Tag>, c: Tag)
  {
    n in settings && PathOf(prefix, n).text != "" && Through(TagsOf(PathOf(prefix, n)), q, c)
  }

  /** Some path through the first tag is not larger than any through the second. */
  ghost predicate First(settings: Entries, prefix: string, q: seq<Tag>, a: Tag, b: Tag)
  {
    exists m :: Under(settings, prefix, m, q, a) && Smallest(settings, prefix, q, b, PathOf(prefix, m))
  }

  ghost predicate Smallest(settings: Entries, prefix: string, q: seq<Tag>, b: Tag, p: Path)
  {
    forall n :: Under(settings, prefix, n, q, b) ==> Leq(p.text, PathOf(prefix, n).text)
  }

  lemma TagsAreMet(settings: Entries, prefix: string, names: seq<Path>, q: seq<Tag>)
    ensures var paths := Sort(PathsFrom(names, 0, prefix));
      InOrder(ChildTags(TreeOf(settings, prefix, names), q, 0), paths, |paths|, q)
  {
    var paths, data := Sort(PathsFrom(names, 0, prefix)), DataFrom(names, 0, prefix, map[]);
    NewNodeHasNoChild(Tag(""), q, 0);
    ChildTagsGrow(ROOT, paths, 0, settings, data, q);
    MetFromInOrder([], paths, 0, q);
  }

  /** A node has a child for each tag with settings under it, and no other. */
  lemma ChildrenExact(settings: Entries, prefix: string, names: seq<Path>, q: seq<Tag>, c: Tag)
    requires Lists(names, settings.Keys)
    ensures c in ChildTags(TreeOf(settings, prefix, names), q, 0) <==> exists n :: Under(settings, prefix, n, q, c)
  {
    var paths := Sort(PathsFrom(names, 0, prefix));
    TagsAreMet(settings, prefix, names, q);
    if n :| Under(settings, prefix, n, q, c) {
      var j := PositionOf(settings, prefix, names, n);
    }
    if j :| 0 <= j < |paths| && Through(TagsOf(paths[j]), q, c) {
      var n := SettingAt(settings, prefix, names, j);
      assert Under(settings, prefix, n, q, c);
    }
  }

  /** Children are in the order of their smallest paths. */
  lemma ChildrenInOrder(settings: Entries, prefix: string, names: seq<Path>, q: seq<Tag>, x: nat, y: nat)
    requires Lists(names, settings.Keys) && x < y < |ChildTags(TreeOf(settings, prefix, names), q, 0)|
    ensures var tags := ChildTags(TreeOf(settings, prefix, names), q, 0);
      First(settings, prefix, q, tags[x], tags[y])
  {
    var paths, tags := Sort(PathsFrom(names, 0, prefix)), ChildTags(TreeOf(settings, prefix, names), q, 0);
    TagsAreMet(settings, prefix, names, q);
    assert Earlier(paths, |paths|, q, tags[x], tags[y]);
    var i :| 0 <= i < |paths| && Through(TagsOf(paths[i]), q, tags[x]) && NotBefore(paths, |paths|, q, tags[y], i);
    var m := SettingAt(settings, prefix, names, i);
    SortFacts(PathsFrom(names, 0, prefix));
    forall n | Under(settings, prefix, n, q, tags[y])
      ensures Leq(paths[i].text, PathOf(prefix, n).text)
    {
      var j := PositionOf(settings, prefix, names, n);
    }
    assert Under(settings, prefix, m, q, tags[x]) && Smallest(settings, prefix, q, tags[y], paths[i]);
  }

  lemma PositionOf(settings: Entries, prefix: string, names: seq<Path>, n: Path) returns (j: nat)
    requires Lists(names, settings.Keys) && n in settings && PathOf(prefix, n).text != ""
    ensures j < |Sort(PathsFrom(names, 0, prefix))| && Sort(PathsFrom(names, 0, prefix))[j] == PathOf(prefix, n)
  {
    SortFacts(PathsFrom(names, 0, prefix));
    PathsMembers(names, 0, prefix, PathOf(prefix, n));
    assert n in names;
    assert PathOf(prefix, n) in Sort(PathsFrom(names, 0, prefix));
    j :| 0 <= j < |Sort(PathsFrom(names, 0, prefix))| && Sort(PathsFrom(names, 0, prefix))[j] == PathOf(prefix, n);
  }

  lemma SettingAt(settings: Entries, prefix: string, names: seq<Path>, j: nat) returns (n: Path)
    requires Lists(names, settings.Keys) && j < |Sort(PathsFrom(names, 0, prefix))|
    ensures n in settings && PathOf(prefix, n).text != "" && PathOf(prefix, n) == Sort(PathsFrom(names, 0, prefix))[j]
  {
    var p := Sort(PathsFrom(names, 0, prefix))[j];
    SortFacts(PathsFrom(names, 0, prefix));
    PathsMembers(names, 0, prefix, p);
    assert p in Sort(PathsFrom(names, 0, prefix));
    var i :| 0 <= i < |names| && PathOf(prefix, names[i]) == p;
    n := names[i];
    assert n in names;
  }
}
