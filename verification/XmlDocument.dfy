/** What the generated document says about the settings, read back from its text (pkg/util/xml/xml.go). */
module XmlDocument {
  import opened Commons
  import opened Settings
  import opened XmlText
  import opened XmlTree
  import opened XmlGenerator

  // ---- clean settings give a clean tree ----

  /** No tag or value below the root contains markup. */
  ghost predicate CleanBelow(t: Tree)
  {
    forall c | c in t.children :: CleanTag(c.tag.text) && (c.value.Some? ==> CleanSetting(c.value.value)) && CleanBelow(c)
  }

  lemma {:induction false} CleanChildren(ts: seq<Tree>)
    requires forall c | c in ts :: CleanTag(c.tag.text) && (c.value.Some? ==> CleanSetting(c.value.value)) && CleanBelow(c)
    ensures CleanAll(ts)
    decreases ts
  {
    if ts != [] {
      assert ts[0] in ts;
      CleanChildren(ts[0].children);
      CleanChildren(ts[1..]);
    }
  }

  lemma {:induction false} AddBranchClean(t: Tree, tags: seq<Tag>, k: nat, s: Setting)
    requires CleanBelow(t) && CleanSetting(s) && forall tag | tag in tags :: CleanTag(tag.text)
    ensures CleanBelow(AddBranch(t, tags, k, s))
    ensures var r := AddBranch(t, tags, k, s); r.value == t.value || r.value == Some(s)
    decreases |tags| - k
  {
    if k < |tags| {
      var i, ts := FindChild(t.children, tags[k]), WithChild(t.children, tags[k]);
      assert CleanBelow(NewNode(tags[k]));
      assert forall c | c in ts :: CleanTag(c.tag.text) && (c.value.Some? ==> CleanSetting(c.value.value)) && CleanBelow(c);
      assert ts[i] in ts;
      AddBranchClean(ts[i], tags, k + 1, s);
      AddBranchKeepsTag(ts[i], tags, k + 1, s);
    }
  }

  lemma {:induction false} GrowClean(t: Tree, paths: seq<Path>, i: nat, settings: Entries, data: map<Path, Path>)
    requires CleanBelow(t) && CleanSettings(settings)
    requires forall p, tag | p in paths && tag in TagsOf(p) :: CleanTag(tag.text)
    ensures CleanBelow(Grow(t, paths, i, settings, data))
    decreases |paths| - i
  {
    if i < |paths| {
      var tags, s := TagsOf(paths[i]), SettingOf(settings, data, paths[i]);
      AddBranchClean(t, tags, 0, s);
      GrowClean(AddBranch(t, tags, 0, s), paths, i + 1, settings, data);
    }
  }

  ghost predicate CleanSettings(settings: Entries)
  {
    forall n | n in settings :: CleanSetting(settings[n])
  }

  ghost predicate CleanPaths(settings: Entries, prefix: string)
  {
    forall n, tag | n in settings && PathOf(prefix, n).text != "" && tag in TagsOf(PathOf(prefix, n)) :: CleanTag(tag.text)
  }

  lemma TreeClean(settings: Entries, prefix: string, names: seq<Path>)
    requires Lists(names, settings.Keys) && CleanSettings(settings) && CleanPaths(settings, prefix)
    ensures CleanAll(TreeOf(settings, prefix, names).children)
  {
    var raw, data := PathsFrom(names, 0, prefix), DataFrom(names, 0, prefix, map[]);
    SortFacts(raw);
    forall p, tag | p in Sort(raw) && tag in TagsOf(p)
      ensures CleanTag(tag.text)
    {
      PathsOfSettings(settings, prefix, names, p);
    }
    GrowClean(ROOT, Sort(raw), 0, settings, data);
    CleanChildren(TreeOf(settings, prefix, names).children);
  }

  // ---- which settings the text shows ----

  /** A path of tags that ends strictly above another. */
  predicate Above(p: seq<Tag>, q: seq<Tag>)
  {
    0 < |p| < |q| && q[..|p|] == p
  }

  predicate ValuedAt(t: Tree, q: seq<Tag>, k: nat, j: nat)
  {
    j <= |q| && Lookup(t, q[..j], k).Some?
  }

  lemma {:induction false} MaskedIff(t: Tree, q: seq<Tag>, k: nat)
    requires k < |q|
    ensures Masked(t, q, k) <==> exists j | k < j < |q| :: ValuedAt(t, q, k, j)
    decreases |q| - k
  {
    if k + 1 < |q| {
      ValuedStep(t, q, k, k + 1);
      var i := FindChild(t.children, q[k]);
      if i < |t.children| {
        var c, m := t.children[i], k + 1;
        MaskedIff(c, q, m);
        if j :| m < j < |q| && ValuedAt(c, q, m, j) {
          ValuedStep(t, q, k, j);
        }
      }
    }
    if j :| k < j < |q| && ValuedAt(t, q, k, j) {
      ValuedStep(t, q, k, j);
    }
  }

  lemma ValuedStep(t: Tree, q: seq<Tag>, k: nat, j: nat)
    requires k < j < |q|
    ensures var i := FindChild(t.children, q[k]);
      ValuedAt(t, q, k, j) <==> i < |t.children| && if j == k + 1 then t.children[i].value.Some? else ValuedAt(t.children[i], q, k + 1, j)
  {
    var p := q[..j];
    assert |p| == j && p[k] == q[k];
    var i := FindChild(t.children, q[k]);
    assert Lookup(t, p, k) == if i < |t.children| then Lookup(t.children[i], p, k + 1) else None;
  }

  /** The path of some setting. */
  ghost predicate IsPathTags(settings: Entries, prefix: string, q: seq<Tag>)
  {
    exists n | n in settings && PathOf(prefix, n).text != "" :: TagsOf(PathOf(prefix, n)) == q
  }

  /** The path of some setting ends above. */
  ghost predicate CutOff(settings: Entries, prefix: string, q: seq<Tag>)
  {
    exists p :: Above(p, q) && IsPathTags(settings, prefix, p)
  }

  lemma TreeIsMap(settings: Entries, prefix: string, names: seq<Path>, n: Path)
    requires Lists(names, settings.Keys) && DistinctPaths(settings, prefix) && n in settings && PathOf(prefix, n).text != ""
    ensures Lookup(TreeOf(settings, prefix, names), TagsOf(PathOf(prefix, n)), 0) == Some(settings[n])
  {
    TreeRefinesMap(settings, prefix, names);
  }

  lemma ValuedIff(settings: Entries, prefix: string, names: seq<Path>, q: seq<Tag>)
    requires Lists(names, settings.Keys) && DistinctPaths(settings, prefix)
    ensures Lookup(TreeOf(settings, prefix, names), q, 0).Some? <==> IsPathTags(settings, prefix, q)
  {
    TreeRefinesMap(settings, prefix, names);
  }

  lemma MaskedBySetting(settings: Entries, prefix: string, names: seq<Path>, q: seq<Tag>)
    requires Lists(names, settings.Keys) && DistinctPaths(settings, prefix) && q != []
    ensures Masked(TreeOf(settings, prefix, names), q, 0) <==> CutOff(settings, prefix, q)
  {
    var t := TreeOf(settings, prefix, names);
    MaskedIff(t, q, 0);
    forall j | 0 < j < |q|
      ensures ValuedAt(t, q, 0, j) <==> IsPathTags(settings, prefix, q[..j])
      ensures Above(q[..j], q)
    {
      ValuedIff(settings, prefix, names, q[..j]);
    }
    if p :| Above(p, q) && IsPathTags(settings, prefix, p) {
      assert ValuedAt(t, q, 0, |p|);
    }
  }

  /** The generated document is well formed, and it has an element with a given text at the path of a
      setting exactly if that is the setting's value, or one of its values, and no other setting has a
      path that ends above. */
  lemma DocumentShowsIff(settings: Entries, prefix: string, names: seq<Path>, n: Path, v: string)
    requires Lists(names, settings.Keys) && DistinctPaths(settings, prefix)
    requires CleanSettings(settings) && CleanPaths(settings, prefix)
    requires n in settings && PathOf(prefix, n).text != ""
    ensures var doc := ReadDocument(Print(TreeOf(settings, prefix, names), 0));
      var q := TagsOf(PathOf(prefix, n));
      && doc.Some? && q != []
      && (ElemAt(doc.value, q, 0, ExpectedValue(q[|q| - 1].text, v))
          <==> v in AsVector(settings[n]) && !CutOff(settings, prefix, q))
  {
    var t, q := TreeOf(settings, prefix, names), TagsOf(PathOf(prefix, n));
    TreeDistinct(settings, prefix, names);
    RootOfTree(settings, prefix, names);
    TreeClean(settings, prefix, names);
    DocumentRoundTrip(t);
    TreeIsMap(settings, prefix, names, n);
    MaskedBySetting(settings, prefix, names, q);
    ShownIff(t, q, 0, v, TAB);
  }

  lemma TreeDistinct(settings: Entries, prefix: string, names: seq<Path>)
    ensures Distinct(TreeOf(settings, prefix, names))
  {
    GrowDistinct(ROOT, Sort(PathsFrom(names, 0, prefix)), 0, settings, DataFrom(names, 0, prefix, map[]));
  }

  lemma RootOfTree(settings: Entries, prefix: string, names: seq<Path>)
    requires Lists(names, settings.Keys)
    ensures TreeOf(settings, prefix, names).tag.text == "" && TreeOf(settings, prefix, names).value.None?
  {
    var raw, data := PathsFrom(names, 0, prefix), DataFrom(names, 0, prefix, map[]);
    GrowDistinct(ROOT, Sort(raw), 0, settings, data);
    TreeRefinesMap(settings, prefix, names);
    assert Lookup(TreeOf(settings, prefix, names), [], 0) == TreeOf(settings, prefix, names).value;
  }

  /** The white space of a group without children. */
  predicate IsBlank(v: string)
  {
    v != "" && v == "\n" + Spaces(|v| - 1)
  }

  /** Reading back a document gives no element with a text at a path that is not that of a setting, except
      that a group whose settings print nothing holds a line break and spaces. */
  lemma NothingElseShown(settings: Entries, prefix: string, names: seq<Path>, q: seq<Tag>, v: string, e: Elem)
    requires Lists(names, settings.Keys)
    requires CleanSettings(settings) && CleanPaths(settings, prefix)
    requires q != [] && e == ExpectedValue(q[|q| - 1].text, v) && !IsBlank(v)
    ensures var doc := ReadDocument(Print(TreeOf(settings, prefix, names), 0));
      doc.Some? && (ElemAt(doc.value, q, 0, e) ==> IsPathTags(settings, prefix, q))
  {
    var t := TreeOf(settings, prefix, names);
    TreeRefinesMap(settings, prefix, names);
    RootOfTree(settings, prefix, names);
    TreeClean(settings, prefix, names);
    DocumentRoundTrip(t);
    if ElemAt(ExpectedAll(t.children, TAB), q, 0, e) {
      ShownIsValued(t, q, 0, v, TAB);
    }
  }

  lemma {:induction false} ShownIsValued(t: Tree, q: seq<Tag>, k: nat, v: string, indent: nat)
    requires Distinct(t) && k < |q| && !IsBlank(v)
    requires ElemAt(ExpectedAll(t.children, indent), q, k, ExpectedValue(q[|q| - 1].text, v))
    ensures Lookup(t, q, k).Some?
    decreases |q| - k
  {
    var e := ExpectedValue(q[|q| - 1].text, v);
    var d :| d in ExpectedAll(t.children, indent) && d.name == q[k].text &&
      if k + 1 == |q| then d == e else ElemAt(d.kids, q, k + 1, e);
    ElemsWithTag(t, q[k], indent, d);
    var c := t.children[FindChild(t.children, q[k])];
    assert c in t.children;
    if k + 1 < |q| {
      if c.value.Some? {
        ValuedElems(c, indent, d);
      } else {
        ShownIsValued(c, q, k + 1, v, (indent + TAB) % 256);
      }
    } else {
      GroupIsNoValue(c, indent, q[k].text, v);
    }
  }

  lemma {:induction false} SpacesLength(n: nat)
    ensures |Spaces(n)| == n
  {
    if n > 0 {
      SpacesLength(n - 1);
    }
  }

  lemma GroupIsNoValue(t: Tree, indent: nat, tag: string, v: string)
    requires !IsBlank(v)
    ensures t.value.None? ==> ExpectedValue(tag, v) !in Expected(t, indent)
  {
    SpacesLength(indent);
    assert IsBlank("\n" + Spaces(indent));
  }
}
