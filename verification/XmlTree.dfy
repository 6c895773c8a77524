/** Growing the tag tree out of settings paths, and which settings the printed tree shows
    (pkg/util/xml/xml.go). */
module XmlTree {
  import opened Commons
  import opened Settings
  import opened XmlText

  /** addChild looks for the first child with the tag. */
  function FindChild(ts: seq<Tree>, tag: Tag): (r: nat)
    ensures r <= |ts| && (r < |ts| ==> ts[r].tag == tag)
    ensures forall j | 0 <= j < r :: ts[j].tag != tag
  {
    FirstIndex(ts, (t: Tree) => t.tag == tag)
  }

  function NewNode(tag: Tag): Tree
  {
    Tree(tag, None, [])
  }

  /** addChild: the children once one with the tag is ensured. */
  function WithChild(ts: seq<Tree>, tag: Tag): (r: seq<Tree>)
    ensures FindChild(ts, tag) < |r|
  {
    if FindChild(ts, tag) < |ts| then ts else ts + [NewNode(tag)]
  }

  /** addBranch from the k-th tag on. */
  function AddBranch(t: Tree, tags: seq<Tag>, k: nat, s: Setting): Tree
    decreases |tags| - k
  {
    if k >= |tags| then t.(value := Some(s))
    else
      var ts, i := WithChild(t.children, tags[k]), FindChild(t.children, tags[k]);
      t.(children := ts[i := AddBranch(ts[i], tags, k + 1, s)])
  }

  /** The value at the end of a path of tags. */
  function Lookup(t: Tree, q: seq<Tag>, k: nat): Option<Setting>
    decreases |q| - k
  {
    if k >= |q| then t.value
    else
      var i := FindChild(t.children, q[k]);
      if i < |t.children| then Lookup(t.children[i], q, k + 1) else None
  }

  /** Siblings have distinct tags, everywhere. */
  ghost predicate Distinct(t: Tree)
  {
    && (forall i, j :: 0 <= i < j < |t.children| ==> t.children[i].tag != t.children[j].tag)
    && forall c | c in t.children :: Distinct(c)
  }

  lemma FindUnique(ts: seq<Tree>, tag: Tag, i: nat)
    requires i <= |ts| && (i < |ts| ==> ts[i].tag == tag) && forall j | 0 <= j < i :: ts[j].tag != tag
    ensures FindChild(ts, tag) == i
  {
  }

  /** Ensuring and replacing the child of one tag does not move the children of other tags. */
  lemma FindAfter(ts: seq<Tree>, tag: Tag, t: Tree, other: Tag)
    requires t.tag == tag
    ensures var i := FindChild(ts, tag);
      var r := WithChild(ts, tag)[i := t];
      && FindChild(r, tag) == i
      && (other != tag ==> if FindChild(ts, other) < |ts| then FindChild(r, other) == FindChild(ts, other) else FindChild(r, other) == |r|)
  {
    var i := FindChild(ts, tag);
    var r := WithChild(ts, tag)[i := t];
    FindUnique(r, tag, i);
    if other != tag {
      FindUnique(r, other, if FindChild(ts, other) < |ts| then FindChild(ts, other) else |r|);
    }
  }

  lemma {:induction false} AddBranchKeepsTag(t: Tree, tags: seq<Tag>, k: nat, s: Setting)
    ensures AddBranch(t, tags, k, s).tag == t.tag
  {
  }

  predicate SameFrom(p: seq<Tag>, q: seq<Tag>, k: nat)
    requires k <= |p| && k <= |q|
  {
    p[k..] == q[k..]
  }

  lemma SameFromStep(p: seq<Tag>, q: seq<Tag>, k: nat)
    requires k <= |p| && k <= |q|
    ensures SameFrom(p, q, k) <==>
            (k == |p| == |q| || (k < |p| && k < |q| && p[k] == q[k] && SameFrom(p, q, k + 1)))
  {
    if k < |p| && k < |q| {
      assert p[k..] == [p[k]] + p[k + 1..] && q[k..] == [q[k]] + q[k + 1..];
    }
  }

  lemma {:induction false} LookupEmpty(tag: Tag, q: seq<Tag>, k: nat)
    ensures Lookup(NewNode(tag), q, k) == None
  {
  }

  /** A branch sets the value of its own path and of no other. */
  lemma {:induction false} LookupAddBranch(t: Tree, tags: seq<Tag>, k: nat, s: Setting, q: seq<Tag>)
    requires k <= |tags| && k <= |q|
    ensures Lookup(AddBranch(t, tags, k, s), q, k) == if SameFrom(tags, q, k) then Some(s) else Lookup(t, q, k)
    decreases |tags| - k
  {
    SameFromStep(tags, q, k);
    if k < |tags| {
      var i, ts := FindChild(t.children, tags[k]), WithChild(t.children, tags[k]);
      var grown := AddBranch(ts[i], tags, k + 1, s);
      AddBranchKeepsTag(ts[i], tags, k + 1, s);
      if k < |q| {
        FindAfter(t.children, tags[k], grown, q[k]);
        if q[k] == tags[k] {
          LookupAddBranch(ts[i], tags, k + 1, s, q);
          LookupEmpty(tags[k], q, k + 1);
        }
      }
    }
  }

  lemma {:induction false} AddBranchDistinct(t: Tree, tags: seq<Tag>, k: nat, s: Setting)
    requires Distinct(t)
    ensures Distinct(AddBranch(t, tags, k, s))
    decreases |tags| - k
  {
    if k < |tags| {
      var i, ts := FindChild(t.children, tags[k]), WithChild(t.children, tags[k]);
      assert Distinct(NewNode(tags[k]));
      assert forall c | c in ts :: Distinct(c);
      assert ts[i] in ts;
      AddBranchDistinct(ts[i], tags, k + 1, s);
      AddBranchKeepsTag(ts[i], tags, k + 1, s);
    }
  }

  // ---- which settings the document shows ----

  /** e is the element at the end of a path of tags. */
  ghost predicate ElemAt(elems: seq<Elem>, q: seq<Tag>, k: nat, e: Elem)
    decreases |q| - k
  {
    k < |q| && exists d | d in elems ::
      d.name == q[k].text && if k + 1 == |q| then d == e else ElemAt(d.kids, q, k + 1, e)
  }

  /** Some setting sits above the end of the path, from its k-th tag on. */
  predicate Masked(t: Tree, q: seq<Tag>, k: nat)
    decreases |q| - k
  {
    if k >= |q| then false
    else
      var i := FindChild(t.children, q[k]);
      i < |t.children| && k + 1 < |q| && (t.children[i].value.Some? || Masked(t.children[i], q, k + 1))
  }

  function AsVector(s: Setting): seq<string>
  {
    match s
    case Scalar(v) => [v]
    case Vector(vs) => vs
  }

  lemma {:induction false} VectorElems(tag: string, values: seq<string>, e: Elem)
    ensures e in ExpectedVector(tag, values) <==> exists v | v in values :: e == ExpectedValue(tag, v)
    ensures e in ExpectedVector(tag, values) ==> e.name == tag && e.kids == []
  {
    if values != [] {
      VectorElems(tag, values[1..], e);
    }
  }

  lemma ValuedElems(t: Tree, indent: nat, e: Elem)
    requires t.value.Some?
    ensures e in Expected(t, indent) <==> exists v | v in AsVector(t.value.value) :: e == ExpectedValue(t.tag.text, v)
    ensures e in Expected(t, indent) ==> e.kids == []
  {
    VectorElems(t.tag.text, AsVector(t.value.value), e);
  }

  lemma NameOfElems(t: Tree, indent: nat, e: Elem)
    requires e in Expected(t, indent)
    ensures e.name == t.tag.text
  {
    if t.value.Some? {
      ValuedElems(t, indent, e);
    }
  }

  lemma {:induction false} ElemsOfAll(ts: seq<Tree>, indent: nat, e: Elem)
    ensures e in ExpectedAll(ts, indent) <==> exists i | 0 <= i < |ts| :: e in Expected(ts[i], indent)
  {
    if ts != [] {
      ElemsOfAll(ts[1..], indent, e);
      if i :| 0 <= i < |ts[1..]| && e in Expected(ts[1..][i], indent) {
        assert ts[i + 1] == ts[1..][i];
      }
      if i :| 1 <= i < |ts| && e in Expected(ts[i], indent) {
        assert ts[1..][i - 1] == ts[i];
      }
    }
  }

  /** With distinct siblings, the elements with a tag are those of the child with that tag. */
  lemma ElemsWithTag(t: Tree, tag: Tag, indent: nat, e: Elem)
    requires Distinct(t) && e.name == tag.text
    ensures var i := FindChild(t.children, tag);
      e in ExpectedAll(t.children, indent) <==> i < |t.children| && e in Expected(t.children[i], indent)
  {
    ElemsOfAll(t.children, indent, e);
    var i := FindChild(t.children, tag);
    if j :| 0 <= j < |t.children| && e in Expected(t.children[j], indent) {
      NameOfElems(t.children[j], indent, e);
      assert t.children[j].tag == tag;
    }
  }

  /** A value is shown, at its path and with its text, exactly if it belongs to the setting there and no
      setting sits above it. So nothing is lost when no path is a prefix of another and no vector is
      empty. */
  lemma {:induction false} ShownIff(t: Tree, q: seq<Tag>, k: nat, v: string, indent: nat)
    requires Distinct(t) && k < |q| && Lookup(t, q, k).Some?
    ensures ElemAt(ExpectedAll(t.children, indent), q, k, ExpectedValue(q[|q| - 1].text, v))
            <==> v in AsVector(Lookup(t, q, k).value) && !Masked(t, q, k)
    decreases |q| - k
  {
    var i := FindChild(t.children, q[k]);
    var c := t.children[i];
    assert c in t.children;
    var e := ExpectedValue(q[|q| - 1].text, v);
    if k + 1 == |q| {
      ElemsWithTag(t, q[k], indent, e);
      ValuedElems(c, indent, e);
      ValuesApart(q[k].text, v);
    } else if c.value.Some? {
      BelowValueNothing(t, q, k, indent, e);
    } else {
      var deeper := (indent + TAB) % 256;
      ShownIff(c, q, k + 1, v, deeper);
      OnlyGroup(t, q, k, indent, e);
    }
  }

  lemma ValuesApart(tag: string, v: string)
    ensures forall w :: ExpectedValue(tag, v) == ExpectedValue(tag, w) ==> v == w
  {
  }

  lemma BelowValueNothing(t: Tree, q: seq<Tag>, k: nat, indent: nat, e: Elem)
    requires Distinct(t) && k + 1 < |q|
    requires var i := FindChild(t.children, q[k]); i < |t.children| && t.children[i].value.Some?
    ensures !ElemAt(ExpectedAll(t.children, indent), q, k, e)
  {
    var c := t.children[FindChild(t.children, q[k])];
    forall d | d in ExpectedAll(t.children, indent) && d.name == q[k].text
      ensures !ElemAt(d.kids, q, k + 1, e)
    {
      ElemsWithTag(t, q[k], indent, d);
      ValuedElems(c, indent, d);
    }
  }

  lemma OnlyGroup(t: Tree, q: seq<Tag>, k: nat, indent: nat, e: Elem)
    requires Distinct(t) && k + 1 < |q|
    requires var i := FindChild(t.children, q[k]); i < |t.children| && t.children[i].value.None?
    ensures var c := t.children[FindChild(t.children, q[k])];
      ElemAt(ExpectedAll(t.children, indent), q, k, e) <==>
      ElemAt(ExpectedAll(c.children, (indent + TAB) % 256), q, k + 1, e)
  {
    var c := t.children[FindChild(t.children, q[k])];
    var group := Expected(c, indent)[0];
    assert Expected(c, indent) == [group];
    ElemsWithTag(t, q[k], indent, group);
    forall d | d in ExpectedAll(t.children, indent) && d.name == q[k].text
      ensures d == group
    {
      ElemsWithTag(t, q[k], indent, d);
    }
  }
}
