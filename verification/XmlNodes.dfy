/** The tree of nodes grown in place and written out, as the values of XmlTree and XmlText
    (pkg/util/xml/xml.go). */
module XmlNodes {
  import opened Commons
  import opened Settings
  import opened XmlText
  import opened XmlTree
  import opened XmlGenerator

  lemma Regroup<T>(a: seq<T>, b: seq<T>, c: seq<T>)
    ensures a + b + c == a + (b + c)
  {
  }

  /** io.Writer, whose errors the program ignores. */
  class Writer {
    var text: string

    constructor ()
      ensures text == ""
    {
      text := "";
    }

    method Write(s: string)
      modifies this
      ensures text == old(text) + s
    {
      text := text + s;
    }
  }

  /** xmlNode; tree is the value it stands for. */
  class XmlNode {
    const tag: Tag
    var value: Option<Setting>
    var children: seq<XmlNode>
    ghost var repr: set<object>
    ghost var tree: Tree

    /** Subtrees share no node. */
    ghost predicate Valid()
      reads this, repr
      decreases repr
    {
      && this in repr
      && tree.tag == tag && tree.value == value && |tree.children| == |children|
      && (forall i | 0 <= i < |children| ::
            children[i] in repr && children[i].repr <= repr && this !in children[i].repr &&
            children[i].Valid() && children[i].tree == tree.children[i])
      && (forall i, j | 0 <= i < j < |children| :: children[i].repr !! children[j].repr)
    }

    constructor (tag: Tag)
      ensures Valid() && fresh(repr)
      ensures tree == NewNode(tag)
    {
      this.tag := tag;
      value := None;
      children := [];
      repr := {this};
      tree := NewNode(tag);
    }

    method AddChild(tag: Tag) returns (node: XmlNode)
      requires Valid()
      modifies this
      ensures Valid() && fresh(repr - old(repr))
      ensures tree == old(tree).(children := WithChild(old(tree).children, tag))
      ensures node == children[FindChild(old(tree).children, tag)]
      ensures node.Valid()
    {
      for i := 0 to |children|
        invariant forall j | 0 <= j < i :: tree.children[j].tag != tag
      {
        if children[i].tag == tag {
          FindUnique(tree.children, tag, i);
          return children[i];
        }
      }
      FindUnique(tree.children, tag, |children|);
      node := new XmlNode(tag);
      children := children + [node];
      repr := repr + node.repr;
      tree := tree.(children := tree.children + [NewNode(tag)]);
    }

    /** addBranch, with the walk down the tags as recursion. */
    method AddBranch(tags: seq<Tag>, k: nat, s: Setting)
      requires Valid()
      modifies repr
      decreases |tags| - k
      ensures Valid() && fresh(repr - old(repr))
      ensures tree == XmlTree.AddBranch(old(tree), tags, k, s)
    {
      if k >= |tags| {
        value := Some(s);
        tree := tree.(value := Some(s));
      } else {
        ghost var i := FindChild(tree.children, tags[k]);
        var node := AddChild(tags[k]);
        node.AddBranch(tags, k + 1, s);
        Adopt(i);
      }
    }

    /** A valid node but for what became of its i-th child. */
    ghost predicate ValidBut(i: nat)
      reads this, repr, set j | 0 <= j < |children| :: children[j], set j, o | 0 <= j < |children| && o in children[j].repr :: o
    {
      && this in repr && i < |children|
      && tree.tag == tag && tree.value == value && |tree.children| == |children|
      && children[i].Valid() && this !in children[i].repr
      && (forall j | 0 <= j < |children| && j != i ::
            children[j] in repr && children[j].repr <= repr && this !in children[j].repr &&
            children[j].Valid() && children[j].tree == tree.children[j] && children[j].repr !! children[i].repr)
      && (forall j, k | 0 <= j < k < |children| :: children[j].repr !! children[k].repr)
    }

    /** The ghost state catches up with a grown child. */
    ghost method Adopt(i: nat)
      requires ValidBut(i)
      modifies this`repr, this`tree
      ensures Valid() && repr == old(repr) + children[i].repr
      ensures tree == old(tree).(children := old(tree).children[i := children[i].tree])
    {
      repr := repr + children[i].repr;
      tree := tree.(children := tree.children[i := children[i].tree]);
    }

    method WriteTag(w: Writer, tag: string, indent: nat, open: bool, eol: string)
      modifies w
      ensures w.text == old(w.text) + XmlText.WriteTag(tag, indent, open, eol)
    {
      if tag != "" {
        w.Write(Spaces(indent) + (if open then "<" else "</") + tag + ">" + eol);
      }
    }

    method WriteTagWithValue(w: Writer, v: string, indent: nat)
      modifies w
      ensures w.text == old(w.text) + XmlText.WriteTagWithValue(tag.text, v, indent)
    {
      if v != "_removed_" {
        WriteTag(w, tag.text, indent, true, "");
        w.Write(v);
      } else {
        WriteTag(w, tag.text + REMOVE, indent, true, "");
      }
      WriteTag(w, tag.text, 0, false, "\n");
    }

    method WriteVector(w: Writer, vs: seq<string>, indent: nat)
      modifies w
      ensures w.text == old(w.text) + XmlText.WriteVector(tag.text, vs, indent)
    {
      for i := 0 to |vs|
        invariant old(w.text) + XmlText.WriteVector(tag.text, vs, indent)
                  == w.text + XmlText.WriteVector(tag.text, vs[i..], indent)
      {
        ghost var before := w.text;
        WriteTagWithValue(w, vs[i], indent);
        assert vs[i..][1..] == vs[i + 1..];
        Regroup(before, XmlText.WriteTagWithValue(tag.text, vs[i], indent), XmlText.WriteVector(tag.text, vs[i + 1..], indent));
      }
      assert vs[|vs|..] == [];
      assert w.text + "" == w.text;
    }

    method BuildXML(w: Writer, indent: nat)
      requires Valid() && w !in repr
      modifies w
      decreases repr, 1
      ensures w.text == old(w.text) + Print(tree, indent)
    {
      match value
      case None => WriteTagNoValue(w, indent);
      case Some(Scalar(v)) => WriteTagWithValue(w, v, indent);
      case Some(Vector(vs)) => WriteVector(w, vs, indent);
    }

    method WriteTagNoValue(w: Writer, indent: nat)
      requires Valid() && w !in repr && value.None?
      modifies w
      decreases repr, 0
      ensures w.text == old(w.text) + Print(tree, indent)
    {
      var deeper := (indent + TAB) % 256;
      WriteTag(w, tag.text, indent, true, "\n");
      ghost var start := w.text;
      assert tree.children[0..] == tree.children;
      for i := 0 to |children|
        invariant start + PrintAll(tree.children, deeper) == w.text + PrintAll(tree.children[i..], deeper)
      {
        ghost var before := w.text;
        children[i].BuildXML(w, deeper);
        assert tree.children[i..][1..] == tree.children[i + 1..];
        Regroup(before, Print(tree.children[i], deeper), PrintAll(tree.children[i + 1..], deeper));
      }
      assert tree.children[|children|..] == [];
      assert w.text + "" == w.text;
      WriteTag(w, tag.text, indent, false, "\n");
      Regroup(old(w.text), XmlText.WriteTag(tag.text, indent, true, "\n"), PrintAll(tree.children, deeper));
      Regroup(old(w.text), XmlText.WriteTag(tag.text, indent, true, "\n") + PrintAll(tree.children, deeper),
              XmlText.WriteTag(tag.text, indent, false, "\n"));
    }
  }

  /** GenerateXML, with the map iterated in the given order and the sorting library a function. */
  method GenerateXML(w: Writer, settings: Entries, names: seq<Path>, prefix: string)
    requires Lists(names, settings.Keys)
    modifies w
    ensures w.text == old(w.text) + Print(TreeOf(settings, prefix, names), 0)
  {
    var paths, data: map<Path, Path> := [], map[];
    for i := 0 to |names|
      invariant paths + PathsFrom(names, i, prefix) == PathsFrom(names, 0, prefix)
      invariant w.text == old(w.text)
      invariant DataFrom(names, i, prefix, data) == DataFrom(names, 0, prefix, map[])
    {
      var path := PathOf(prefix, names[i]);
      if path.text != "" {
        Regroup(paths, [path], PathsFrom(names, i + 1, prefix));
        paths := paths + [path];
        data := data[path := names[i]];
      }
    }
    assert paths + [] == paths;
    assert paths == PathsFrom(names, 0, prefix);
    paths := Sort(paths);
    var root := new XmlNode(Tag(""));
    for i := 0 to |paths|
      invariant root.Valid() && fresh(root.repr) && w.text == old(w.text)
      invariant Grow(root.tree, paths, i, settings, data) == TreeOf(settings, prefix, names)
    {
      root.AddBranch(TagsOf(paths[i]), 0, SettingOf(settings, data, paths[i]));
    }
    root.BuildXML(w, 0);
  }
}
