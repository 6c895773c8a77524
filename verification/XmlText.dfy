/** Printing a settings tree as nested tags, and reading it back (pkg/util/xml/xml.go). */
module XmlText {
  import opened Commons
  import opened Settings

  datatype Tag = Tag(text: string)

  /** xmlNode, as a value. */
  datatype Tree = Tree(tag: Tag, value: Option<Setting>, children: seq<Tree>)

  const TAB := 4
  const REMOVE := " remove=\"1\""

  // ---- printing ----

  function Spaces(n: nat): string
  {
    if n == 0 then "" else Spaces(n - 1) + " "
  }

  /** writeTag: nothing at all for the nameless root. */
  function WriteTag(tag: string, indent: nat, open: bool, eol: string): string
  {
    if tag == "" then "" else Spaces(indent) + (if open then "<" else "</") + tag + ">" + eol
  }

  /** writeTagWithValue. */
  function WriteTagWithValue(tag: string, value: string, indent: nat): string
  {
    if value != "_removed_" then WriteTag(tag, indent, true, "") + value + WriteTag(tag, 0, false, "\n")
    else WriteTag(tag + REMOVE, indent, true, "") + WriteTag(tag, 0, false, "\n")
  }

  function WriteVector(tag: string, values: seq<string>, indent: nat): string
  {
    if values == [] then "" else WriteTagWithValue(tag, values[0], indent) + WriteVector(tag, values[1..], indent)
  }

  /** buildXML; the indent is a uint8 and wraps around. */
  function Print(t: Tree, indent: nat): string
  {
    match t.value
    case None =>
      WriteTag(t.tag.text, indent, true, "\n") + PrintAll(t.children, (indent + TAB) % 256) + WriteTag(t.tag.text, indent, false, "\n")
    case Some(Scalar(v)) => WriteTagWithValue(t.tag.text, v, indent)
    case Some(Vector(vs)) => WriteVector(t.tag.text, vs, indent)
  }

  function PrintAll(ts: seq<Tree>, indent: nat): string
  {
    if ts == [] then "" else Print(ts[0], indent) + PrintAll(ts[1..], indent)
  }

  // ---- reading ----

  /** An element as read back; text next to child elements is white space and dropped. */
  datatype Elem = Elem(name: string, attrs: string, text: string, kids: seq<Elem>)

  /** What has been read so far at the current level, inside which open elements. */
  datatype Level =
    | Document(text: string, kids: seq<Elem>)
    | Inside(name: string, attrs: string, text: string, kids: seq<Elem>, outer: Level)

  datatype Reader = Content(level: Level) | Markup(buf: string, level: Level) | Malformed

  function NameOf(buf: string): (name: string)
    ensures |name| <= |buf|
  {
    if buf == "" || buf[0] == ' ' then "" else [buf[0]] + NameOf(buf[1..])
  }

  function Close(o: Level): Elem
    requires o.Inside?
  {
    Elem(o.name, o.attrs, if o.kids == [] then o.text else "", o.kids)
  }

  function AddKid(o: Level, e: Elem): Level
  {
    o.(kids := o.kids + [e])
  }

  /** A complete tag: an end tag must match the start tag of the innermost open element. */
  function HandleTag(buf: string, o: Level): Reader
  {
    if buf != "" && buf[0] == '/' then
      if o.Inside? && o.name == buf[1..] then Content(AddKid(o.outer, Close(o))) else Malformed
    else
      Content(Inside(NameOf(buf), buf[|NameOf(buf)|..], "", [], o))
  }

  function ReadChar(r: Reader, c: char): Reader
  {
    match r
    case Malformed => Malformed
    case Content(o) => if c == '<' then Markup("", o) else Content(o.(text := o.text + [c]))
    case Markup(buf, o) => if c == '>' then HandleTag(buf, o) else Markup(buf + [c], o)
  }

  function Read(r: Reader, s: string): Reader
    decreases |s|
  {
    if s == "" then r else Read(ReadChar(r, s[0]), s[1..])
  }

  /** The top-level elements of a text all of whose start tags are matched by end tags. */
  function ReadDocument(s: string): Option<seq<Elem>>
  {
    match Read(Content(Document("", [])), s)
    case Content(Document(_, kids)) => Some(kids)
    case _ => None
  }

  lemma {:induction false} ReadAppend(r: Reader, a: string, b: string)
    ensures Read(r, a + b) == Read(Read(r, a), b)
    decreases |a|
  {
    if a == "" {
      assert a + b == b;
    } else {
      assert (a + b)[0] == a[0] && (a + b)[1..] == a[1..] + b;
      ReadAppend(ReadChar(r, a[0]), a[1..], b);
    }
  }

  lemma {:induction false} ReadText(o: Level, s: string)
    requires '<' !in s
    ensures Read(Content(o), s) == Content(o.(text := o.text + s))
    decreases |s|
  {
    if s == "" {
      assert o.text + s == o.text;
    } else {
      ReadText(o.(text := o.text + [s[0]]), s[1..]);
      assert o.text + [s[0]] + s[1..] == o.text + s;
    }
  }

  lemma {:induction false} ReadMarkup(buf: string, o: Level, s: string)
    requires '>' !in s
    ensures Read(Markup(buf, o), s + ">") == HandleTag(buf + s, o)
    decreases |s|
  {
    if s == "" {
      assert s + ">" == ">" && buf + s == buf;
      assert Read(HandleTag(buf, o), ">"[1..]) == HandleTag(buf, o);
    } else {
      assert (s + ">")[0] == s[0] && (s + ">")[1..] == s[1..] + ">";
      ReadMarkup(buf + [s[0]], o, s[1..]);
      assert buf + [s[0]] + s[1..] == buf + s;
    }
  }

  lemma ReadTag(o: Level, s: string)
    requires '>' !in s
    ensures Read(Content(o), "<" + s + ">") == HandleTag(s, o)
  {
    var t := "<" + s + ">";
    assert t[0] == '<' && t[1..] == s + ">";
    ReadMarkup("", o, s);
    assert "" + s == s;
  }

  // ---- the round trip ----

  predicate CleanTag(tag: string)
  {
    tag != "" && tag[0] != '/' && '<' !in tag && '>' !in tag && ' ' !in tag
  }

  predicate CleanSetting(s: Setting)
  {
    match s
    case Scalar(v) => '<' !in v
    case Vector(vs) => forall v | v in vs :: '<' !in v
  }

  /** No tag or value that gets printed contains markup. */
  predicate Clean(t: Tree)
  {
    && CleanTag(t.tag.text)
    && match t.value
       case None => CleanAll(t.children)
       case Some(s) => CleanSetting(s)
  }

  predicate CleanAll(ts: seq<Tree>)
  {
    ts == [] || (Clean(ts[0]) && CleanAll(ts[1..]))
  }

  function ExpectedValue(tag: string, value: string): Elem
  {
    if value != "_removed_" then Elem(tag, "", value, []) else Elem(tag, REMOVE, "", [])
  }

  function ExpectedVector(tag: string, values: seq<string>): seq<Elem>
  {
    if values == [] then [] else [ExpectedValue(tag, values[0])] + ExpectedVector(tag, values[1..])
  }

  /** The elements a tree stands for: one per value, with the children of valued nodes dropped; a node
      that has neither value nor printed children is an element holding its own line break. */
  function Expected(t: Tree, indent: nat): seq<Elem>
  {
    match t.value
    case None =>
      var kids := ExpectedAll(t.children, (indent + TAB) % 256);
      [Elem(t.tag.text, "", if kids == [] then "\n" + Spaces(indent) else "", kids)]
    case Some(Scalar(v)) => [ExpectedValue(t.tag.text, v)]
    case Some(Vector(vs)) => ExpectedVector(t.tag.text, vs)
  }

  function ExpectedAll(ts: seq<Tree>, indent: nat): seq<Elem>
  {
    if ts == [] then [] else Expected(ts[0], indent) + ExpectedAll(ts[1..], indent)
  }

  /** The white space printed around n elements. */
  function Pad(n: nat, indent: nat): string
  {
    if n == 0 then "" else Spaces(indent) + "\n" + Pad(n - 1, indent)
  }

  lemma {:induction false} PadAppend(m: nat, n: nat, indent: nat)
    ensures Pad(m + n, indent) == Pad(m, indent) + Pad(n, indent)
  {
    if m > 0 {
      PadAppend(m - 1, n, indent);
    }
  }

  lemma {:induction false} SpacesClean(n: nat)
    ensures '<' !in Spaces(n)
  {
    if n > 0 {
      SpacesClean(n - 1);
    }
  }

  function AddText(o: Level, s: string): Level
  {
    o.(text := o.text + s)
  }

  /** A level after some elements and the white space around them have been read. */
  function Grown(o: Level, elems: seq<Elem>, indent: nat): Level
  {
    o.(text := o.text + Pad(|elems|, indent), kids := o.kids + elems)
  }

  lemma {:induction false} NameOfTag(tag: string, rest: string)
    requires ' ' !in tag && (rest == "" || rest[0] == ' ')
    ensures NameOf(tag + rest) == tag && (tag + rest)[|tag|..] == rest
  {
    if tag == "" {
      assert tag + rest == rest;
    } else {
      assert (tag + rest)[0] == tag[0] && (tag + rest)[1..] == tag[1..] + rest;
      assert tag[0] in tag;
      NameOfTag(tag[1..], rest);
      assert [tag[0]] + tag[1..] == tag;
    }
  }

  lemma ReadIndentedTag(o: Level, indent: nat, s: string, eol: string)
    requires '>' !in s && '<' !in eol && HandleTag(s, AddText(o, Spaces(indent))).Content?
    ensures Read(Content(o), Spaces(indent) + ("<" + s + ">") + eol)
            == Content(AddText(HandleTag(s, AddText(o, Spaces(indent))).level, eol))
  {
    var tag := "<" + s + ">";
    SpacesClean(indent);
    ReadAppend(Content(o), Spaces(indent) + tag, eol);
    ReadAppend(Content(o), Spaces(indent), tag);
    ReadText(o, Spaces(indent));
    ReadTag(AddText(o, Spaces(indent)), s);
    ReadText(HandleTag(s, AddText(o, Spaces(indent))).level, eol);
  }

  lemma ReadStart(o: Level, tag: string, attrs: string, indent: nat, eol: string)
    requires CleanTag(tag) && (attrs == "" || attrs == REMOVE) && '<' !in eol
    ensures Read(Content(o), WriteTag(tag + attrs, indent, true, eol))
            == Content(Inside(tag, attrs, eol, [], AddText(o, Spaces(indent))))
  {
    var s := tag + attrs;
    NameOfTag(tag, attrs);
    assert s[0] == tag[0];
    assert '>' !in s;
    ReadIndentedTag(o, indent, s, eol);
    assert WriteTag(s, indent, true, eol) == Spaces(indent) + ("<" + s + ">") + eol;
    assert "" + eol == eol;
  }

  lemma ReadEnd(o: Level, tag: string, indent: nat, eol: string)
    requires o.Inside? && o.name == tag && CleanTag(tag) && '<' !in eol
    ensures Read(Content(o), WriteTag(tag, indent, false, eol))
            == Content(AddText(AddKid(o.outer, Close(AddText(o, Spaces(indent)))), eol))
  {
    var s := "/" + tag;
    assert s[1..] == tag && '>' !in s;
    ReadIndentedTag(o, indent, s, eol);
    assert WriteTag(tag, indent, false, eol) == Spaces(indent) + ("<" + s + ">") + eol;
  }

  lemma ReadValue(o: Level, tag: string, value: string, indent: nat)
    requires CleanTag(tag) && '<' !in value
    ensures Read(Content(o), WriteTagWithValue(tag, value, indent)) == Content(Grown(o, [ExpectedValue(tag, value)], indent))
  {
    var attrs := if value != "_removed_" then "" else REMOVE;
    var text := if value != "_removed_" then value else "";
    var start, end := WriteTag(tag + attrs, indent, true, ""), WriteTag(tag, 0, false, "\n");
    assert tag + "" == tag && start + "" + end == start + end;
    assert WriteTagWithValue(tag, value, indent) == start + text + end;
    ReadAppend(Content(o), start + text, end);
    ReadAppend(Content(o), start, text);
    ReadStart(o, tag, attrs, indent, "");
    var inside := Inside(tag, attrs, "", [], AddText(o, Spaces(indent)));
    ReadText(inside, text);
    ReadEnd(AddText(inside, text), tag, 0, "\n");
    assert "" + text + Spaces(0) == text;
    assert Pad(1, indent) == Spaces(indent) + "\n";
    assert o.text + Spaces(indent) + "\n" == o.text + Pad(1, indent);
  }

  lemma GrownTwice(o: Level, a: seq<Elem>, b: seq<Elem>, indent: nat)
    ensures Grown(Grown(o, a, indent), b, indent) == Grown(o, a + b, indent)
  {
    PadAppend(|a|, |b|, indent);
    assert o.text + Pad(|a|, indent) + Pad(|b|, indent) == o.text + Pad(|a + b|, indent);
    assert o.kids + a + b == o.kids + (a + b);
  }

  lemma GrownByNone(o: Level, indent: nat)
    ensures Grown(o, [], indent) == o
  {
    assert o.text + "" == o.text && o.kids + [] == o.kids;
  }

  lemma {:induction false} ReadVector(o: Level, tag: string, values: seq<string>, indent: nat)
    requires CleanTag(tag) && forall v | v in values :: '<' !in v
    ensures Read(Content(o), WriteVector(tag, values, indent)) == Content(Grown(o, ExpectedVector(tag, values), indent))
    decreases |values|
  {
    if values == [] {
      GrownByNone(o, indent);
    } else {
      ReadAppend(Content(o), WriteTagWithValue(tag, values[0], indent), WriteVector(tag, values[1..], indent));
      ReadValue(o, tag, values[0], indent);
      var first := [ExpectedValue(tag, values[0])];
      ReadVector(Grown(o, first, indent), tag, values[1..], indent);
      GrownTwice(o, first, ExpectedVector(tag, values[1..]), indent);
    }
  }

  /** What is printed for a tree is read back as the elements it stands for, at any depth: the wrapping
      indent changes white space only. */
  lemma {:induction false} ReadPrint(o: Level, t: Tree, indent: nat)
    requires Clean(t)
    ensures Read(Content(o), Print(t, indent)) == Content(Grown(o, Expected(t, indent), indent))
    decreases t, 1
  {
    match t.value
    case None => ReadGroup(o, t, indent);
    case Some(Scalar(v)) => ReadValue(o, t.tag.text, v, indent);
    case Some(Vector(vs)) => ReadVector(o, t.tag.text, vs, indent);
  }

  lemma {:induction false} ReadGroup(o: Level, t: Tree, indent: nat)
    requires Clean(t) && t.value.None?
    ensures Read(Content(o), Print(t, indent)) == Content(Grown(o, Expected(t, indent), indent))
    decreases t, 0
  {
    var tag, deeper := t.tag.text, (indent + TAB) % 256;
    var start, body, end := WriteTag(tag, indent, true, "\n"), PrintAll(t.children, deeper), WriteTag(tag, indent, false, "\n");
    var kids := ExpectedAll(t.children, deeper);
    ReadAppend(Content(o), start + body, end);
    ReadAppend(Content(o), start, body);
    assert tag + "" == tag;
    ReadStart(o, tag, "", indent, "\n");
    var inside := Inside(tag, "", "\n", [], AddText(o, Spaces(indent)));
    ReadPrintAll(inside, t.children, deeper);
    ReadEnd(Grown(inside, kids, deeper), tag, indent, "\n");
    CloseGroup(o, tag, kids, indent, deeper);
  }

  lemma CloseGroup(o: Level, tag: string, kids: seq<Elem>, indent: nat, deeper: nat)
    ensures var full := Grown(Inside(tag, "", "\n", [], AddText(o, Spaces(indent))), kids, deeper);
      AddText(AddKid(AddText(o, Spaces(indent)), Close(AddText(full, Spaces(indent)))), "\n")
      == Grown(o, [Elem(tag, "", if kids == [] then "\n" + Spaces(indent) else "", kids)], indent)
  {
    assert [] + kids == kids;
    assert "\n" + "" == "\n";
    assert Pad(1, indent) == Spaces(indent) + "\n";
    assert o.text + Spaces(indent) + "\n" == o.text + Pad(1, indent);
  }

  lemma {:induction false} ReadPrintAll(o: Level, ts: seq<Tree>, indent: nat)
    requires CleanAll(ts)
    ensures Read(Content(o), PrintAll(ts, indent)) == Content(Grown(o, ExpectedAll(ts, indent), indent))
    decreases ts
  {
    if ts == [] {
      GrownByNone(o, indent);
    } else {
      ReadAppend(Content(o), Print(ts[0], indent), PrintAll(ts[1..], indent));
      ReadPrint(o, ts[0], indent);
      var first := Expected(ts[0], indent);
      ReadPrintAll(Grown(o, first, indent), ts[1..], indent);
      GrownTwice(o, first, ExpectedAll(ts[1..], indent), indent);
    }
  }

  /** How a document is laid out: four spaces more for each level, and values on the line of their tags. */
  lemma SampleDocument()
    ensures Print(Tree(Tag(""), None, [Tree(Tag("a"), None, [Tree(Tag("b"), Some(Scalar("v")), [])])]), 0)
            == "    <a>\n" + "        <b>v</b>\n" + "    </a>\n"
  {
    var b := Tree(Tag("b"), Some(Scalar("v")), []);
    var a := Tree(Tag("a"), None, [b]);
    ValueLine();
    GroupLines();
    PrintOne(b, 8);
    PrintOne(a, 4);
    assert Print(a, 4) == WriteTag("a", 4, true, "\n") + PrintAll([b], 8) + WriteTag("a", 4, false, "\n");
    assert Print(Tree(Tag(""), None, [a]), 0) == "" + PrintAll([a], 4) + "";
  }

  lemma ValueLine()
    ensures WriteTagWithValue("b", "v", 8) == "        <b>v</b>\n"
  {
    FourSpaces();
  }

  lemma GroupLines()
    ensures WriteTag("a", 4, true, "\n") == "    <a>\n" && WriteTag("a", 4, false, "\n") == "    </a>\n"
  {
    FourSpaces();
  }

  /** The values of a list, in their order. */
  lemma ListLines()
    ensures WriteVector("b", ["v", "w"], 8) == "        <b>v</b>\n" + "        <b>w</b>\n"
  {
    ValueLine();
    FourSpaces();
    assert ["v", "w"][1..] == ["w"] && ["w"][1..] == [];
    assert WriteTagWithValue("b", "w", 8) == "        <b>w</b>\n";
    assert WriteVector("b", ["w"], 8) == WriteTagWithValue("b", "w", 8) + WriteVector("b", [], 8);
  }

  lemma RemovalLine()
    ensures WriteTagWithValue("b", "_removed_", 4) == "    <b remove=\"1\"></b>\n"
  {
    FourSpaces();
  }

  lemma PrintOne(t: Tree, indent: nat)
    ensures PrintAll([t], indent) == Print(t, indent)
  {
    assert [t][1..] == [];
    assert PrintAll([t], indent) == Print(t, indent) + PrintAll([t][1..], indent);
  }

  lemma FourSpaces()
    ensures Spaces(4) == "    " && Spaces(8) == "        " && Spaces(0) == ""
  {
    assert Spaces(1) == " " && Spaces(2) == "  " && Spaces(3) == "   ";
    assert Spaces(5) == "     " && Spaces(6) == "      " && Spaces(7) == "       ";
  }

  /** The text of a whole document, below the nameless root, is well formed and reads back as the
      elements of its tree. */
  lemma DocumentRoundTrip(root: Tree)
    requires root.tag.text == "" && root.value.None? && CleanAll(root.children)
    ensures ReadDocument(Print(root, 0)) == Some(ExpectedAll(root.children, TAB))
  {
    var body := PrintAll(root.children, TAB);
    assert Print(root, 0) == "" + body + "" == body;
    ReadPrintAll(Document("", []), root.children, TAB);
    assert [] + ExpectedAll(root.children, TAB) == ExpectedAll(root.children, TAB);
  }
}
