/** Where the document shows a setting, in terms of the words of its key (pkg/util/xml/xml.go). */
module XmlWords {
  import opened Commons
  import opened Text
  import opened Paths
  import opened Settings
  import opened XmlText
  import opened XmlTree
  import opened XmlGenerator
  import opened XmlDocument

  function Tags(words: seq<string>): seq<Tag>
  {
    seq(|words|, i requires 0 <= i < |words| => Tag(words[i]))
  }

  /** The tag of the section, if there is one, and then the words of the key. */
  function WordTags(prefix: string, n: Path): seq<Tag>
  {
    (if prefix == "" then [] else [Tag(prefix)]) + Tags(Words(n.text))
  }

  lemma {:induction false} NonEmptyParts(parts: seq<string>)
    ensures forall p | p in NonEmpty(parts) :: p in parts && p != ""
  {
    if parts != [] {
      NonEmptyParts(parts[1..]);
    }
  }

  lemma WordsAreParts(s: string)
    ensures forall w | w in Words(s) :: w != "" && '/' !in w
  {
    NonEmptyParts(Split(s, '/'));
  }

  lemma SplitOfNormal(n: Path)
    requires Words(n.text) != []
    ensures Split(NormalizeText(n.text), '/') == Words(n.text)
  {
    WordsAreParts(n.text);
    NormalizeIsJoinOfWords(n.text);
    SplitJoin(Words(n.text), '/');
  }

  lemma TagsOfWords(prefix: string, n: Path)
    requires '/' !in prefix && Words(n.text) != []
    ensures TagsOf(PathOf(prefix, n)) == WordTags(prefix, n)
    ensures PathOf(prefix, n).text != ""
  {
    SplitOfNormal(n);
    var text := NormalizeText(n.text);
    if prefix != "" {
      SplitAppend(prefix, text, '/');
      SplitWithout(prefix, '/');
      assert PathOf(prefix, n).text == prefix + ['/'] + text;
      assert Split(PathOf(prefix, n).text, '/') == [prefix] + Words(n.text);
    } else {
      WordsAreParts(n.text);
      SplitWithout("", '/');
      assert Words(n.text)[0] in Words(n.text);
    }
  }

  lemma TagsDiffer(a: seq<string>, b: seq<string>)
    ensures Tags(a) == Tags(b) <==> a == b
  {
    if Tags(a) == Tags(b) {
      assert |a| == |Tags(a)| == |b|;
      forall i | 0 <= i < |a|
        ensures a[i] == b[i]
      {
        assert Tags(a)[i] == Tag(a[i]) && Tags(b)[i] == Tag(b[i]);
      }
    }
  }

  lemma WordTagsDiffer(prefix: string, m: Path, n: Path)
    requires WordTags(prefix, m) == WordTags(prefix, n)
    ensures Words(m.text) == Words(n.text)
  {
    var head := if prefix == "" then [] else [Tag(prefix)];
    assert WordTags(prefix, m)[|head|..] == Tags(Words(m.text));
    assert WordTags(prefix, n)[|head|..] == Tags(Words(n.text));
    TagsDiffer(Words(m.text), Words(n.text));
  }

  /** Every key has words, no two keys have the same, and none contains markup. */
  ghost predicate GoodKeys(settings: Entries)
  {
    && (forall n | n in settings :: Words(n.text) != [])
    && (forall m, n | m in settings && n in settings && Words(m.text) == Words(n.text) :: m == n)
    && forall n, w | n in settings && w in Words(n.text) :: CleanTag(w)
  }

  lemma GoodKeysGivePaths(settings: Entries, prefix: string)
    requires GoodKeys(settings) && '/' !in prefix && (prefix == "" || CleanTag(prefix))
    ensures DistinctPaths(settings, prefix) && CleanPaths(settings, prefix)
  {
    forall m, n | m in settings && n in settings && PathOf(prefix, m) == PathOf(prefix, n)
      ensures m == n
    {
      TagsOfWords(prefix, m);
      TagsOfWords(prefix, n);
      WordTagsDiffer(prefix, m, n);
    }
    forall n, tag | n in settings && PathOf(prefix, n).text != "" && tag in TagsOf(PathOf(prefix, n))
      ensures CleanTag(tag.text)
    {
      TagsOfWords(prefix, n);
      CleanWordTag(prefix, n, tag);
    }
  }

  lemma CleanWordTag(prefix: string, n: Path, tag: Tag)
    requires tag in WordTags(prefix, n)
    ensures tag.text in Words(n.text) || (prefix != "" && tag.text == prefix)
  {
    if tag in Tags(Words(n.text)) {
      var i :| 0 <= i < |Tags(Words(n.text))| && Tags(Words(n.text))[i] == tag;
      assert Words(n.text)[i] in Words(n.text);
    }
  }

  /** The words of one key are a proper prefix of those of another. */
  predicate WordsAbove(m: Path, n: Path)
  {
    var a, b := Words(m.text), Words(n.text);
    |a| < |b| && b[..|a|] == a
  }

  lemma AboveByWords(prefix: string, m: Path, n: Path)
    requires Words(m.text) != []
    ensures Above(WordTags(prefix, m), WordTags(prefix, n)) <==> WordsAbove(m, n)
  {
    var a, b := Words(m.text), Words(n.text);
    var head := if prefix == "" then [] else [Tag(prefix)];
    var p, q := WordTags(prefix, m), WordTags(prefix, n);
    assert |p| == |head| + |a| && |q| == |head| + |b|;
    if |a| < |b| {
      assert q[..|p|] == head + Tags(b)[..|a|];
      assert Tags(b)[..|a|] == Tags(b[..|a|]);
      assert p[|head|..] == Tags(a) && (head + Tags(b[..|a|]))[|head|..] == Tags(b[..|a|]);
      TagsDiffer(a, b[..|a|]);
    }
  }

  lemma CutOffIff(settings: Entries, prefix: string, n: Path)
    requires GoodKeys(settings) && '/' !in prefix
    ensures CutOff(settings, prefix, WordTags(prefix, n))
            <==> exists m | m in settings :: WordsAbove(m, n)
  {
    if p :| Above(p, WordTags(prefix, n)) && IsPathTags(settings, prefix, p) {
      var m :| m in settings && PathOf(prefix, m).text != "" && TagsOf(PathOf(prefix, m)) == p;
      TagsOfWords(prefix, m);
      AboveByWords(prefix, m, n);
    }
    if m :| m in settings && WordsAbove(m, n) {
      TagsOfWords(prefix, m);
      AboveByWords(prefix, m, n);
      assert IsPathTags(settings, prefix, WordTags(prefix, m));
    }
  }

  /** The value is the setting, or one of its values. */
  predicate HasValue(s: Setting, v: string)
  {
    s == Scalar(v) || (s.Vector? && v in s.values)
  }

  lemma ValuesOf(s: Setting, v: string)
    ensures HasValue(s, v) <==> v in AsVector(s)
  {
  }

  /** The element that shows a text: just the text, or the marker for removal. */
  function Shown(tag: string, v: string): Elem
  {
    if v == "_removed_" then Elem(tag, " remove=\"1\"", "", []) else Elem(tag, "", v, [])
  }

  lemma ShownIsExpected(tag: string, v: string)
    ensures Shown(tag, v) == ExpectedValue(tag, v)
  {
  }

  lemma LastWordTag(prefix: string, n: Path)
    requires Words(n.text) != []
    ensures var q, words := WordTags(prefix, n), Words(n.text);
      q != [] && q[|q| - 1] == Tag(words[|words| - 1])
  {
  }

  predicate ShowsAt(doc: Option<seq<Elem>>, q: seq<Tag>, e: Elem)
  {
    doc.Some? && ShowsIn(doc.value, q, e)
  }

  /** The element is found at the end of the path of tags. */
  predicate ShowsIn(elems: seq<Elem>, q: seq<Tag>, e: Elem)
    decreases |q|
  {
    q != [] && exists d | d in elems :: d.name == q[0].text && if |q| == 1 then d == e else ShowsIn(d.kids, q[1..], e)
  }

  lemma {:induction false} ShowsFrom(elems: seq<Elem>, q: seq<Tag>, k: nat, e: Elem)
    requires k <= |q|
    ensures ShowsIn(elems, q[k..], e) <==> ElemAt(elems, q, k, e)
    decreases |q| - k
  {
    if k < |q| {
      assert q[k..][0] == q[k] && q[k..][1..] == q[k + 1..] && (|q[k..]| == 1 <==> k + 1 == |q|);
      forall d | d in elems {
        ShowsFrom(d.kids, q, k + 1, e);
      }
    }
  }

  /** The document generated for a section shows a text at the tags of the section and of the words of a key
      exactly if it is a value of the setting with that key and the words of no other key stop above. */
  lemma DocumentShowsWordsIff(settings: Entries, prefix: string, names: seq<Path>, n: Path, v: string)
    requires Lists(names, settings.Keys) && n in settings && CleanSettings(settings)
    requires GoodKeys(settings) && '/' !in prefix && (prefix == "" || CleanTag(prefix))
    ensures var words := Words(n.text);
      ShowsAt(ReadDocument(Print(TreeOf(settings, prefix, names), 0)), WordTags(prefix, n), Shown(words[|words| - 1], v))
      <==> HasValue(settings[n], v) && !exists m | m in settings :: WordsAbove(m, n)
  {
    var doc, q := ReadDocument(Print(TreeOf(settings, prefix, names), 0)), WordTags(prefix, n);
    var words := Words(n.text);
    GoodKeysGivePaths(settings, prefix);
    TagsOfWords(prefix, n);
    LastWordTag(prefix, n);
    ShownIsExpected(words[|words| - 1], v);
    ValuesOf(settings[n], v);
    CutOffIff(settings, prefix, n);
    ShownAtTags(settings, prefix, names, n, v, q);
    ShowsAtElem(doc, q, Shown(words[|words| - 1], v));
  }

  lemma ShowsAtElem(doc: Option<seq<Elem>>, q: seq<Tag>, e: Elem)
    requires doc.Some?
    ensures ShowsAt(doc, q, e) <==> ElemAt(doc.value, q, 0, e)
  {
    ShowsFrom(doc.value, q, 0, e);
    assert q[0..] == q;
  }

  lemma ShownAtTags(settings: Entries, prefix: string, names: seq<Path>, n: Path, v: string, q: seq<Tag>)
    requires Lists(names, settings.Keys) && DistinctPaths(settings, prefix)
    requires CleanSettings(settings) && CleanPaths(settings, prefix)
    requires n in settings && PathOf(prefix, n).text != "" && q == TagsOf(PathOf(prefix, n))
    ensures var doc := ReadDocument(Print(TreeOf(settings, prefix, names), 0));
      && doc.Some? && q != []
      && (ElemAt(doc.value, q, 0, ExpectedValue(q[|q| - 1].text, v))
          <==> v in AsVector(settings[n]) && !CutOff(settings, prefix, q))
  {
    DocumentShowsIff(settings, prefix, names, n, v);
  }
}
