/** Settings: a map from paths to values, normalised in place and inherited down the tree of clusters,
    shards and replicas (api/v1/type_settings.go). */
module Settings {
  import opened Commons
  import opened Text
  import opened Paths

  /** A settings key. */
  datatype Path = Path(text: string)

  /** A setting is a scalar or a vector of strings. */
  datatype Setting = Scalar(value: string) | Vector(values: seq<string>)

  type Entries = map<Path, Setting>

  function Norm(p: Path): Path
  {
    Path(NormalizeText(p.text))
  }

  /** Normalisation changes p. */
  predicate Raw(p: Path)
  {
    Norm(p) != p
  }

  lemma NormFacts(p: Path)
    ensures Norm(Norm(p)) == Norm(p)
    ensures |Norm(p).text| != |p.text| <==> Raw(p)
  {
    NormalizeIdempotent(p.text);
    LengthTestIsExact(p.text);
  }

  ghost predicate AllNormal(m: Entries)
  {
    forall p | p in m :: !Raw(p)
  }

  /** p may supply the value under q: un-normalised keys go before the normalised one. */
  ghost predicate Supplies(m: Entries, p: Path, q: Path)
  {
    && p in m && Norm(p) == q
    && (Raw(p) || forall r | r in m && Raw(r) :: Norm(r) != q)
  }

  /** What normalizePaths may leave: the images of the old keys, each with the value of a key it is the
      image of. Only when two un-normalised keys have the same image is there more than one choice. */
  ghost predicate NormalizationOf(now: Entries, m: Entries)
  {
    && (forall p | p in m :: Norm(p) in now)
    && (forall q | q in now :: SuppliedBySome(now, m, q))
  }

  ghost predicate SuppliedBySome(now: Entries, m: Entries, q: Path)
    requires q in now
  {
    exists p :: Supplies(m, p, q) && now[q] == m[p]
  }

  ghost predicate NoClash(m: Entries)
  {
    forall p, r | p in m && r in m && Raw(p) && Raw(r) && p != r :: Norm(p) != Norm(r)
  }

  class SettingsMap {
    var entries: Entries

    constructor (entries: Entries)
      ensures this.entries == entries
    {
      this.entries := entries;
    }

    /** normalizePaths, first loop: the keys whose length normalisation changes. */
    method PathsToNormalize() returns (paths: seq<Path>)
      ensures forall p :: p in paths <==> p in entries && Raw(p)
    {
      paths := [];
      var todo := entries.Keys;
      while todo != {}
        invariant todo <= entries.Keys
        invariant forall p :: p in paths <==> p in entries && p !in todo && Raw(p)
        decreases todo
      {
        var p := Pick(todo);
        NormFacts(p);
        todo := todo - {p};
        if |Norm(p).text| != |p.text| {
          paths := paths + [p];
        }
      }
    }

    /** normalizePaths, second loop: write the entries under their normalised paths. */
    method AddNormalized(paths: seq<Path>)
      requires forall p :: p in paths <==> p in entries && Raw(p)
      modifies this
      ensures Written(entries, old(entries), paths)
    {
      for i := 0 to |paths|
        invariant entries == Rewritten(old(entries), paths, i)
      {
        RewrittenKeeps(old(entries), paths, i, paths[i]);
        entries := entries[Norm(paths[i]) := entries[paths[i]]];
      }
      assert paths[..|paths|] == paths;
      RewrittenIsWritten(old(entries), paths, |paths|);
    }

    /** normalizePaths, last loop: delete the un-normalised keys. */
    method DeleteRaw(paths: seq<Path>)
      modifies this
      ensures forall q :: q in entries <==> q in old(entries) && q !in paths
      ensures forall q | q in entries :: entries[q] == old(entries)[q]
    {
      for i := 0 to |paths|
        invariant forall q :: q in entries <==> q in old(entries) && q !in paths[..i]
        invariant forall q | q in entries :: entries[q] == old(entries)[q]
      {
        entries := entries - {paths[i]};
        assert paths[..i + 1] == paths[..i] + [paths[i]];
      }
      assert paths[..|paths|] == paths;
    }

    /** Normalize. */
    method NormalizePaths()
      modifies this
      ensures NormalizationOf(entries, old(entries))
    {
      var paths := PathsToNormalize();
      AddNormalized(paths);
      ghost var added := entries;
      DeleteRaw(paths);
      RemoveRaw(entries, added, old(entries), paths);
    }

    /** MergeFrom: entries of src whose key is not there yet. */
    method MergeFrom(src: Entries)
      modifies this
      ensures entries == src + old(entries)
    {
      var todo := src.Keys;
      while todo != {}
        invariant todo <= src.Keys
        invariant forall k :: k in entries <==> k in old(entries) || (k in src && k !in todo)
        invariant forall k | k in entries :: entries[k] == if k in old(entries) then old(entries)[k] else src[k]
        decreases todo
      {
        var k := Pick(todo);
        todo := todo - {k};
        if k !in entries {
          entries := entries[k := src[k]];
        }
      }
    }

    /** Cluster.InheritFilesFrom. */
    method InheritFilesFrom(files: Entries)
      modifies this
      ensures entries == old(entries) + HostFiles(files)
    {
      MergeFromCB(files, (p: Path, _: Setting) => SectionOf(p) == HostSection);
      assert Accepted(files, (p: Path, _: Setting) => SectionOf(p) == HostSection) == HostFiles(files);
    }

    /** MergeFromCB: entries of src that the filter accepts replace what is there. */
    method MergeFromCB(src: Entries, accept: (Path, Setting) -> bool)
      modifies this
      ensures entries == old(entries) + Accepted(src, accept)
    {
      var todo := src.Keys;
      while todo != {}
        invariant todo <= src.Keys
        invariant forall k :: k in entries <==> k in old(entries) || (k in Accepted(src, accept) && k !in todo)
        invariant forall k | k in entries ::
          entries[k] == if k in Accepted(src, accept) && k !in todo then src[k] else old(entries)[k]
        decreases todo
      {
        var k := Pick(todo);
        todo := todo - {k};
        if accept(k, src[k]) {
          entries := entries[k := src[k]];
        }
      }
    }
  }

  function Accepted(src: Entries, accept: (Path, Setting) -> bool): Entries
  {
    map k | k in src && accept(k, src[k]) :: src[k]
  }

  // ---- which files a cluster inherits ----

  datatype Section = NoSection | CommonSection | UsersSection | HostSection

  /** The lower-case form of the characters that Go's case folding takes for ASCII letters: beside these, the
      long s and the Kelvin sign. */
  function Fold(c: char): char
  {
    if 'A' <= c <= 'Z' then c - 'A' + 'a'
    else if c == '\U{017F}' then 's'
    else if c == '\U{212A}' then 'k'
    else c
  }

  /** strings.EqualFold, for an ASCII second string. */
  predicate EqualFold(s: string, t: string)
  {
    |s| == |t| && forall i | 0 <= i < |s| :: Fold(s[i]) == Fold(t[i])
  }

  function StringToSection(section: string): Section
  {
    if EqualFold(section, "COMMON") || EqualFold(section, "config.d") then CommonSection
    else if EqualFold(section, "USERS") || EqualFold(section, "users.d") then UsersSection
    else if EqualFold(section, "HOST") || EqualFold(section, "conf.d") then HostSection
    else NoSection
  }

  /** getSectionFromPath, with its errors as no section. */
  function SectionOf(p: Path): Section
  {
    var parts := Split(p.text, '/');
    if |parts| < 2 then NoSection else StringToSection(parts[0])
  }

  /** The part of the installation's files that its clusters inherit. */
  function HostFiles(files: Entries): Entries
  {
    map p | p in files && SectionOf(p) == HostSection :: files[p]
  }

  /** Midway through normalizePaths: the old entries are still there, and each key that is not raw has
      the value of a key written so far, or of the old entry if none of those maps to it. */
  ghost predicate Written(now: Entries, m: Entries, written: seq<Path>)
  {
    && (forall p | p in m :: p in now)
    && (forall p | p in written :: Norm(p) in now)
    && (forall q | q in now :: if Raw(q) then q in m && now[q] == m[q] else WrittenAt(now, m, written, q))
  }

  ghost predicate WrittenAt(now: Entries, m: Entries, written: seq<Path>, q: Path)
    requires q in now
  {
    if exists p :: p in written && Norm(p) == q
    then exists p :: p in written && Norm(p) == q && p in m && now[q] == m[p]
    else q in m && now[q] == m[q]
  }

  lemma WriteOneAt(before: Entries, m: Entries, written: seq<Path>, p: Path, q: Path)
    requires Written(before, m, written) && p in m && Raw(p)
    requires !Raw(q) && q in before[Norm(p) := before[p]]
    ensures WrittenAt(before[Norm(p) := before[p]], m, written + [p], q)
  {
    var more := written + [p];
    assert p in more;
    if q != Norm(p) {
      if r :| r in more && Norm(r) == q {
        var t :| t in written && Norm(t) == q && t in m && before[q] == m[t];
        assert t in more;
      }
    }
  }

  lemma WriteOne(before: Entries, m: Entries, written: seq<Path>, p: Path)
    requires Written(before, m, written) && p in m && Raw(p)
    ensures Written(before[Norm(p) := before[p]], m, written + [p])
  {
    var now := before[Norm(p) := before[p]];
    NormFacts(p);
    forall q | q in now && !Raw(q)
      ensures WrittenAt(now, m, written + [p], q)
    {
      WriteOneAt(before, m, written, p, q);
    }
  }

  /** The entries once the first n paths have been written. */
  function Rewritten(m: Entries, paths: seq<Path>, n: nat): Entries
    requires n <= |paths|
  {
    if n == 0 then m
    else
      var before, p := Rewritten(m, paths, n - 1), paths[n - 1];
      if p in before then before[Norm(p) := before[p]] else before
  }

  lemma {:induction false} RewrittenKeeps(m: Entries, paths: seq<Path>, n: nat, p: Path)
    requires n <= |paths| && p in paths && forall q | q in paths :: q in m
    ensures p in Rewritten(m, paths, n)
  {
    if n > 0 {
      RewrittenKeeps(m, paths, n - 1, p);
    }
  }

  lemma {:induction false} RewrittenIsWritten(m: Entries, paths: seq<Path>, n: nat)
    requires n <= |paths| && forall p | p in paths :: p in m && Raw(p)
    ensures Written(Rewritten(m, paths, n), m, paths[..n])
  {
    if n > 0 {
      RewrittenIsWritten(m, paths, n - 1);
      RewrittenKeeps(m, paths, n - 1, paths[n - 1]);
      assert paths[..n] == paths[..n - 1] + [paths[n - 1]];
      WriteOne(Rewritten(m, paths, n - 1), m, paths[..n - 1], paths[n - 1]);
    }
  }

  /** Deleting the raw keys then completes the normalisation; nothing just written is deleted. */
  lemma RemoveRaw(now: Entries, added: Entries, m: Entries, paths: seq<Path>)
    requires forall p :: p in paths <==> p in m && Raw(p)
    requires Written(added, m, paths)
    requires forall q :: q in now <==> q in added && q !in paths
    requires forall q | q in now :: now[q] == added[q]
    ensures NormalizationOf(now, m)
  {
    forall p | p in m
      ensures Norm(p) in now
    {
      NormFacts(p);
      assert Norm(p) in added;
    }
    forall q | q in now
      ensures SuppliedBySome(now, m, q)
    {
      assert WrittenAt(added, m, paths, q);
      if p :| p in paths && Norm(p) == q {
        var r :| r in paths && Norm(r) == q && r in m && added[q] == m[r];
        assert Supplies(m, r, q);
      } else {
        assert Supplies(m, q, q);
      }
    }
  }

  // ---- what normalisation guarantees ----

  lemma NormalizedKeys(now: Entries, m: Entries)
    requires NormalizationOf(now, m)
    ensures AllNormal(now)
    ensures forall q :: q in now <==> exists p :: p in m && Norm(p) == q
  {
    forall q | q in now
      ensures !Raw(q) && exists p :: p in m && Norm(p) == q
    {
      assert SuppliedBySome(now, m, q);
      var p :| Supplies(m, p, q) && now[q] == m[p];
      NormFacts(p);
    }
  }

  /** Without clashes there is only one possible outcome, in whatever order the map is iterated. */
  lemma NormalizationUnique(a: Entries, b: Entries, m: Entries)
    requires NormalizationOf(a, m) && NormalizationOf(b, m) && NoClash(m)
    ensures a == b
  {
    NormalizedKeys(a, m);
    NormalizedKeys(b, m);
    forall q | q in a
      ensures a[q] == b[q]
    {
      assert SuppliedBySome(a, m, q) && SuppliedBySome(b, m, q);
    }
  }

  /** A second run changes nothing. */
  lemma SecondRunChangesNothing(again: Entries, now: Entries, m: Entries)
    requires NormalizationOf(now, m) && NormalizationOf(again, now)
    ensures again == now
  {
    NormalizedKeys(now, m);
    NormalStays(again, now);
  }

  lemma NormalStays(again: Entries, m: Entries)
    requires AllNormal(m) && NormalizationOf(again, m)
    ensures again == m
  {
    NormalizedKeys(again, m);
    forall q | q in again
      ensures q in m && again[q] == m[q]
    {
      assert SuppliedBySome(again, m, q);
    }
    forall q | q in m
      ensures q in again
    {
      assert Norm(q) == q;
    }
  }

  // ---- inheritance ----

  lemma SuppliesMerged(parent: Entries, child: Entries, p: Path, q: Path)
    requires AllNormal(parent)
    ensures p in child ==> (Supplies(parent + child, p, q) <==> Supplies(child, p, q))
    ensures Supplies(parent + child, p, q) && p !in child ==> p == q && forall r | r in child && Raw(r) :: Norm(r) != q
  {
    assert forall r | Raw(r) :: r in parent + child <==> r in child;
  }

  /** Merging a normalised parent into a child and then normalising gives what normalising the child and
      then merging gives: the child wins even where it is written un-normalised. */
  lemma MergeThenNormalize(parent: Entries, child: Entries, normal: Entries)
    requires AllNormal(parent) && NormalizationOf(normal, child)
    ensures NormalizationOf(parent + normal, parent + child)
  {
    NormalizedKeys(normal, child);
    forall q | q in parent + normal
      ensures SuppliedBySome(parent + normal, parent + child, q)
    {
      if q in normal {
        assert SuppliedBySome(normal, child, q);
        var p :| Supplies(child, p, q) && normal[q] == child[p];
        SuppliesMerged(parent, child, p, q);
      } else {
        assert Supplies(parent + child, q, q);
      }
    }
  }

  ghost predicate HasImage(m: Entries, q: Path)
  {
    exists p :: p in m && Norm(p) == q
  }

  ghost function ChildPart(merged: Entries, child: Entries): Entries
  {
    map q | q in merged && HasImage(child, q) :: merged[q]
  }

  lemma MergedAt(parent: Entries, child: Entries, merged: Entries, q: Path)
    requires AllNormal(parent) && NormalizationOf(merged, parent + child) && q in merged
    ensures if HasImage(child, q) then SuppliedBySome(ChildPart(merged, child), child, q) else q in parent && merged[q] == parent[q]
  {
    assert SuppliedBySome(merged, parent + child, q);
    var p :| Supplies(parent + child, p, q) && merged[q] == (parent + child)[p];
    SuppliesMerged(parent, child, p, q);
    if p in child {
      assert HasImage(child, q);
    } else {
      assert forall c | c in child && Norm(c) == q :: c == q;
    }
  }

  lemma ChildPartIsNormal(parent: Entries, child: Entries, merged: Entries)
    requires AllNormal(parent) && NormalizationOf(merged, parent + child)
    ensures NormalizationOf(ChildPart(merged, child), child)
  {
    forall p | p in child
      ensures Norm(p) in ChildPart(merged, child)
    {
      assert p in parent + child;
    }
    forall q | q in ChildPart(merged, child)
      ensures SuppliedBySome(ChildPart(merged, child), child, q)
    {
      MergedAt(parent, child, merged, q);
    }
  }

  lemma ParentStays(parent: Entries, child: Entries, merged: Entries, q: Path)
    requires AllNormal(parent) && NormalizationOf(merged, parent + child) && q in parent
    ensures q in merged
  {
    assert q in parent + child && Norm(q) == q;
  }

  lemma RestIsParent(parent: Entries, child: Entries, merged: Entries)
    requires AllNormal(parent) && NormalizationOf(merged, parent + child)
    ensures merged == parent + ChildPart(merged, child)
  {
    forall q
      ensures q in merged <==> q in parent + ChildPart(merged, child)
      ensures q in merged && q in parent + ChildPart(merged, child) ==> merged[q] == (parent + ChildPart(merged, child))[q]
    {
      if q in parent {
        ParentStays(parent, child, merged, q);
      }
      if q in merged {
        MergedAt(parent, child, merged, q);
      }
    }
  }

  /** And nothing else: every outcome of merging first is the outcome of normalising first. */
  lemma NormalizeThenMerge(parent: Entries, child: Entries, merged: Entries) returns (normal: Entries)
    requires AllNormal(parent) && NormalizationOf(merged, parent + child)
    ensures NormalizationOf(normal, child) && merged == parent + normal
  {
    normal := ChildPart(merged, child);
    ChildPartIsNormal(parent, child, merged);
    RestIsParent(parent, child, merged);
  }

  /** A parent that is not normalised would break this: its un-normalised key beats the child's. */
  lemma RawParentBeatsChild(merged: Entries, normal: Entries)
    requires NormalizationOf(merged, map[Path("/a") := Scalar("parent")] + map[Path("a") := Scalar("child")])
    requires NormalizationOf(normal, map[Path("a") := Scalar("child")])
    ensures merged[Path("a")] == Scalar("parent") && normal[Path("a")] == Scalar("child")
  {
    var m := map[Path("/a") := Scalar("parent")] + map[Path("a") := Scalar("child")];
    SlashA();
    assert Path("/a") in m && Path("a") in map[Path("a") := Scalar("child")];
    assert SuppliedBySome(merged, m, Path("a"));
    assert SuppliedBySome(normal, map[Path("a") := Scalar("child")], Path("a"));
  }

  lemma SlashA()
    ensures Norm(Path("/a")) == Path("a") && Norm(Path("a")) == Path("a")
  {
    assert "/a"[1..] == "a" && "a"[1..] == "";
    assert Collapse("a") == "a";
    assert Collapse("/a") == "/a";
    assert TrimLeft("a") == "a";
    assert TrimLeft("/a") == "a";
    assert TrimRight("a") == "a";
  }

  /** p is an un-normalised key that stands for q. */
  predicate StandsFor(m: Entries, p: Path, q: Path)
  {
    p in m && Raw(p) && Norm(p) == q
  }

  ghost predicate HasRaw(m: Entries, q: Path)
  {
    exists p :: StandsFor(m, p, q)
  }

  /** Some un-normalised key that stands for q has the value v. */
  ghost predicate HasRawWith(m: Entries, q: Path, v: Setting)
  {
    exists p :: StandsFor(m, p, q) && m[p] == v
  }

  lemma RawSupplies(now: Entries, m: Entries, q: Path)
    requires NormalizationOf(now, m) && HasRaw(m, q)
    ensures q in now && HasRawWith(m, q, now[q])
  {
    var p :| StandsFor(m, p, q);
    assert SuppliedBySome(now, m, q);
    var r :| Supplies(m, r, q) && now[q] == m[r];
    assert StandsFor(m, r, q);
  }

  lemma RawOfMerged(accepted: Entries, child: Entries, q: Path)
    requires AllNormal(accepted)
    ensures HasRaw(child + accepted, q) <==> HasRaw(child, q)
    ensures forall v :: HasRawWith(child + accepted, q, v) <==> HasRawWith(child, q, v)
  {
    forall p
      ensures StandsFor(child + accepted, p, q) <==> StandsFor(child, p, q)
      ensures StandsFor(child, p, q) ==> (child + accepted)[p] == child[p]
    {
    }
  }

  /** Files are inherited by a cluster through MergeFromCB, where the parent's entries win. There
      normalising first is the same as merging first exactly if, wherever un-normalised keys of the child
      stand for an accepted parent key, one of them has the parent's value. */
  lemma MergeFromCBCommutesIff(accepted: Entries, child: Entries, normal: Entries)
    requires AllNormal(accepted) && NormalizationOf(normal, child)
    ensures NormalizationOf(normal + accepted, child + accepted)
            <==> forall q | q in accepted && HasRaw(child, q) :: HasRawWith(child, q, accepted[q])
  {
    var both, merged := normal + accepted, child + accepted;
    if NormalizationOf(both, merged) {
      forall q | q in accepted && HasRaw(child, q)
        ensures HasRawWith(child, q, accepted[q])
      {
        RawOfMerged(accepted, child, q);
        RawSupplies(both, merged, q);
      }
    }
    if forall q | q in accepted && HasRaw(child, q) :: HasRawWith(child, q, accepted[q]) {
      forall q | q in both
        ensures SuppliedBySome(both, merged, q)
      {
        FilesSupplied(accepted, child, normal, q);
      }
      assert forall p | p in accepted :: Norm(p) == p;
    }
  }

  lemma FilesSupplied(accepted: Entries, child: Entries, normal: Entries, q: Path)
    requires AllNormal(accepted) && NormalizationOf(normal, child)
    requires q in accepted && HasRaw(child, q) ==> HasRawWith(child, q, accepted[q])
    requires q in normal + accepted
    ensures SuppliedBySome(normal + accepted, child + accepted, q)
  {
    var both, merged := normal + accepted, child + accepted;
    assert forall r | Raw(r) :: r in merged <==> r in child;
    if q in accepted {
      if p :| StandsFor(child, p, q) && child[p] == accepted[q] {
        assert Supplies(merged, p, q);
      } else {
        assert forall r | r in child && Raw(r) && Norm(r) == q :: StandsFor(child, r, q);
        assert Supplies(merged, q, q);
      }
    } else {
      assert SuppliedBySome(normal, child, q);
      var p :| Supplies(child, p, q) && normal[q] == child[p];
      NormFacts(p);
      assert Supplies(merged, p, q);
    }
  }

  /** File maps that do not commute: a cluster writes a file un-normalised, and the installation has
      another text for it. Merging first leaves the cluster's text, normalising first the installation's. */
  lemma RawFileWins(p: Path, x: Setting, y: Setting, normal: Entries, merged: Entries)
    requires Raw(p) && x != y
    requires NormalizationOf(normal, map[p := x]) && NormalizationOf(merged, map[p := x] + map[Norm(p) := y])
    ensures Norm(p) in merged && merged[Norm(p)] == x
    ensures (normal + map[Norm(p) := y])[Norm(p)] == y
    ensures !NormalizationOf(normal + map[Norm(p) := y], map[p := x] + map[Norm(p) := y])
  {
    var child, accepted, q := map[p := x], map[Norm(p) := y], Norm(p);
    NormFacts(p);
    assert StandsFor(child, p, q);
    assert forall v :: HasRawWith(child, q, v) ==> v == x;
    RawOfMerged(accepted, child, q);
    RawSupplies(merged, child + accepted, q);
    MergeFromCBCommutesIff(accepted, child, normal);
  }

  /** The section of a path is that of its first part, which is not changed by normalisation unless it is
      empty. */
  lemma HostFile(section: string, file: string)
    requires '/' !in section && StringToSection(section) == HostSection
    ensures SectionOf(Path(section + "/" + file)) == HostSection
  {
    SplitAppend(section, file, '/');
    SplitWithout(section, '/');
  }

  /** Folding does not tell upper from lower case. */
  predicate SameLetters(s: string, t: string)
  {
    |s| == |t| && forall i | 0 <= i < |s| :: s[i] == t[i] || ('a' <= t[i] <= 'z' && s[i] == t[i] - 'a' + 'A') || ('A' <= t[i] <= 'Z' && s[i] == t[i] - 'A' + 'a')
  }

  lemma FoldsAlike(s: string, t: string)
    requires SameLetters(s, t)
    ensures forall u :: EqualFold(s, u) <==> EqualFold(t, u)
  {
    assert forall i | 0 <= i < |s| :: Fold(s[i]) == Fold(t[i]);
  }

  /** A path needs a part after the section; and folding takes the long s for an s. */
  lemma HostAloneAndLongS(file: string)
    ensures SectionOf(Path("host")) == NoSection
    ensures SectionOf(Path("ho\U{017F}t/" + file)) == HostSection
  {
    SplitWithout("host", '/');
    SplitWithout("ho\U{017F}t", '/');
    SplitAppend("ho\U{017F}t", file, '/');
    assert "ho\U{017F}t/" + file == "ho\U{017F}t" + ['/'] + file;
    LongSHost();
  }

  lemma LongSHost()
    ensures StringToSection("ho\U{017F}t") == HostSection
  {
    HostIsHost();
    LongSFolds("ho\U{017F}t", "host");
  }

  lemma LongSFolds(s: string, t: string)
    requires |s| == |t| && forall i | 0 <= i < |s| :: s[i] == t[i] || (s[i] == '\U{017F}' && t[i] == 's')
    ensures forall u :: EqualFold(s, u) <==> EqualFold(t, u)
  {
    assert forall i | 0 <= i < |s| :: Fold(s[i]) == Fold(t[i]);
  }

  /** The part of a path before the first slash decides, in upper or lower case: files of the host sections
      are inherited, those of the others are not. */
  lemma InheritedSections(section: string, file: string)
    requires '/' !in section
    ensures SameLetters(section, "host") || SameLetters(section, "conf.d") ==> SectionOf(Path(section + "/" + file)) == HostSection
    ensures SameLetters(section, "config.d") || SameLetters(section, "users.d") || SameLetters(section, "common") || SameLetters(section, "users")
            ==> SectionOf(Path(section + "/" + file)) != HostSection
  {
    SplitAppend(section, file, '/');
    SplitWithout(section, '/');
    KnownSections();
    if SameLetters(section, "host") { FoldsAlike(section, "host"); }
    if SameLetters(section, "conf.d") { FoldsAlike(section, "conf.d"); }
    if SameLetters(section, "config.d") { FoldsAlike(section, "config.d"); }
    if SameLetters(section, "users.d") { FoldsAlike(section, "users.d"); }
    if SameLetters(section, "common") { FoldsAlike(section, "common"); }
    if SameLetters(section, "users") { FoldsAlike(section, "users"); }
  }

  lemma KnownSections()
    ensures StringToSection("host") == HostSection && StringToSection("conf.d") == HostSection
    ensures StringToSection("config.d") != HostSection && StringToSection("users.d") != HostSection
    ensures StringToSection("common") != HostSection && StringToSection("users") != HostSection
  {
    HostIsHost();
    assert EqualFold("conf.d", "conf.d");
    assert Fold("conf.d"[0]) != Fold("USERS"[0]) && Fold("conf.d"[0]) != Fold("users.d"[0]) && Fold("conf.d"[0]) != Fold("HOST"[0]);
    assert Fold("conf.d"[4]) != Fold("COMMON"[4]);
    assert EqualFold("config.d", "config.d") && EqualFold("users.d", "users.d");
    assert EqualFold("common", "COMMON") by {
      assert Fold('c') == Fold('C') && Fold('o') == Fold('O') && Fold('m') == Fold('M') && Fold('n') == Fold('N');
    }
    assert EqualFold("users", "USERS") by {
      assert Fold('u') == Fold('U') && Fold('s') == Fold('S') && Fold('e') == Fold('E') && Fold('r') == Fold('R');
    }
  }

  lemma HostIsHost()
    ensures StringToSection("host") == HostSection
  {
    assert Fold('h') == Fold('H') && Fold('o') == Fold('O') && Fold('s') == Fold('S') && Fold('t') == Fold('T');
    assert EqualFold("host", "HOST");
    assert "host"[0] == 'h' && "users.d"[0] == 'u' && |"host"| == 4;
  }

  /** For example a file of the host section, written with a leading slash by a cluster, and inherited from
      the installation next to one of another section, which is not. */
  lemma HostFileDoesNotCommute(normal: Entries)
    requires NormalizationOf(normal, map[Path("/host/f") := Scalar("cluster")])
    ensures var inherited := HostFiles(map[Path("host/f") := Scalar("installation"), Path("f") := Scalar("other")]);
      && inherited == map[Path("host/f") := Scalar("installation")]
      && !NormalizationOf(normal + inherited, map[Path("/host/f") := Scalar("cluster")] + inherited)
  {
    var p, x, y := Path("/host/f"), Scalar("cluster"), Scalar("installation");
    SlashHost();
    HostFilesOfBoth();
    if NormalizationOf(normal + map[Norm(p) := y], map[p := x] + map[Norm(p) := y]) {
      RawFileWins(p, x, y, normal, normal + map[Norm(p) := y]);
    }
  }

  lemma HostFilesOfBoth()
    ensures HostFiles(map[Path("host/f") := Scalar("installation"), Path("f") := Scalar("other")])
            == map[Path("host/f") := Scalar("installation")]
  {
    HostIsHost();
    HostFile("host", "f");
    assert "host" + "/" + "f" == "host/f";
    SplitWithout("f", '/');
  }

  lemma SlashHost()
    ensures Norm(Path("/host/f")) == Path("host/f")
    ensures Raw(Path("/host/f")) && !Raw(Path("host/f"))
  {
    var s := "host/f";
    LengthTestIsExact(s);
    CollapseLength("/host/f");
    CollapseLength(s);
    assert "/host/f"[1..] == s;
    assert TrimLeft("/host/f") == TrimLeft(s) == s;
  }

  /** A fresh replica ends with the settings its shard ended with, a shard with those it inherits and its
      own. */
  lemma FreshReplicaHasShardSettings(cluster: Entries, own: Entries, shard: Entries, replica: Entries)
    requires AllNormal(cluster)
    requires NormalizationOf(shard, cluster + own) && NormalizationOf(replica, shard + map[])
    ensures replica == shard
    ensures exists normal :: NormalizationOf(normal, own) && shard == cluster + normal
  {
    assert shard + map[] == shard;
    NormalizedKeys(shard, cluster + own);
    NormalStays(replica, shard);
    var normal := NormalizeThenMerge(cluster, own, shard);
  }
}
