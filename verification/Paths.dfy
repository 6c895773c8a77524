/** Path normalisation of settings keys (api/v1/type_settings.go, pkg/util/xml/xml.go). */
module Paths {
  import opened Text

  /** Replace every run of slashes by one. */
  function Collapse(s: string): string
  {
    if |s| < 2 then s
    else if s[0] == '/' && s[1] == '/' then Collapse(s[1..])
    else [s[0]] + Collapse(s[1..])
  }

  function TrimLeft(s: string): string
  {
    if s != "" && s[0] == '/' then TrimLeft(s[1..]) else s
  }

  function TrimRight(s: string): string
  {
    if s != "" && s[|s| - 1] == '/' then TrimRight(s[..|s| - 1]) else s
  }

  /** normalizeSettingsKeyAsPath. */
  function NormalizeText(s: string): string
  {
    TrimRight(TrimLeft(Collapse(s)))
  }

  /** No slash at either end, no two in a row. */
  ghost predicate IsNormalText(s: string)
  {
    && (s != "" ==> s[0] != '/' && s[|s| - 1] != '/')
    && forall i :: 0 <= i < |s| - 1 ==> !(s[i] == '/' && s[i + 1] == '/')
  }

  // ---- the reference meaning: the non-empty parts, joined ----

  function NonEmpty(parts: seq<string>): seq<string>
  {
    if parts == [] then []
    else (if parts[0] == "" then [] else [parts[0]]) + NonEmpty(parts[1..])
  }

  function Words(s: string): seq<string>
  {
    NonEmpty(Split(s, '/'))
  }

  lemma {:induction false} NonEmptyAppend(a: seq<string>, b: seq<string>)
    ensures NonEmpty(a + b) == NonEmpty(a) + NonEmpty(b)
  {
    if a == [] {
      assert a + b == b;
    } else {
      assert (a + b)[1..] == a[1..] + b;
      NonEmptyAppend(a[1..], b);
    }
  }

  lemma WordsOfLeadingSlash(s: string)
    requires s != "" && s[0] == '/'
    ensures Words(s) == Words(s[1..])
  {
    assert ([""] + Split(s[1..], '/'))[1..] == Split(s[1..], '/');
  }

  lemma WordsOfTrailingSlash(s: string)
    requires s != "" && s[|s| - 1] == '/'
    ensures Words(s) == Words(s[..|s| - 1])
  {
    var t := s[..|s| - 1];
    assert s == t + ['/'] + "";
    SplitAppend(t, "", '/');
    NonEmptyAppend(Split(t, '/'), [""]);
    assert NonEmpty([""]) == [];
  }

  lemma {:induction false} WordsOfTrimLeft(s: string)
    ensures Words(TrimLeft(s)) == Words(s)
  {
    if s != "" && s[0] == '/' {
      WordsOfLeadingSlash(s);
      WordsOfTrimLeft(s[1..]);
    }
  }

  lemma {:induction false} WordsOfTrimRight(s: string)
    ensures Words(TrimRight(s)) == Words(s)
  {
    if s != "" && s[|s| - 1] == '/' {
      WordsOfTrailingSlash(s);
      WordsOfTrimRight(s[..|s| - 1]);
    }
  }

  /** A string and its collapsed form have the same first part, and the same non-empty parts after it. */
  lemma {:induction false} SplitOfCollapse(s: string)
    ensures var a, b := Split(s, '/'), Split(Collapse(s), '/');
      a[0] == b[0] && NonEmpty(a[1..]) == NonEmpty(b[1..])
  {
    if |s| >= 2 {
      SplitOfCollapse(s[1..]);
      var rest := Split(s[1..], '/');
      if s[0] == '/' && s[1] == '/' {
        assert Split(s, '/')[1..] == rest;
        assert rest == [rest[0]] + rest[1..];
        assert rest[0] == "";
      } else {
        var t := Collapse(s[1..]);
        var parts := Split(t, '/');
        assert ([s[0]] + t)[1..] == t;
        if s[0] == '/' {
          assert Split(s, '/')[1..] == rest == [rest[0]] + rest[1..];
          assert Split([s[0]] + t, '/')[1..] == parts == [parts[0]] + parts[1..];
          NonEmptyAppend([rest[0]], rest[1..]);
          NonEmptyAppend([parts[0]], parts[1..]);
        } else {
          assert Split(s, '/')[1..] == rest[1..];
          assert Split([s[0]] + t, '/')[1..] == parts[1..];
        }
      }
    }
  }

  lemma WordsOfCollapse(s: string)
    ensures Words(Collapse(s)) == Words(s)
  {
    SplitOfCollapse(s);
    var a, b := Split(s, '/'), Split(Collapse(s), '/');
    assert a == [a[0]] + a[1..] && b == [b[0]] + b[1..];
    NonEmptyAppend([a[0]], a[1..]);
    NonEmptyAppend([b[0]], b[1..]);
  }

  // ---- the result is normal ----

  lemma {:induction false} CollapseHasNoDouble(s: string)
    ensures var t := Collapse(s);
      && (s != "" ==> t != "" && t[0] == s[0])
      && forall i :: 0 <= i < |t| - 1 ==> !(t[i] == '/' && t[i + 1] == '/')
  {
    if |s| >= 2 {
      CollapseHasNoDouble(s[1..]);
    }
  }

  lemma {:induction false} TrimLeftKeeps(s: string)
    requires forall i :: 0 <= i < |s| - 1 ==> !(s[i] == '/' && s[i + 1] == '/')
    ensures var t := TrimLeft(s);
      && (t != "" ==> t[0] != '/')
      && forall i :: 0 <= i < |t| - 1 ==> !(t[i] == '/' && t[i + 1] == '/')
  {
    if s != "" && s[0] == '/' {
      TrimLeftKeeps(s[1..]);
    }
  }

  lemma {:induction false} TrimRightKeeps(s: string)
    requires s != "" ==> s[0] != '/'
    requires forall i :: 0 <= i < |s| - 1 ==> !(s[i] == '/' && s[i + 1] == '/')
    ensures IsNormalText(TrimRight(s))
  {
    if s != "" && s[|s| - 1] == '/' {
      TrimRightKeeps(s[..|s| - 1]);
    }
  }

  lemma NormalizedIsNormal(s: string)
    ensures IsNormalText(NormalizeText(s))
  {
    CollapseHasNoDouble(s);
    TrimLeftKeeps(Collapse(s));
    TrimRightKeeps(TrimLeft(Collapse(s)));
  }

  lemma {:induction false} CollapseLength(s: string)
    ensures |Collapse(s)| <= |s| && (|Collapse(s)| == |s| ==> Collapse(s) == s)
    ensures (forall i :: 0 <= i < |s| - 1 ==> !(s[i] == '/' && s[i + 1] == '/')) ==> Collapse(s) == s
  {
    if |s| >= 2 {
      CollapseLength(s[1..]);
      assert s == [s[0]] + s[1..];
      if s[0] == '/' && s[1] == '/' {
        assert s[0 + 1] == '/';
      } else {
        assert (forall i :: 0 <= i < |s| - 1 ==> !(s[i] == '/' && s[i + 1] == '/')) ==>
            forall i :: 0 <= i < |s[1..]| - 1 ==> !(s[1..][i] == '/' && s[1..][i + 1] == '/');
      }
    }
  }

  lemma {:induction false} TrimLength(s: string)
    ensures |TrimLeft(s)| <= |s| && (|TrimLeft(s)| == |s| ==> TrimLeft(s) == s)
    ensures |TrimRight(s)| <= |s| && (|TrimRight(s)| == |s| ==> TrimRight(s) == s)
  {
    if s != "" && s[0] == '/' {
      TrimLength(s[1..]);
    }
    if s != "" && s[|s| - 1] == '/' {
      TrimLength(s[..|s| - 1]);
    }
  }

  /** Normalisation only shortens, so comparing lengths tells exactly whether it changed anything; what
      it leaves alone are exactly the normal strings. */
  lemma LengthTestIsExact(s: string)
    ensures |NormalizeText(s)| <= |s|
    ensures |NormalizeText(s)| == |s| <==> NormalizeText(s) == s
    ensures NormalizeText(s) == s <==> IsNormalText(s)
  {
    CollapseLength(s);
    TrimLength(Collapse(s));
    TrimLength(TrimLeft(Collapse(s)));
    NormalizedIsNormal(s);
  }

  lemma NormalizeIdempotent(s: string)
    ensures NormalizeText(NormalizeText(s)) == NormalizeText(s)
  {
    NormalizedIsNormal(s);
    LengthTestIsExact(NormalizeText(s));
  }

  lemma {:induction false} NormalHasNoEmptyPart(s: string)
    requires IsNormalText(s) && s != ""
    ensures NonEmpty(Split(s, '/')) == Split(s, '/')
  {
    var rest := Split(s[1..], '/');
    if |s| == 1 {
      assert rest == [""];
    } else if s[1] == '/' {
      var tail := Split(s[2..], '/');
      NormalHasNoEmptyPart(s[2..]);
      assert s[1..][1..] == s[2..];
      assert rest == [""] + tail;
      assert rest[1..] == tail && [s[0]] + rest[0] == [s[0]];
      assert Split(s, '/') == [[s[0]]] + tail;
      NonEmptyAppend([[s[0]]], tail);
    } else {
      NormalHasNoEmptyPart(s[1..]);
      assert rest == [rest[0]] + rest[1..];
      assert Split(s, '/') == [[s[0]] + rest[0]] + rest[1..];
      NonEmptyTail(rest);
      NonEmptyAppend([[s[0]] + rest[0]], rest[1..]);
    }
  }

  lemma {:induction false} NonEmptyLength(parts: seq<string>)
    ensures |NonEmpty(parts)| <= |parts|
  {
    if parts != [] {
      NonEmptyLength(parts[1..]);
    }
  }

  lemma NonEmptyTail(parts: seq<string>)
    requires parts != [] && NonEmpty(parts) == parts
    ensures NonEmpty(parts[1..]) == parts[1..]
  {
    NonEmptyLength(parts[1..]);
    if parts[0] != "" {
      assert NonEmpty(parts)[1..] == NonEmpty(parts[1..]);
    }
  }

  /** What normalisation means: cut at slashes, drop the empty parts, join again. */
  lemma NormalizeIsJoinOfWords(s: string)
    ensures NormalizeText(s) == Join(Words(s), "/")
  {
    var t := NormalizeText(s);
    WordsOfCollapse(s);
    WordsOfTrimLeft(Collapse(s));
    WordsOfTrimRight(TrimLeft(Collapse(s)));
    NormalizedIsNormal(s);
    if t != "" {
      NormalHasNoEmptyPart(t);
      JoinSplit(t, '/');
    } else {
      assert Words("") == [];
    }
  }
}
