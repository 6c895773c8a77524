/** Strings cut at a separator: when one occurs in another, part by part. */
module Parts {
  import opened Text

  // ---- lists of parts ----

  /** The parts of two strings written one after the other: the last and the first become one. */
  function Glue(a: seq<string>, b: seq<string>): (r: seq<string>)
    requires a != [] && b != []
    ensures |r| == |a| + |b| - 1
  {
    a[..|a| - 1] + [a[|a| - 1] + b[0]] + b[1..]
  }

  lemma GlueHead(x: string, a: seq<string>, b: seq<string>)
    requires a != [] && b != []
    ensures Glue([x] + a, b) == [x] + Glue(a, b)
    ensures Glue([x + a[0]] + a[1..], b) == [x + Glue(a, b)[0]] + Glue(a, b)[1..]
  {
    assert ([x] + a)[..|a|] == [x] + a[..|a| - 1];
    var c := [x + a[0]] + a[1..];
    if |a| == 1 {
      assert c[..0] == [] && c[0] + b[0] == x + (a[0] + b[0]);
    } else {
      assert c[..|a| - 1] == [x + a[0]] + a[1..|a| - 1];
    }
  }

  lemma {:induction false} SplitConcat(a: string, b: string, sep: char)
    ensures Split(a + b, sep) == Glue(Split(a, sep), Split(b, sep))
  {
    if a == "" {
      assert a + b == b && "" + Split(b, sep)[0] == Split(b, sep)[0];
      assert Split(b, sep) == [Split(b, sep)[0]] + Split(b, sep)[1..];
    } else {
      var c, t := a[0], a[1..];
      assert a == [c] + t && a + b == [c] + (t + b);
      SplitStep(c, t, sep);
      SplitStep(c, t + b, sep);
      SplitConcat(t, b, sep);
      GlueHead(if c == sep then "" else [c], Split(t, sep), Split(b, sep));
    }
  }

  predicate EndsWith(s: string, t: string)
  {
    |t| <= |s| && s[|s| - |t|..] == t
  }

  /** From position n on, one part ends with the first part of the other list, the parts in the middle are
      equal, and one starts with its last part. */
  predicate PartsMatchAt(parts: seq<string>, others: seq<string>, n: nat)
    requires |others| >= 2
  {
    var last := n + |others| - 1;
    && last < |parts|
    && EndsWith(parts[n], others[0])
    && parts[n + 1..last] == others[1..|others| - 1]
    && others[|others| - 1] <= parts[last]
  }

  lemma GlueMatches(x: seq<string>, y: seq<string>, z: seq<string>)
    requires x != [] && |y| >= 2 && z != []
    ensures PartsMatchAt(Glue(Glue(x, y), z), y, |x| - 1)
  {
    var front, parts, n, last := Glue(x, y), Glue(Glue(x, y), z), |x| - 1, |x| + |y| - 2;
    assert parts[n] == front[n] == x[n] + y[0];
    assert parts[last] == y[|y| - 1] + z[0];
    assert parts[n + 1..last] == front[n + 1..last] == y[1..|y| - 1];
  }

  /** What comes before and after the match. */
  function Front(p: seq<string>, y: seq<string>, n: nat): (x: seq<string>)
    requires |y| >= 2 && PartsMatchAt(p, y, n)
    ensures |x| == n + 1 && x[n] + y[0] == p[n]
  {
    p[..n] + [p[n][..|p[n]| - |y[0]|]]
  }

  function Back(p: seq<string>, y: seq<string>, n: nat): (z: seq<string>)
    requires |y| >= 2 && PartsMatchAt(p, y, n)
    ensures |z| == |p| - n - |y| + 1 && y[|y| - 1] + z[0] == p[n + |y| - 1]
  {
    var last := n + |y| - 1;
    [p[last][|y[|y| - 1]|..]] + p[last + 1..]
  }

  lemma MatchGlues(p: seq<string>, y: seq<string>, n: nat)
    requires |y| >= 2 && PartsMatchAt(p, y, n)
    ensures Glue(Glue(Front(p, y, n), y), Back(p, y, n)) == p
  {
    var x, z, last := Front(p, y, n), Back(p, y, n), n + |y| - 1;
    var front := Glue(x, y);
    assert front == p[..n] + [p[n]] + y[1..];
    assert y[1..] == y[1..|y| - 1] + [y[|y| - 1]];
    assert p[..last] == p[..n] + [p[n]] + p[n + 1..last];
    assert front[..last] == p[..last];
    assert p == p[..last] + [p[last]] + p[last + 1..];
  }

  predicate Without(parts: seq<string>, sep: char)
  {
    forall p | p in parts :: sep !in p
  }

  lemma AroundIsWithout(p: seq<string>, y: seq<string>, n: nat, sep: char)
    requires |y| >= 2 && PartsMatchAt(p, y, n) && Without(p, sep)
    ensures Without(Front(p, y, n), sep) && Without(Back(p, y, n), sep)
  {
    var last := n + |y| - 1;
    assert p[n] in p && p[last] in p;
    assert forall part | part in p[..n] :: part in p;
    assert forall part | part in p[last + 1..] :: part in p;
  }

  // ---- strings ----

  lemma SplitGlue(a: string, t: string, b: string, sep: char)
    ensures Split(a + t + b, sep) == Glue(Glue(Split(a, sep), Split(t, sep)), Split(b, sep))
  {
    SplitConcat(a, t, sep);
    SplitConcat(a + t, b, sep);
  }

  lemma SplitInjective(s: string, t: string, sep: char)
    requires Split(s, sep) == Split(t, sep)
    ensures s == t
  {
    JoinSplit(s, sep);
    JoinSplit(t, sep);
  }

  lemma OccurrenceMatches(a: string, t: string, b: string, sep: char)
    requires |Split(t, sep)| >= 2
    ensures PartsMatchAt(Split(a + t + b, sep), Split(t, sep), |Split(a, sep)| - 1)
  {
    SplitGlue(a, t, b, sep);
    GlueMatches(Split(a, sep), Split(t, sep), Split(b, sep));
  }

  lemma MatchOccurs(s: string, t: string, sep: char, n: nat)
    requires |Split(t, sep)| >= 2 && PartsMatchAt(Split(s, sep), Split(t, sep), n)
    ensures Contains(s, t)
  {
    var p, y := Split(s, sep), Split(t, sep);
    var x, z := Front(p, y, n), Back(p, y, n);
    var a, b := Join(x, [sep]), Join(z, [sep]);
    AroundIsWithout(p, y, n, sep);
    SplitJoin(x, sep);
    SplitJoin(z, sep);
    SplitGlue(a, t, b, sep);
    MatchGlues(p, y, n);
    SplitInjective(s, a + t + b, sep);
    ContainsInfix(a, t, b);
  }

  ghost predicate PartsMatch(parts: seq<string>, others: seq<string>)
    requires |others| >= 2
  {
    exists n: nat :: PartsMatchAt(parts, others, n)
  }

  lemma FourAndThree(a: string, b: string, c: string, d: string, x: string, y: string, z: string)
    ensures PartsMatch([a, b, c, d], [x, y, z]) <==> (EndsWith(a, x) && b == y && z <= c) || (EndsWith(b, x) && c == y && z <= d)
  {
    var p, q := [a, b, c, d], [x, y, z];
    assert q[1..2] == [y] && p[1..2] == [b] && p[2..3] == [c];
    assert PartsMatchAt(p, q, 0) <==> EndsWith(a, x) && b == y && z <= c;
    assert PartsMatchAt(p, q, 1) <==> EndsWith(b, x) && c == y && z <= d;
    assert forall n: nat | n >= 2 :: !PartsMatchAt(p, q, n);
  }

  /** A string that has a separator occurs in another exactly if its parts match somewhere. */
  lemma ContainsIff(s: string, t: string, sep: char)
    requires |Split(t, sep)| >= 2
    ensures Contains(s, t) <==> PartsMatch(Split(s, sep), Split(t, sep))
  {
    if Contains(s, t) {
      var o :| 0 <= o <= |s| - |t| && OccursAt(s, t, o);
      var a, b := s[..o], s[o + |t|..];
      OccurrenceMatches(a, t, b, sep);
      assert s == a + t + b;
    }
    if n: nat :| PartsMatchAt(Split(s, sep), Split(t, sep), n) {
      MatchOccurs(s, t, sep, n);
    }
  }
}
