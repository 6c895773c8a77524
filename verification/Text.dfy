/** The string primitives the operator takes from Go: strings.Split with a one-character separator,
    strings.Contains, strings.Join, and decimal printing and parsing with Go's 64-bit limits. */
module Text {

  const MAX_INT64 := 0x7fff_ffff_ffff_ffff
  const MAX_UINT64 := 0xffff_ffff_ffff_ffff

  /** strings.Split(s, sep). */
  function Split(s: string, sep: char): (parts: seq<string>)
    ensures |parts| >= 1
    ensures forall p | p in parts :: sep !in p
  {
    if s == "" then [""]
    else
      var rest := Split(s[1..], sep);
      if s[0] == sep then [""] + rest else [[s[0]] + rest[0]] + rest[1..]
  }

  /** strings.Join(parts, sep). */
  function Join(parts: seq<string>, sep: string): string
  {
    if |parts| == 0 then ""
    else if |parts| == 1 then parts[0]
    else parts[0] + sep + Join(parts[1..], sep)
  }

  lemma SplitStep(c: char, s: string, sep: char)
    ensures var rest := Split(s, sep);
      Split([c] + s, sep) == if c == sep then [""] + rest else [[c] + rest[0]] + rest[1..]
  {
    assert ([c] + s)[1..] == s;
  }

  lemma {:induction false} SplitAppend(a: string, b: string, sep: char)
    ensures Split(a + [sep] + b, sep) == Split(a, sep) + Split(b, sep)
  {
    if a == "" {
      assert a + [sep] + b == [sep] + b;
      SplitStep(sep, b, sep);
    } else {
      var c, t := a[0], a[1..];
      assert a == [c] + t && a + [sep] + b == [c] + (t + [sep] + b);
      SplitStep(c, t, sep);
      SplitStep(c, t + [sep] + b, sep);
      SplitAppend(t, b, sep);
      HeadOfConcat(Split(t, sep), Split(b, sep), [""], [[c] + Split(t, sep)[0]]);
    }
  }

  lemma HeadOfConcat<T>(x: seq<T>, y: seq<T>, p: seq<T>, q: seq<T>)
    requires x != []
    ensures (x + y)[0] == x[0] && p + (x + y) == p + x + y && q + (x + y)[1..] == q + x[1..] + y
  {
  }

  lemma {:induction false} SplitWithout(s: string, sep: char)
    requires sep !in s
    ensures Split(s, sep) == [s]
  {
    if s != "" {
      SplitWithout(s[1..], sep);
      assert [s[0]] + s[1..] == s;
    }
  }

  /** Splitting and joining with the same separator is the identity. */
  lemma {:induction false} JoinSplit(s: string, sep: char)
    ensures Join(Split(s, sep), [sep]) == s
  {
    if s != "" {
      JoinSplit(s[1..], sep);
      var rest := Split(s[1..], sep);
      if s[0] == sep {
        assert ([""] + rest)[1..] == rest;
      } else {
        assert ([[s[0]] + rest[0]] + rest[1..])[1..] == rest[1..];
      }
    }
  }

  /** And the other way round, for parts without separators. */
  lemma {:induction false} SplitJoin(parts: seq<string>, sep: char)
    requires parts != [] && forall p | p in parts :: sep !in p
    ensures Split(Join(parts, [sep]), sep) == parts
  {
    SplitWithout(parts[0], sep);
    if |parts| > 1 {
      SplitJoin(parts[1..], sep);
      SplitAppend(parts[0], Join(parts[1..], [sep]), sep);
      assert parts == [parts[0]] + parts[1..];
    }
  }

  /** strings.Contains(s, t). */
  predicate Contains(s: string, t: string)
  {
    exists i | 0 <= i <= |s| - |t| :: OccursAt(s, t, i)
  }

  predicate OccursAt(s: string, t: string, i: nat)
  {
    i + |t| <= |s| && s[i..i + |t|] == t
  }

  lemma ContainsInfix(a: string, t: string, b: string)
    ensures Contains(a + t + b, t)
  {
    assert OccursAt(a + t + b, t, |a|);
  }

  /** Two strings that end in the same separator followed by a separator-free tail have the same
      head and the same tail. */
  lemma LastPartUnique(a: string, x: string, b: string, y: string, sep: char)
    requires sep !in x && sep !in y
    requires a + [sep] + x == b + [sep] + y
    ensures a == b && x == y
  {
    var s, t := a + [sep] + x, b + [sep] + y;
    assert s[|a|] == sep && t[|b|] == sep;
    assert forall i | |a| < i < |s| :: s[i] == x[i - |a| - 1];
    assert forall i | |b| < i < |t| :: t[i] == y[i - |b| - 1];
    assert s[..|a|] == a && t[..|b|] == b;
    assert s[|a| + 1..] == x && t[|b| + 1..] == y;
  }

  // ---- decimal numbers ----

  predicate IsDigit(c: char) {
    '0' <= c <= '9'
  }

  function Digit(d: nat): (c: char)
    requires d < 10
    ensures IsDigit(c) && DigitValue(c) == d
  {
    "0123456789"[d]
  }

  function DigitValue(c: char): nat
    requires IsDigit(c)
  {
    c as int - '0' as int
  }

  /** The "%d" verb on a natural number. */
  function Decimal(n: nat): (s: string)
    ensures |s| >= 1 && forall c | c in s :: IsDigit(c)
  {
    if n < 10 then [Digit(n)] else Decimal(n / 10) + [Digit(n % 10)]
  }

  datatype Scan = Value(n: nat) | Syntax | Range

  /** The digit loop of strconv.ParseUint in base 10: a bad character is a syntax error, a value that
      leaves 64 bits is a range error as soon as it is seen. */
  function ScanFrom(s: string, acc: nat): Scan
  {
    if s == "" then Value(acc)
    else if !IsDigit(s[0]) then Syntax
    else if acc * 10 + DigitValue(s[0]) > MAX_UINT64 then Range
    else ScanFrom(s[1..], acc * 10 + DigitValue(s[0]))
  }

  /** The value strconv.Atoi returns beside its error for text that does not start with '-':
      0 on a syntax error, the largest int on a range error. */
  function AtoiValue(s: string): nat
  {
    var body := if s != "" && s[0] == '+' then s[1..] else s;
    if body == "" then 0
    else match ScanFrom(body, 0)
      case Syntax => 0
      case Range => MAX_INT64
      case Value(n) => if n > MAX_INT64 then MAX_INT64 else n
  }

  lemma {:induction false} ScanAppend(s: string, t: string, acc: nat)
    ensures ScanFrom(s + t, acc) ==
            match ScanFrom(s, acc) case Value(n) => ScanFrom(t, n) case other => other
  {
    if s == "" {
      assert s + t == t;
    } else {
      assert (s + t)[0] == s[0] && (s + t)[1..] == s[1..] + t;
      if IsDigit(s[0]) && acc * 10 + DigitValue(s[0]) <= MAX_UINT64 {
        ScanAppend(s[1..], t, acc * 10 + DigitValue(s[0]));
      }
    }
  }

  lemma {:induction false} ScanDecimal(n: nat)
    ensures ScanFrom(Decimal(n), 0) == if n <= MAX_UINT64 then Value(n) else Range
  {
    if n >= 10 {
      ScanDecimal(n / 10);
      ScanAppend(Decimal(n / 10), [Digit(n % 10)], 0);
      assert [Digit(n % 10)][1..] == "";
    } else {
      assert [Digit(n)][1..] == "";
    }
  }

  /** Printing and parsing a Go int round-trips; a larger number is read as the largest int. */
  lemma AtoiDecimal(n: nat)
    ensures AtoiValue(Decimal(n)) == if n <= MAX_INT64 then n else MAX_INT64
  {
    ScanDecimal(n);
    assert Decimal(n)[0] in Decimal(n);
  }

  /** Text that does not even begin like a number is read as 0. */
  lemma AtoiNoNumber(s: string)
    requires s == "" || (!IsDigit(s[0]) && s[0] != '+')
    ensures AtoiValue(s) == 0
  {
  }

  /** And so is text that goes on with something else after a number, unless that alone is out of range. */
  lemma AtoiNumberAndMore(n: nat, rest: string)
    requires n <= MAX_UINT64 && rest != "" && !IsDigit(rest[0])
    ensures AtoiValue(Decimal(n) + rest) == 0
  {
    ScanDecimal(n);
    ScanAppend(Decimal(n), rest, 0);
    assert (Decimal(n) + rest)[0] in Decimal(n);
  }

  /** A plus sign in front is allowed. */
  lemma AtoiPlus(n: nat)
    ensures AtoiValue("+" + Decimal(n)) == AtoiValue(Decimal(n))
  {
    AtoiDecimal(n);
    ScanDecimal(n);
    assert ("+" + Decimal(n))[1..] == Decimal(n);
  }

  /** Decimal printing is injective, at any size. */
  lemma {:induction false} DecimalInjective(m: nat, n: nat)
    requires Decimal(m) == Decimal(n)
    ensures m == n
  {
    var a, b := Decimal(m), Decimal(n);
    if m >= 10 && n >= 10 {
      assert a[..|a| - 1] == Decimal(m / 10) && b[..|b| - 1] == Decimal(n / 10);
      DecimalInjective(m / 10, n / 10);
      assert a[|a| - 1] == Digit(m % 10) && b[|b| - 1] == Digit(n % 10);
    }
  }
}
