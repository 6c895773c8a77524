/** Small things the other modules share. */
module Commons {

  datatype Option<+T> = None | Some(value: T)

  ghost predicate NoRepeats<T>(l: seq<T>)
  {
    forall i, j :: 0 <= i < j < |l| ==> l[i] != l[j]
  }

  /** The members of a set, each once. */
  ghost predicate Lists<T(!new)>(l: seq<T>, s: set<T>)
  {
    NoRepeats(l) && forall x :: x in l <==> x in s
  }

  /** x stands at position i or later. */
  predicate ListedFrom<T(==)>(l: seq<T>, i: nat, x: T)
  {
    exists j | i <= j < |l| :: l[j] == x
  }

  /** The first position with a property, or the length of the list. */
  function FirstIndex<T>(l: seq<T>, good: T -> bool): (r: nat)
    ensures r <= |l| && (r < |l| ==> good(l[r]))
    ensures forall j | 0 <= j < r :: !good(l[j])
  {
    if l == [] || good(l[0]) then 0 else 1 + FirstIndex(l[1..], good)
  }

  lemma SubsetSize<T>(a: set<T>, b: set<T>)
    requires a <= b
    ensures |a| <= |b| && (a != b ==> |a| < |b|)
  {
    assert b == a + (b - a);
  }

  /** Go ranges over maps and sets in any order. */
  method Pick<T>(s: set<T>) returns (x: T)
    requires s != {}
    ensures x in s
  {
    x :| x in s;
  }
}
