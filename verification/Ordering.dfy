/** Sorting finite sets, as directory listings and `ORDER BY` do. */
module Ordering {

  /** A strict order that is total on S. */
  ghost predicate StrictOrder<T(!new)>(S: set<T>, less: (T, T) -> bool) {
    && (forall x :: !less(x, x))
    && (forall x, y, z :: less(x, y) && less(y, z) ==> less(x, z))
    && (forall x, y :: x in S && y in S && x != y ==> less(x, y) || less(y, x))
  }

  ghost predicate IsMin<T>(S: set<T>, less: (T, T) -> bool, m: T) {
    m in S && forall x :: x in S ==> !less(x, m)
  }

  lemma {:induction false} MinExists<T(!new)>(S: set<T>, less: (T, T) -> bool)
    requires S != {} && StrictOrder(S, less)
    ensures exists m :: IsMin(S, less, m)
    decreases |S|
  {
    var x :| x in S;
    if S == {x} {
      assert IsMin(S, less, x);
    } else {
      var rest := S - {x};
      MinExists(rest, less);
      var m :| IsMin(rest, less, m);
      assert IsMin(S, less, if less(x, m) then x else m);
    }
  }

  function Min<T(!new, ==)>(S: set<T>, less: (T, T) -> bool): (m: T)
    requires S != {} && StrictOrder(S, less)
    ensures IsMin(S, less, m)
  {
    MinExists(S, less);
    assert forall x, y :: IsMin(S, less, x) && IsMin(S, less, y) ==> x == y;
    var m :| m in S && forall x | x in S :: !less(x, m);
    m
  }

  ghost predicate SortedBy<T>(s: seq<T>, less: (T, T) -> bool) {
    forall i, j :: 0 <= i < j < |s| ==> less(s[i], s[j])
  }

  function Sort<T(!new, ==)>(S: set<T>, less: (T, T) -> bool): (s: seq<T>)
    requires StrictOrder(S, less)
    ensures SortedBy(s, less)
    ensures forall x :: x in s <==> x in S
    ensures |s| == |S|
    decreases |S|
  {
    if S == {} then []
    else
      var m := Min(S, less);
      [m] + Sort(S - {m}, less)
  }

  /** There is only one way to sort a set. */
  lemma {:induction false} SortedUnique<T(!new)>(s: seq<T>, t: seq<T>, less: (T, T) -> bool)
    requires StrictOrder({}, less)
    requires SortedBy(s, less) && SortedBy(t, less)
    requires forall x :: x in s <==> x in t
    ensures s == t
    decreases |s|
  {
    assert |t| > 0 ==> t[0] in s;
    if s == [] {
      assert t == [];
    } else {
      assert s[0] in t;
      assert t[0] in s;
      assert s[0] == t[0];
      assert forall x :: x in s[1..] ==> less(s[0], x);
      assert forall x :: x in t[1..] ==> less(t[0], x);
      assert forall x :: x in s <==> x == s[0] || x in s[1..];
      assert forall x :: x in t <==> x == t[0] || x in t[1..];
      SortedUnique(s[1..], t[1..], less);
      assert s == [s[0]] + s[1..] && t == [t[0]] + t[1..];
    }
  }

  predicate StringLess(a: string, b: string)
    decreases |a|
  {
    b != "" && (a == "" || a[0] < b[0] || (a[0] == b[0] && StringLess(a[1..], b[1..])))
  }

  lemma {:induction false} StringLessIrreflexive(a: string)
    ensures !StringLess(a, a)
    decreases |a|
  {
    if a != "" { StringLessIrreflexive(a[1..]); }
  }

  lemma {:induction false} StringLessTransitive(a: string, b: string, c: string)
    requires StringLess(a, b) && StringLess(b, c)
    ensures StringLess(a, c)
    decreases |a|
  {
    if a != "" && a[0] == b[0] == c[0] {
      StringLessTransitive(a[1..], b[1..], c[1..]);
    }
  }

  lemma {:induction false} StringLessTotal(a: string, b: string)
    requires a != b
    ensures StringLess(a, b) || StringLess(b, a)
    decreases |a|
  {
    if a != "" && b != "" && a[0] == b[0] {
      assert a == [a[0]] + a[1..] && b == [b[0]] + b[1..];
      StringLessTotal(a[1..], b[1..]);
    }
  }

  lemma StringOrder(S: set<string>)
    ensures StrictOrder(S, StringLess)
  {
    forall x ensures !StringLess(x, x) { StringLessIrreflexive(x); }
    forall x, y, z | StringLess(x, y) && StringLess(y, z) ensures StringLess(x, z) { StringLessTransitive(x, y, z); }
    forall x, y | x in S && y in S && x != y ensures StringLess(x, y) || StringLess(y, x) { StringLessTotal(x, y); }
  }
}
