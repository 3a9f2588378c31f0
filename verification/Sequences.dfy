/** Sequences without repetition, and counting their elements. */
module Sequences {

  lemma Regroup<T>(a: seq<T>, b: seq<T>, c: seq<T>)
    ensures a + b + c == a + (b + c)
  {
  }

  predicate Distinct<T(==)>(s: seq<T>) { forall i, j | 0 <= i < j < |s| :: s[i] != s[j] }

  function Elements<T>(s: seq<T>): set<T> { set x | x in s }

  /** A sequence is free of repetitions exactly when it has as many elements as places. */
  lemma {:induction false} DistinctCount<T>(s: seq<T>)
    ensures |Elements(s)| <= |s|
    ensures Distinct(s) <==> |Elements(s)| == |s|
  {
    if s == [] {
      assert Elements(s) == {};
    } else {
      var init, last := s[..|s| - 1], s[|s| - 1];
      DistinctCount(init);
      assert s == init + [last];
      assert Elements(s) == Elements(init) + {last};
      if last in init {
        var i :| 0 <= i < |init| && init[i] == last;
        assert s[i] == s[|s| - 1];
        assert Elements(s) == Elements(init);
      } else {
        assert Distinct(init) ==> Distinct(s);
        if Distinct(s) {
          forall i, j | 0 <= i < j < |init| ensures init[i] != init[j] { assert s[i] != s[j]; }
        }
      }
    }
  }

  /** What stands behind the last separator can be read back. */
  lemma LastSeparator<T>(x: seq<T>, y: seq<T>, r: seq<T>, a: seq<T>, c: T)
    requires c !in y && c !in a
    ensures x + [c] + y == r + [c] + a <==> x == r && y == a
  {
    var s, t := x + [c] + y, r + [c] + a;
    assert s[|x|] == c && t[|r|] == c;
    if s == t {
      assert forall i | |x| < i < |s| :: s[i] == y[i - |x| - 1];
      assert forall i | |r| < i < |t| :: t[i] == a[i - |r| - 1];
      assert |x| == |r|;
      assert x == s[..|x|] && r == t[..|r|];
      assert y == s[|x| + 1..] && a == t[|r| + 1..];
    }
  }

  /** With a single separator only one split exists. */
  lemma OnlySeparator<T>(x: seq<T>, y: seq<T>, r: seq<T>, a: seq<T>, c: T)
    requires c !in r && c !in a
    ensures x + [c] + y == r + [c] + a <==> x == r && y == a
  {
    var s, t := x + [c] + y, r + [c] + a;
    assert s[|x|] == c;
    assert forall i | 0 <= i < |t| && t[i] == c :: i == |r|;
    if s == t {
      assert |x| == |r|;
      assert x == s[..|x|] && r == t[..|r|];
      assert y == s[|x| + 1..] && a == t[|r| + 1..];
    }
  }

  /** A subset with as many elements is the whole set. */
  lemma SubsetSameSize<T>(a: set<T>, b: set<T>)
    requires a <= b && |a| == |b|
    ensures a == b
  {
    if a != b {
      var x :| x in b && x !in a;
      SubsetSize(a, b - {x});
    }
  }

  lemma {:induction false} SubsetSize<T>(a: set<T>, b: set<T>)
    requires a <= b
    ensures |a| <= |b|
    decreases a
  {
    if x :| x in a {
      SubsetSize(a - {x}, b - {x});
    }
  }
}
