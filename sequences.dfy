/** Order-preserving filtering and duplicate-freedom of sequences. */
module Sequences {

  /** No element occurs twice in `s`: each element is absent from the ones before it. */
  predicate NoDup<T(==)>(s: seq<T>)
    decreases |s|
  {
    s != [] ==> NoDup(s[..|s| - 1]) && s[|s| - 1] !in s[..|s| - 1]
  }

  /** NoDup agrees with the positional definition of distinctness. */
  lemma {:induction false} NoDupIsDistinct<T>(s: seq<T>)
    ensures NoDup(s) <==> forall i, j :: 0 <= i < j < |s| ==> s[i] != s[j]
    decreases |s|
  {
    if s != [] {
      var t := s[..|s| - 1];
      NoDupIsDistinct(t);
      if NoDup(s) {
        forall i, j | 0 <= i < j < |s| ensures s[i] != s[j] {
          if j == |s| - 1 {
            assert s[i] == t[i];
          } else {
            assert s[i] == t[i] && s[j] == t[j];
          }
        }
      }
      if forall i, j :: 0 <= i < j < |s| ==> s[i] != s[j] {
        assert forall i, j :: 0 <= i < j < |t| ==> t[i] == s[i] && t[j] == s[j];
        forall i | 0 <= i < |t| ensures t[i] != s[|s| - 1] {
          assert t[i] == s[i];
        }
      }
    }
  }

  /** The elements of `s` that satisfy `p`, kept in their original order
      (LINQ's Where followed by ToList). */
  function Filter<T>(s: seq<T>, p: T -> bool): (r: seq<T>)
    ensures |r| <= |s|
    ensures forall x :: x in r ==> x in s && p(x)
    ensures forall x :: x in s && p(x) ==> x in r
  {
    if s == [] then []
    else Filter(s[..|s| - 1], p) + (if p(s[|s| - 1]) then [s[|s| - 1]] else [])
  }

  /** Filtering one element more extends the previous result by at most that element. */
  lemma FilterSnoc<T>(s: seq<T>, x: T, p: T -> bool)
    ensures Filter(s + [x], p) == Filter(s, p) + (if p(x) then [x] else [])
  {
    assert (s + [x])[..|s|] == s;
  }

  /** Filtering a prefix gives a prefix of the filtered whole. */
  lemma {:induction false} FilterPrefix<T>(s: seq<T>, i: nat, p: T -> bool)
    requires i <= |s|
    ensures Filter(s[..i], p) <= Filter(s, p)
    decreases |s|
  {
    if i < |s| {
      var t := s[..|s| - 1];
      assert t[..i] == s[..i];
      FilterPrefix(t, i, p);
    } else {
      assert s[..i] == s;
    }
  }

  /** Appending an element absent from a duplicate-free sequence keeps it duplicate-free. */
  lemma NoDupSnoc<T>(s: seq<T>, x: T)
    requires NoDup(s) && x !in s
    ensures NoDup(s + [x])
  {
    assert (s + [x])[..|s|] == s;
  }

  /** Two duplicate-free sequences with no element in common concatenate to a
      duplicate-free sequence. */
  lemma {:induction false} NoDupAppend<T>(a: seq<T>, b: seq<T>)
    requires NoDup(a) && NoDup(b)
    requires forall x :: x in a ==> x !in b
    ensures NoDup(a + b)
    decreases |b|
  {
    if b == [] {
      assert a + b == a;
    } else {
      var t, x := b[..|b| - 1], b[|b| - 1];
      NoDupAppend(a, t);
      assert a + b == (a + t) + [x];
      NoDupSnoc(a + t, x);
    }
  }

  /** Filtering never introduces duplicates. */
  lemma {:induction false} FilterNoDup<T>(s: seq<T>, p: T -> bool)
    requires NoDup(s)
    ensures NoDup(Filter(s, p))
    decreases |s|
  {
    if s != [] {
      var t := s[..|s| - 1];
      var x := s[|s| - 1];
      assert s == t + [x];
      FilterNoDup(t, p);
      if p(x) {
        assert Filter(s, p) == Filter(t, p) + [x];
        assert x !in t;
        NoDupSnoc(Filter(t, p), x);
      } else {
        assert Filter(s, p) == Filter(t, p);
      }
    }
  }

  /** A duplicate-free sequence has as many distinct elements as positions. */
  lemma {:induction false} NoDupCardinality<T>(s: seq<T>)
    requires NoDup(s)
    ensures |set x | x in s| == |s|
    decreases |s|
  {
    if s != [] {
      var t := s[..|s| - 1];
      var x := s[|s| - 1];
      assert s == t + [x];
      NoDupCardinality(t);
      assert (set y | y in s) == (set y | y in t) + {x};
      assert x !in (set y | y in t);
    }
  }

  /** A subset is no larger than its superset, and equally large only when equal. */
  lemma SubsetCardinality<T>(a: set<T>, b: set<T>)
    requires a <= b
    ensures |a| <= |b|
    ensures |a| == |b| ==> a == b
  {
    assert b * a == a;
    assert |b - a| == |b| - |a|;
    if |a| == |b| {
      assert b - a == {};
    }
  }

  /** In a duplicate-free sequence no element occurs before its own position. */
  lemma NoDupNotBefore<T>(s: seq<T>, i: nat)
    requires NoDup(s) && i < |s|
    ensures s[i] !in s[..i]
  {
    NoDupIsDistinct(s);
    forall j | 0 <= j < i ensures s[..i][j] != s[i] {
      assert s[..i][j] == s[j];
    }
  }

  /** Concatenation is associative. */
  lemma AppendAssoc<T>(a: seq<T>, b: seq<T>, c: seq<T>)
    ensures a + (b + c) == (a + b) + c
  {
  }
}
