/**
 * Python's `sorted()` on a list of strings: the ascending permutation of its
 * argument under `Text.LessEq`.
 */
module Sorting {
  import opened Text

  predicate Sorted(s: seq<string>) {
    forall i, j | 0 <= i < j < |s| :: LessEq(s[i], s[j])
  }

  /** No string occurs twice in `s`. */
  predicate Distinct(s: seq<string>) {
    forall i, j | 0 <= i < j < |s| :: s[i] != s[j]
  }

  /** A list has no repetitions exactly when each of its elements occurs once. */
  lemma {:induction false} DistinctIffSingleCounts(s: seq<string>)
    ensures Distinct(s) <==> forall x | x in s :: multiset(s)[x] == 1
  {
    if s != [] {
      var t := s[1..];
      DistinctIffSingleCounts(t);
      assert s == [s[0]] + t;
      assert multiset(s) == multiset{s[0]} + multiset(t);
      if Distinct(s) {
        assert s[0] !in t;
        assert Distinct(t) by {
          forall i, j | 0 <= i < j < |t| ensures t[i] != t[j] {
            assert t[i] == s[i + 1] && t[j] == s[j + 1];
          }
        }
      } else {
        var i, j :| 0 <= i < j < |s| && s[i] == s[j];
        if i == 0 {
          assert s[j] in t;
          assert multiset(s)[s[0]] >= 2;
        } else {
          assert t[i - 1] == t[j - 1];
          assert !Distinct(t);
          var x :| x in t && multiset(t)[x] != 1;
          assert multiset(s)[x] != 1;
        }
      }
    }
  }

  /** An element not in a list without repetitions can go in front of it. */
  lemma PrependDistinct(x: string, s: seq<string>)
    requires Distinct(s) && x !in s
    ensures Distinct([x] + s)
  {
    var r := [x] + s;
    forall i, j | 0 <= i < j < |r| ensures r[i] != r[j] {
      assert r[j] == s[j - 1];
      if i > 0 {
        assert r[i] == s[i - 1];
      }
    }
  }

  /** A permutation of a list without repetitions has none either. */
  lemma DistinctPermutation(a: seq<string>, b: seq<string>)
    requires Distinct(a) && multiset(a) == multiset(b)
    ensures Distinct(b)
    ensures |b| == |a|
  {
    DistinctIffSingleCounts(a);
    DistinctIffSingleCounts(b);
    assert |b| == |multiset(b)| == |multiset(a)| == |a|;
    forall x | x in b ensures multiset(b)[x] == 1 {
      assert x in multiset(a);
    }
  }

  /** An element no greater than any element of a sorted list can go in front of it. */
  lemma PrependSorted(y: string, s: seq<string>)
    requires Sorted(s) && forall z | z in s :: LessEq(y, z)
    ensures Sorted([y] + s)
  {
    var r := [y] + s;
    forall i, j | 0 <= i < j < |r| ensures LessEq(r[i], r[j]) {
      assert r[j] == s[j - 1];
      if i > 0 {
        assert r[i] == s[i - 1];
      }
    }
  }

  /** What is no greater than the head of a sorted list is no greater than any of its elements. */
  lemma BelowHead(x: string, s: seq<string>)
    requires Sorted(s) && s != [] && LessEq(x, s[0])
    ensures forall z | z in s :: LessEq(x, z)
  {
    forall z | z in s ensures LessEq(x, z) {
      HeadIsLeast(s, z);
      LessEqTransitive(x, s[0], z);
    }
  }

  /**
   * When `x` goes after the head of `s`, the head is no greater than any
   * element of `rest`, which holds the tail of `s` and `x`.
   */
  lemma HeadBelowRest(x: string, s: seq<string>, rest: seq<string>)
    requires Sorted(s) && s != [] && !LessEq(x, s[0])
    requires multiset(rest) == multiset(s[1..]) + multiset{x}
    ensures forall z | z in rest :: LessEq(s[0], z)
  {
    LessEqTotal(x, s[0]);
    forall z | z in rest ensures LessEq(s[0], z) {
      assert z in multiset(rest);
      if z != x {
        assert z in multiset(s[1..]);
        assert z in s by {
          assert s == [s[0]] + s[1..];
        }
        HeadIsLeast(s, z);
      }
    }
  }

  /** Places `x` into the sorted list `s`. */
  function Insert(x: string, s: seq<string>): (r: seq<string>)
    requires Sorted(s)
    ensures Sorted(r)
    ensures multiset(r) == multiset(s) + multiset{x}
  {
    if s == [] then [x]
    else if LessEq(x, s[0]) then
      BelowHead(x, s);
      PrependSorted(x, s);
      [x] + s
    else
      assert Sorted(s[1..]);
      var rest := Insert(x, s[1..]);
      HeadBelowRest(x, s, rest);
      PrependSorted(s[0], rest);
      assert s == [s[0]] + s[1..];
      [s[0]] + rest
  }

  /** `sorted(s)`: an insertion sort, which by `SortedUnique` is the only possible result. */
  function Sort(s: seq<string>): (r: seq<string>)
    ensures Sorted(r)
    ensures multiset(r) == multiset(s)
  {
    if s == [] then []
    else
      assert s == [s[0]] + s[1..];
      Insert(s[0], Sort(s[1..]))
  }

  /** The first element of a sorted list is its least element. */
  lemma HeadIsLeast(s: seq<string>, x: string)
    requires Sorted(s) && x in s
    ensures LessEq(s[0], x)
  {
    var i :| 0 <= i < |s| && s[i] == x;
    if i == 0 { LessEqReflexive(x); }
  }

  lemma TailMultiset(s: seq<string>)
    requires s != []
    ensures multiset(s[1..]) == multiset(s) - multiset{s[0]}
  {
    assert s == [s[0]] + s[1..];
  }

  /** Two ascending permutations of the same strings are equal. */
  lemma {:induction false} SortedUnique(a: seq<string>, b: seq<string>)
    requires Sorted(a) && Sorted(b)
    requires multiset(a) == multiset(b)
    ensures a == b
  {
    if a != [] {
      assert a[0] in multiset(b);
      assert b[0] in multiset(a);
      HeadIsLeast(b, a[0]);
      HeadIsLeast(a, b[0]);
      LessEqAntisymmetric(a[0], b[0]);
      TailMultiset(a);
      TailMultiset(b);
      SortedUnique(a[1..], b[1..]);
      assert a == [a[0]] + a[1..];
      assert b == [b[0]] + b[1..];
    }
  }
}
