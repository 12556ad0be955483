/** Facts about sequences that several parts of the model share. */
module Seqs {

  /** No element occurs twice. */
  ghost predicate Distinct<T>(s: seq<T>) {
    forall i, j :: 0 <= i < j < |s| ==> s[i] != s[j]
  }

  /** `a` is `b` with some elements left out and the rest kept in order. */
  ghost predicate IsSubsequence<T>(a: seq<T>, b: seq<T>)
    decreases |b|
  {
    if a == [] then true
    else if b == [] then false
    else if a[|a| - 1] == b[|b| - 1] then IsSubsequence(a[..|a| - 1], b[..|b| - 1])
    else IsSubsequence(a, b[..|b| - 1])
  }

  lemma {:induction false} DistinctJoin<T>(a: seq<T>, b: seq<T>)
    requires Distinct(a) && Distinct(b)
    requires Disjoint(a, b)
    ensures Distinct(a + b)
  {
    forall i, j | 0 <= i < j < |a + b| ensures (a + b)[i] != (a + b)[j] {
      if j < |a| {
        assert (a + b)[i] == a[i] && (a + b)[j] == a[j];
      } else if i < |a| {
        assert (a + b)[i] == a[i] && (a + b)[j] == b[j - |a|];
      } else {
        assert (a + b)[i] == b[i - |a|] && (a + b)[j] == b[j - |a|];
      }
    }
  }

  /** The front of a sequence without repetitions has none, and lacks the last element. */
  lemma DistinctFront<T>(s: seq<T>)
    requires Distinct(s) && s != []
    ensures Distinct(s[..|s| - 1]) && s[|s| - 1] !in s[..|s| - 1]
  {
    var front := s[..|s| - 1];
    forall j | 0 <= j < |front| ensures front[j] != s[|s| - 1] {
      assert front[j] == s[j];
    }
  }

  /** No element of `a` occurs in `b`. */
  ghost predicate Disjoint<T>(a: seq<T>, b: seq<T>) {
    forall i, j :: 0 <= i < |a| && 0 <= j < |b| ==> a[i] != b[j]
  }

  lemma DisjointLeft<T>(a: seq<T>, b: seq<T>, c: seq<T>)
    requires Disjoint(a, c) && Disjoint(b, c)
    ensures Disjoint(a + b, c)
  {
    forall i, j | 0 <= i < |a + b| && 0 <= j < |c| ensures (a + b)[i] != c[j] {
      if i < |a| { assert (a + b)[i] == a[i]; } else { assert (a + b)[i] == b[i - |a|]; }
    }
  }

  /** Five runs, each without repetitions and pairwise sharing nothing, join without repetitions. */
  lemma DistinctRuns<T>(a: seq<T>, b: seq<T>, c: seq<T>, d: seq<T>, e: seq<T>)
    requires Distinct(a) && Distinct(b) && Distinct(c) && Distinct(d) && Distinct(e)
    requires Disjoint(a, b) && Disjoint(a, c) && Disjoint(a, d) && Disjoint(a, e)
    requires Disjoint(b, c) && Disjoint(b, d) && Disjoint(b, e)
    requires Disjoint(c, d) && Disjoint(c, e) && Disjoint(d, e)
    ensures Distinct(a + b + c + d + e)
  {
    DistinctJoin(a, b);
    DisjointLeft(a, b, c);
    DistinctJoin(a + b, c);
    DisjointLeft(a, b, d);
    DisjointLeft(a + b, c, d);
    DistinctJoin(a + b + c, d);
    DisjointLeft(a, b, e);
    DisjointLeft(a + b, c, e);
    DisjointLeft(a + b + c, d, e);
    DistinctJoin(a + b + c + d, e);
  }

  /** A subsequence stays one when the sequence grows. */
  lemma {:induction false} SubsequenceSnoc<T>(a: seq<T>, b: seq<T>, x: T)
    requires IsSubsequence(a, b)
    ensures IsSubsequence(a, b + [x])
    decreases |b|, 1
  {
    assert (b + [x])[..|b|] == b;
    if a != [] && a[|a| - 1] == x {
      SubsequenceShorter(a, b);
    }
  }

  /** Dropping the last element of a subsequence keeps it one. */
  lemma {:induction false} SubsequenceShorter<T>(a: seq<T>, b: seq<T>)
    requires a != [] && IsSubsequence(a, b)
    ensures IsSubsequence(a[..|a| - 1], b)
    decreases |b|, 0
  {
    var a', b' := a[..|a| - 1], b[..|b| - 1];
    assert b == b' + [b[|b| - 1]];
    if a[|a| - 1] == b[|b| - 1] {
      SubsequenceSnoc(a', b', b[|b| - 1]);
    } else {
      SubsequenceShorter(a, b');
      SubsequenceSnoc(a', b', b[|b| - 1]);
    }
  }

  /** A subsequence of a sequence without repetitions has none either. */
  lemma {:induction false} SubsequenceDistinct<T>(a: seq<T>, b: seq<T>)
    requires IsSubsequence(a, b) && Distinct(b)
    ensures Distinct(a)
    ensures forall x :: x in a ==> x in b
    decreases |b|
  {
    if a == [] {
    } else if a[|a| - 1] == b[|b| - 1] {
      var a', b' := a[..|a| - 1], b[..|b| - 1];
      SubsequenceDistinct(a', b');
      assert a == a' + [a[|a| - 1]];
      forall i | 0 <= i < |a'| ensures a'[i] != a[|a| - 1] {
        assert a'[i] in b';
        var k :| 0 <= k < |b'| && b'[k] == a'[i];
        assert b[k] == b'[k] && b[|b| - 1] == a[|a| - 1];
      }
      DistinctJoin(a', [a[|a| - 1]]);
    } else {
      SubsequenceDistinct(a, b[..|b| - 1]);
    }
  }

  /** `xs.map(f)` */
  function MapSeq<A, B>(f: A -> B, xs: seq<A>): (ys: seq<B>)
    ensures |ys| == |xs|
  {
    if xs == [] then [] else MapSeq(f, xs[..|xs| - 1]) + [f(xs[|xs| - 1])]
  }

  lemma {:induction false} MapSeqIndex<A, B>(f: A -> B, xs: seq<A>)
    ensures forall i :: 0 <= i < |xs| ==> MapSeq(f, xs)[i] == f(xs[i])
  {
    if xs != [] {
      var front := xs[..|xs| - 1];
      MapSeqIndex(f, front);
      assert forall i :: 0 <= i < |front| ==> front[i] == xs[i];
    }
  }
}
