/** Generic facts about finite sequences: distinctness, pandas' `unique()`,
    and order-preserving subsequences (what a boolean mask selects). */
module Seqs {

  /** No value occurs twice. */
  predicate Distinct<T(==)>(xs: seq<T>) {
    forall i, j :: 0 <= i < j < |xs| ==> xs[i] != xs[j]
  }

  /** The set of values occurring in `xs`. */
  function Elements<T>(xs: seq<T>): set<T> {
    set i | 0 <= i < |xs| :: xs[i]
  }

  /** `unique()`: the distinct values of `xs`, each once, in order of first
      appearance. */
  function Unique<T(==)>(xs: seq<T>): (u: seq<T>)
    ensures Distinct(u)
    ensures Elements(u) == Elements(xs)
    ensures |u| <= |xs|
    ensures IsSubsequence(u, xs)
    decreases |xs|
  {
    if |xs| == 0 then []
    else
      var init := xs[..|xs| - 1];
      var last := xs[|xs| - 1];
      var u := Unique(init);
      assert xs == init + [last];
      ElementsAppend(init, last);
      if last in u then
        SubsequenceOfLonger(u, init, last);
        u
      else
        ElementsAppend(u, last);
        assert Distinct(u + [last]);
        SubsequenceAppend(u, init, last);
        u + [last]
  }

  /** A sequence without repetitions has as many elements as its set. */
  lemma {:induction false} DistinctCardinality<T>(xs: seq<T>)
    requires Distinct(xs)
    ensures |Elements(xs)| == |xs|
    decreases |xs|
  {
    if |xs| > 0 {
      var init := xs[..|xs| - 1];
      DistinctCardinality(init);
      assert xs == init + [xs[|xs| - 1]];
      ElementsAppend(init, xs[|xs| - 1]);
      assert xs[|xs| - 1] !in Elements(init);
    }
  }

  /** The number of distinct values of `xs`, `nunique()`. */
  function DistinctCount<T(==)>(xs: seq<T>): (n: nat)
    ensures n == |Elements(xs)|
    ensures n <= |xs|
    ensures |xs| > 0 ==> n > 0
  {
    var u := Unique(xs);
    DistinctCardinality(u);
    assert |xs| > 0 ==> xs[0] in Elements(u);
    |u|
  }

  /** `a` is obtained from `b` by deleting elements, keeping the rest in order. */
  predicate IsSubsequence<T(==)>(a: seq<T>, b: seq<T>)
    decreases |b|
  {
    if |a| == 0 then true
    else if |b| == 0 then false
    else if a[0] == b[0] then IsSubsequence(a[1..], b[1..])
    else IsSubsequence(a, b[1..])
  }

  lemma {:induction false} SubsequenceDropFirst<T>(a: seq<T>, b: seq<T>)
    requires |a| > 0 && IsSubsequence(a, b)
    ensures IsSubsequence(a[1..], b)
    decreases |b|
  {
    if |a| > 1 {
      assert a[1..][1..] == a[2..];
      if a[0] == b[0] {
        if a[1] == b[0] {
          SubsequenceDropFirst(a[1..], b[1..]);
        }
      } else {
        SubsequenceDropFirst(a, b[1..]);
        if a[1] == b[0] {
          SubsequenceDropFirst(a[1..], b[1..]);
        }
      }
    }
  }

  /** A subsequence of the tail is a subsequence of the whole. */
  lemma SubsequenceSkip<T>(a: seq<T>, b: seq<T>)
    requires |b| > 0 && IsSubsequence(a, b[1..])
    ensures IsSubsequence(a, b)
  {
    if |a| > 0 && a[0] == b[0] {
      SubsequenceDropFirst(a, b[1..]);
    }
  }

  lemma {:induction false} SubsequenceOfLonger<T>(a: seq<T>, b: seq<T>, x: T)
    requires IsSubsequence(a, b)
    ensures IsSubsequence(a, b + [x])
    decreases |b|
  {
    if |a| > 0 && |b| > 0 {
      assert (b + [x])[1..] == b[1..] + [x];
      if a[0] == b[0] {
        SubsequenceOfLonger(a[1..], b[1..], x);
      } else {
        SubsequenceOfLonger(a, b[1..], x);
      }
    }
  }

  lemma {:induction false} SubsequenceLast<T>(b: seq<T>, x: T)
    ensures IsSubsequence([x], b + [x])
    decreases |b|
  {
    if |b| > 0 && b[0] != x {
      assert (b + [x])[1..] == b[1..] + [x];
      SubsequenceLast(b[1..], x);
    }
  }

  lemma {:induction false} SubsequenceAppend<T>(a: seq<T>, b: seq<T>, x: T)
    requires IsSubsequence(a, b)
    ensures IsSubsequence(a + [x], b + [x])
    decreases |b|
  {
    if |a| == 0 {
      SubsequenceLast(b, x);
      assert a + [x] == [x];
    } else {
      assert (a + [x])[0] == a[0];
      assert (a + [x])[1..] == a[1..] + [x];
      assert (b + [x])[1..] == b[1..] + [x];
      if a[0] == b[0] {
        SubsequenceAppend(a[1..], b[1..], x);
      } else {
        SubsequenceAppend(a, b[1..], x);
      }
    }
  }

  lemma ElementsAppend<T>(xs: seq<T>, x: T)
    ensures Elements(xs + [x]) == Elements(xs) + {x}
  {
    assert forall i :: 0 <= i < |xs| ==> (xs + [x])[i] == xs[i];
    assert (xs + [x])[|xs|] == x;
  }

  /** Every element of a subsequence is an element of the sequence. */
  lemma {:induction false} SubsequenceElements<T>(a: seq<T>, b: seq<T>)
    requires IsSubsequence(a, b)
    ensures Elements(a) <= Elements(b)
    decreases |b|
  {
    if |a| > 0 && |b| > 0 {
      if a[0] == b[0] {
        SubsequenceElements(a[1..], b[1..]);
        assert Elements(a) == {a[0]} + Elements(a[1..]);
      } else {
        SubsequenceElements(a, b[1..]);
      }
      assert Elements(b) == {b[0]} + Elements(b[1..]);
    }
  }
}
