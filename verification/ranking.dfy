/** Rankings of groups: `sort_values(ascending=False)` followed by `head(n)`,
    used for the top-5 charts, and `value_counts()`, which lists every value's
    row count from most to least frequent. */
module Ranking {
  import opened Wrappers
  import opened Records
  import opened Grouping
  import Seqs

  /** Measures never increase along the list. */
  predicate NonIncreasing(gs: seq<Group>, m: Measure) {
    forall i, j :: 0 <= i < j < |gs| ==> gs[j].totals.Get(m) <= gs[i].totals.Get(m)
  }

  /** No key is listed twice. */
  predicate DistinctKeys(gs: seq<Group>) {
    forall i, j :: 0 <= i < j < |gs| ==> gs[i].key != gs[j].key
  }

  /** A group-by result lists each key once. */
  lemma SortedHasDistinctKeys(gs: seq<Group>)
    requires StrictlySorted(gs)
    ensures DistinctKeys(gs)
  {
    forall i, j | 0 <= i < j < |gs|
      ensures gs[i].key != gs[j].key
    {
      KeyLessIrreflexive(gs[i].key);
    }
  }

  lemma ConsNonIncreasing(g: Group, gs: seq<Group>, m: Measure)
    requires NonIncreasing(gs, m)
    requires forall x :: x in gs ==> x.totals.Get(m) <= g.totals.Get(m)
    ensures NonIncreasing([g] + gs, m)
  {
    var r := [g] + gs;
    forall i, j | 0 <= i < j < |r|
      ensures r[j].totals.Get(m) <= r[i].totals.Get(m)
    {
      assert r[j] == gs[j - 1];
      if i > 0 {
        assert r[i] == gs[i - 1];
      }
    }
  }

  /** Every group of a non-increasing list is at most its first one. */
  lemma FirstIsLargest(gs: seq<Group>, m: Measure)
    requires NonIncreasing(gs, m) && |gs| > 0
    ensures forall x :: x in gs ==> x.totals.Get(m) <= gs[0].totals.Get(m)
  {
    forall x | x in gs ensures x.totals.Get(m) <= gs[0].totals.Get(m) {
      var j :| 0 <= j < |gs| && gs[j] == x;
    }
  }

  /** What is inserted behind the first group stays at most the first group. */
  lemma BehindFirst(g: Group, gs: seq<Group>, rest: seq<Group>, m: Measure)
    requires NonIncreasing(gs, m) && |gs| > 0
    requires g.totals.Get(m) < gs[0].totals.Get(m)
    requires multiset(rest) == multiset(gs[1..]) + multiset{g}
    ensures forall x :: x in rest ==> x.totals.Get(m) <= gs[0].totals.Get(m)
  {
    FirstIsLargest(gs, m);
    forall x | x in rest ensures x.totals.Get(m) <= gs[0].totals.Get(m) {
      assert x in multiset(rest);
      if x != g {
        assert x in multiset(gs[1..]);
        assert x in gs[1..];
        assert x in gs;
      }
    }
  }

  /** Puts `g` in front of the first group it is not smaller than. */
  function Insert(g: Group, gs: seq<Group>, m: Measure): (r: seq<Group>)
    requires NonIncreasing(gs, m)
    ensures NonIncreasing(r, m)
    ensures multiset(r) == multiset(gs) + multiset{g}
    ensures |r| == |gs| + 1
    decreases |gs|
  {
    if |gs| == 0 then [g]
    else if g.totals.Get(m) >= gs[0].totals.Get(m) then
      FirstIsLargest(gs, m);
      ConsNonIncreasing(g, gs, m);
      [g] + gs
    else
      assert gs == [gs[0]] + gs[1..];
      var rest := Insert(g, gs[1..], m);
      BehindFirst(g, gs, rest, m);
      ConsNonIncreasing(gs[0], rest, m);
      [gs[0]] + rest
  }

  /** `sort_values(ascending=False)`: the same groups, largest measure first. */
  function SortDescending(gs: seq<Group>, m: Measure): (r: seq<Group>)
    ensures NonIncreasing(r, m)
    ensures multiset(r) == multiset(gs)
    ensures |r| == |gs|
    decreases |gs|
  {
    if |gs| == 0 then []
    else
      assert gs == [gs[0]] + gs[1..];
      Insert(gs[0], SortDescending(gs[1..], m), m)
  }

  /** A list with distinct keys holds each group at most once. */
  lemma {:induction false} DistinctKeysOccurOnce(a: seq<Group>, x: Group)
    requires DistinctKeys(a)
    ensures multiset(a)[x] <= 1
    decreases |a|
  {
    if |a| > 0 {
      assert a == [a[0]] + a[1..];
      assert DistinctKeys(a[1..]);
      DistinctKeysOccurOnce(a[1..], x);
      if a[0] == x {
        forall j | 0 <= j < |a[1..]| ensures a[1..][j] != x {
          assert a[j + 1] == a[1..][j];
        }
      }
    }
  }

  /** Reordering a list keeps its keys distinct. */
  lemma PermutationKeepsDistinctKeys(a: seq<Group>, b: seq<Group>)
    requires multiset(a) == multiset(b)
    ensures DistinctKeys(a) ==> DistinctKeys(b)
  {
    forall i, j | DistinctKeys(a) && 0 <= i < j < |b|
      ensures b[i].key != b[j].key
    {
      if b[i].key == b[j].key {
        assert b[i] in multiset(a) && b[j] in multiset(a);
        var p :| 0 <= p < |a| && a[p] == b[i];
        var q :| 0 <= q < |a| && a[q] == b[j];
        assert p == q;
        assert b == b[..j] + b[j..];
        assert b[i] in b[..j] && b[j] in b[j..];
        assert multiset(b)[b[i]] >= 2;
        DistinctKeysOccurOnce(a, b[i]);
        assert false;
      }
    }
  }

  /** Every group in a prefix of a reordering is one of the original groups. */
  lemma PrefixElements(sorted: seq<Group>, gs: seq<Group>, k: int)
    requires multiset(sorted) == multiset(gs) && 0 <= k <= |sorted|
    ensures forall i :: 0 <= i < k ==> sorted[..k][i] in gs
  {
    forall i | 0 <= i < k ensures sorted[..k][i] in gs {
      assert sorted[i] in multiset(gs);
    }
  }

  /** A group missing from a prefix of the descending order is no larger than
      the prefix's last group. */
  lemma LeftOutBelow(sorted: seq<Group>, gs: seq<Group>, k: int, m: Measure)
    requires multiset(sorted) == multiset(gs) && NonIncreasing(sorted, m)
    requires 0 <= k <= |sorted|
    ensures k > 0 ==> forall g :: g in gs && g !in sorted[..k] ==> g.totals.Get(m) <= sorted[k - 1].totals.Get(m)
  {
    forall g | k > 0 && g in gs && g !in sorted[..k]
      ensures g.totals.Get(m) <= sorted[k - 1].totals.Get(m)
    {
      assert g in multiset(sorted);
      var j :| 0 <= j < |sorted| && sorted[j] == g;
      assert j >= k;
    }
  }

  /** The first `n` groups of a descending reordering of `gs`. */
  function PrefixOf(sorted: seq<Group>, gs: seq<Group>, m: Measure, n: nat): (top: seq<Group>)
    requires multiset(sorted) == multiset(gs) && NonIncreasing(sorted, m) && |sorted| == |gs|
    ensures |top| == if |gs| < n then |gs| else n
    ensures NonIncreasing(top, m)
    ensures forall i :: 0 <= i < |top| ==> top[i] in gs
    ensures DistinctKeys(gs) ==> DistinctKeys(top)
    ensures |top| > 0 ==>
              forall g :: g in gs && g !in top ==> g.totals.Get(m) <= top[|top| - 1].totals.Get(m)
    ensures |gs| <= n ==> multiset(top) == multiset(gs)
  {
    var top := sorted[..if |gs| < n then |gs| else n];
    PrefixFacts(sorted, gs, top, m, n);
    top
  }

  lemma PrefixFacts(sorted: seq<Group>, gs: seq<Group>, top: seq<Group>, m: Measure, n: nat)
    requires multiset(sorted) == multiset(gs) && NonIncreasing(sorted, m) && |sorted| == |gs|
    requires top == sorted[..if |gs| < n then |gs| else n]
    ensures |top| == if |gs| < n then |gs| else n
    ensures NonIncreasing(top, m)
    ensures forall i :: 0 <= i < |top| ==> top[i] in gs
    ensures DistinctKeys(gs) ==> DistinctKeys(top)
    ensures |top| > 0 ==>
              forall g :: g in gs && g !in top ==> g.totals.Get(m) <= top[|top| - 1].totals.Get(m)
    ensures |gs| <= n ==> multiset(top) == multiset(gs)
  {
    var k := if |gs| < n then |gs| else n;
    PrefixElements(sorted, gs, k);
    LeftOutBelow(sorted, gs, k, m);
    PermutationKeepsDistinctKeys(gs, sorted);
    assert sorted[..|sorted|] == sorted;
  }

  /** `head(n)` of the descending order: at most `n` groups, largest first,
      and no group left out is larger than the smallest one shown. */
  function Top(gs: seq<Group>, m: Measure, n: nat): (top: seq<Group>)
    ensures |top| == if |gs| < n then |gs| else n
    ensures NonIncreasing(top, m)
    ensures forall i :: 0 <= i < |top| ==> top[i] in gs
    ensures DistinctKeys(gs) ==> DistinctKeys(top)
    ensures |top| > 0 ==>
              forall g :: g in gs && g !in top ==> g.totals.Get(m) <= top[|top| - 1].totals.Get(m)
    ensures |gs| <= n ==> multiset(top) == multiset(gs)
  {
    PrefixOf(SortDescending(gs, m), gs, m, n)
  }

  /** Sorting keeps the sums of the groups. */
  lemma {:induction false} SortKeepsSum(gs: seq<Group>, m: Measure)
    ensures SumWhere(SortDescending(gs, m), AnyKey) == SumWhere(gs, AnyKey)
    decreases |gs|
  {
    if |gs| > 0 {
      SortKeepsSum(gs[1..], m);
      InsertKeepsSum(gs[0], SortDescending(gs[1..], m), m);
      PlusCommutes(gs[0].totals, SumWhere(gs[1..], AnyKey));
    }
  }

  lemma {:induction false} InsertKeepsSum(g: Group, gs: seq<Group>, m: Measure)
    requires NonIncreasing(gs, m)
    ensures SumWhere(Insert(g, gs, m), AnyKey) == SumWhere(gs, AnyKey).Plus(g.totals)
    decreases |gs|
  {
    if |gs| == 0 {
      SumWhereCons(g, [], AnyKey);
      ZeroPlus(g.totals);
    } else if g.totals.Get(m) >= gs[0].totals.Get(m) {
      SumWhereCons(g, gs, AnyKey);
      PlusCommutes(g.totals, SumWhere(gs, AnyKey));
    } else {
      var rest := Insert(g, gs[1..], m);
      assert Insert(g, gs, m) == [gs[0]] + rest;
      InsertKeepsSum(g, gs[1..], m);
      SumWhereCons(gs[0], rest, AnyKey);
      assert SumWhere(gs, AnyKey) == gs[0].totals.Plus(SumWhere(gs[1..], AnyKey));
      PlusAssociates(gs[0].totals, SumWhere(gs[1..], AnyKey), g.totals);
    }
  }

  /** A categorical group's key is a value of the column. */
  lemma LabelMeaning(rows: seq<Row>, d: Dimension, g: Group)
    requires g in GroupSum(rows, ByAttr(d))
    ensures g.key.Label? && g.key.name in Seqs.Elements(Column(rows, d))
  {
    var gs := GroupSum(rows, ByAttr(d));
    var j :| 0 <= j < |gs| && gs[j] == g;
    assert g.key in KeysOf(gs);
    PresentKeysMeaning(rows, ByAttr(d), g.key);
    var i :| 0 <= i < |rows| && KeyOf(rows[i], ByAttr(d)) == Some(g.key);
    assert Column(rows, d)[i] == g.key.name;
  }

  /** Every value of the column has a group. */
  lemma ValueHasGroup(rows: seq<Row>, d: Dimension, v: string)
    requires v in Seqs.Elements(Column(rows, d))
    ensures exists g :: g in GroupSum(rows, ByAttr(d)) && g.key == Label(v)
  {
    var gs := GroupSum(rows, ByAttr(d));
    var i :| 0 <= i < |rows| && Column(rows, d)[i] == v;
    assert KeyOf(rows[i], ByAttr(d)) == Some(Label(v));
    PresentKeysMeaning(rows, ByAttr(d), Label(v));
    assert Label(v) in KeysOf(gs);
    var j :| 0 <= j < |gs| && gs[j].key == Label(v);
    assert gs[j] in gs;
  }

  /** The top-5 chart of a column: the five values with the largest scrap
      quantity, one bar per value, or every value when there are fewer. */
  function TopFive(rows: seq<Row>, d: Dimension): (top: seq<Group>)
    ensures |top| == if Seqs.DistinctCount(Column(rows, d)) < 5 then Seqs.DistinctCount(Column(rows, d)) else 5
    ensures DistinctKeys(top)
    ensures NonIncreasing(top, Quantity)
    ensures forall i :: 0 <= i < |top| ==>
              && top[i].key.Label?
              && top[i].key.name in Seqs.Elements(Column(rows, d))
              && top[i].totals == KeyTotal(rows, ByAttr(d), top[i].key)
    ensures |top| > 0 ==>
              forall v :: v in Seqs.Elements(Column(rows, d)) && Label(v) !in KeysOf(top)
                ==> KeyTotal(rows, ByAttr(d), Label(v)).quantity <= top[|top| - 1].totals.quantity
  {
    var top := Top(GroupSum(rows, ByAttr(d)), Quantity, 5);
    TopFiveFacts(rows, d, top);
    top
  }

  lemma TopFiveFacts(rows: seq<Row>, d: Dimension, top: seq<Group>)
    requires top == Top(GroupSum(rows, ByAttr(d)), Quantity, 5)
    ensures |top| == if Seqs.DistinctCount(Column(rows, d)) < 5 then Seqs.DistinctCount(Column(rows, d)) else 5
    ensures DistinctKeys(top)
    ensures NonIncreasing(top, Quantity)
    ensures forall i :: 0 <= i < |top| ==>
              && top[i].key.Label?
              && top[i].key.name in Seqs.Elements(Column(rows, d))
              && top[i].totals == KeyTotal(rows, ByAttr(d), top[i].key)
    ensures |top| > 0 ==>
              forall v :: v in Seqs.Elements(Column(rows, d)) && Label(v) !in KeysOf(top)
                ==> KeyTotal(rows, ByAttr(d), Label(v)).quantity <= top[|top| - 1].totals.quantity
  {
    var gs := GroupSum(rows, ByAttr(d));
    GroupCountIsDistinctCount(rows, d);
    SortedHasDistinctKeys(gs);
    forall i | 0 <= i < |top|
      ensures top[i].key.Label? && top[i].key.name in Seqs.Elements(Column(rows, d))
    {
      LabelMeaning(rows, d, top[i]);
    }
    forall v | |top| > 0 && v in Seqs.Elements(Column(rows, d)) && Label(v) !in KeysOf(top)
      ensures KeyTotal(rows, ByAttr(d), Label(v)).quantity <= top[|top| - 1].totals.quantity
    {
      ValueHasGroup(rows, d, v);
      var g :| g in gs && g.key == Label(v);
      assert g !in top by {
        forall i | 0 <= i < |top| ensures top[i] != g {
          assert top[i].key in KeysOf(top);
        }
      }
    }
  }

  /** A group's row count is the number of times its value occurs in the
      column. */
  lemma {:induction false} CountMeaning(rows: seq<Row>, d: Dimension, v: string)
    ensures KeyTotal(rows, ByAttr(d), Label(v)).count == multiset(Column(rows, d))[v]
    decreases |rows|
  {
    if |rows| > 0 {
      CountMeaning(rows[1..], d, v);
      assert Column(rows, d) == [Attr(rows[0], d)] + Column(rows[1..], d);
      TotalsStep(rows, ByAttr(d), Label(v));
    }
  }

  /** `value_counts()`: every value of the column once, with the number of
      rows holding it, most frequent first; the counts add up to the number
      of rows. */
  function ValueCounts(rows: seq<Row>, d: Dimension): (vc: seq<Group>)
    ensures |vc| == Seqs.DistinctCount(Column(rows, d))
    ensures DistinctKeys(vc)
    ensures NonIncreasing(vc, Count)
    ensures forall i :: 0 <= i < |vc| ==>
              && vc[i].key.Label?
              && vc[i].key.name in Seqs.Elements(Column(rows, d))
              && vc[i].totals.count == multiset(Column(rows, d))[vc[i].key.name]
    ensures forall v :: v in Seqs.Elements(Column(rows, d)) ==> Label(v) in KeysOf(vc)
    ensures SumWhere(vc, AnyKey).count == |rows|
  {
    var vc := SortDescending(GroupSum(rows, ByAttr(d)), Count);
    ValueCountsFacts(rows, d, vc);
    vc
  }

  lemma ValueCountsFacts(rows: seq<Row>, d: Dimension, vc: seq<Group>)
    requires vc == SortDescending(GroupSum(rows, ByAttr(d)), Count)
    ensures |vc| == Seqs.DistinctCount(Column(rows, d))
    ensures DistinctKeys(vc)
    ensures NonIncreasing(vc, Count)
    ensures forall i :: 0 <= i < |vc| ==>
              && vc[i].key.Label?
              && vc[i].key.name in Seqs.Elements(Column(rows, d))
              && vc[i].totals.count == multiset(Column(rows, d))[vc[i].key.name]
    ensures forall v :: v in Seqs.Elements(Column(rows, d)) ==> Label(v) in KeysOf(vc)
    ensures SumWhere(vc, AnyKey).count == |rows|
  {
    OneEntryPerValue(rows, d, vc);
    CountEntries(rows, d, vc);
    EveryValueCounted(rows, d, vc);
    CountsAddUp(rows, d);
  }

  /** A reordering of the groups has one entry per distinct value. */
  lemma OneEntryPerValue(rows: seq<Row>, d: Dimension, vc: seq<Group>)
    requires multiset(vc) == multiset(GroupSum(rows, ByAttr(d)))
    ensures |vc| == Seqs.DistinctCount(Column(rows, d))
    ensures DistinctKeys(vc)
  {
    var gs := GroupSum(rows, ByAttr(d));
    GroupCountIsDistinctCount(rows, d);
    SortedHasDistinctKeys(gs);
    assert |vc| == |multiset(vc)| == |gs|;
    PermutationKeepsDistinctKeys(gs, vc);
  }

  /** The counts add up to the number of rows. */
  lemma CountsAddUp(rows: seq<Row>, d: Dimension)
    ensures SumWhere(SortDescending(GroupSum(rows, ByAttr(d)), Count), AnyKey).count == |rows|
  {
    SortKeepsSum(GroupSum(rows, ByAttr(d)), Count);
    GroupsAddUp(rows, d);
  }

  /** Each entry of a reordering of the groups is a value of the column with
      the number of times it occurs. */
  lemma CountEntries(rows: seq<Row>, d: Dimension, vc: seq<Group>)
    requires multiset(vc) == multiset(GroupSum(rows, ByAttr(d)))
    ensures forall i :: 0 <= i < |vc| ==>
              && vc[i].key.Label?
              && vc[i].key.name in Seqs.Elements(Column(rows, d))
              && vc[i].totals.count == multiset(Column(rows, d))[vc[i].key.name]
  {
    forall i | 0 <= i < |vc|
      ensures vc[i].key.Label? && vc[i].key.name in Seqs.Elements(Column(rows, d))
      ensures vc[i].totals.count == multiset(Column(rows, d))[vc[i].key.name]
    {
      assert vc[i] in multiset(GroupSum(rows, ByAttr(d)));
      LabelMeaning(rows, d, vc[i]);
      CountMeaning(rows, d, vc[i].key.name);
    }
  }

  /** A reordering of the groups still has an entry for every value. */
  lemma EveryValueCounted(rows: seq<Row>, d: Dimension, vc: seq<Group>)
    requires multiset(vc) == multiset(GroupSum(rows, ByAttr(d)))
    ensures forall v :: v in Seqs.Elements(Column(rows, d)) ==> Label(v) in KeysOf(vc)
  {
    forall v | v in Seqs.Elements(Column(rows, d)) ensures Label(v) in KeysOf(vc) {
      ValueHasGroup(rows, d, v);
      var g :| g in GroupSum(rows, ByAttr(d)) && g.key == Label(v);
      assert g in multiset(vc);
      var i :| 0 <= i < |vc| && vc[i] == g;
    }
  }
}
