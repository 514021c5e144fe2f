/** The cumulative scrap charts: the quantities summed per (value, Date)
    pair, listed by value and then date (`sort_values([col, "Date"])`), and
    a running total that restarts with each value
    (`groupby(col)[...].cumsum()`). */
module Cumulative {
  import opened Calendar
  import opened Records
  import opened Grouping
  import Text

  /** One line of the cumulative table. */
  datatype RunningRow = RunningRow(name: string, day: Day, quantity: int, cumulative: int)

  /** A (value, date) group list as `sort_values([col, "Date"])` leaves it. */
  predicate PairTable(gs: seq<Group>) {
    && StrictlySorted(gs)
    && forall i :: 0 <= i < |gs| ==> gs[i].key.LabelDate?
  }

  /** Adding one group at the end of a partial sum. */
  lemma {:induction false} SumWhereSnoc(gs: seq<Group>, g: Group, f: KeyFilter)
    ensures SumWhere(gs + [g], f) == SumWhere(gs, f).Plus(if Matches(f, g.key) then g.totals else Zero)
    decreases |gs|
  {
    if |gs| == 0 {
      SumWhereCons(g, [], f);
      assert [] + [g] == [g];
      ZeroPlus(if Matches(f, g.key) then g.totals else Zero);
    } else {
      assert (gs + [g])[1..] == gs[1..] + [g];
      SumWhereSnoc(gs[1..], g, f);
      SumWhereCons(gs[0], gs[1..] + [g], f);
      assert gs == [gs[0]] + gs[1..];
      SumWhereCons(gs[0], gs[1..], f);
      PlusAssociates(if Matches(f, gs[0].key) then gs[0].totals else Zero, SumWhere(gs[1..], f), if Matches(f, g.key) then g.totals else Zero);
    }
  }

  /** Nothing matches: the partial sum is zero. */
  lemma {:induction false} SumWhereNone(gs: seq<Group>, f: KeyFilter)
    requires forall i :: 0 <= i < |gs| ==> !Matches(f, gs[i].key)
    ensures SumWhere(gs, f) == Zero
    decreases |gs|
  {
    if |gs| > 0 {
      SumWhereNone(gs[1..], f);
      ZeroPlus(Zero);
    }
  }

  /** In a pair table the groups of one value are contiguous: a group
      between two groups of the same value has that value too. */
  lemma NameBetween(gs: seq<Group>, j: int, m: int, k: int)
    requires PairTable(gs) && 0 <= j < m < k < |gs|
    requires gs[j].key.name == gs[k].key.name
    ensures gs[m].key.name == gs[j].key.name
  {
    var a, b, c := gs[j].key, gs[m].key, gs[k].key;
    assert KeyLess(a, b) && KeyLess(b, c);
    if a.name != b.name {
      if b.name != c.name {
        Text.LessTransitive(a.name, b.name, c.name);
      }
      Text.LessIrreflexive(a.name);
    }
  }

  /** In a pair table, a value that differs from its predecessor's does not
      occur anywhere earlier. */
  lemma NewValueIsNew(gs: seq<Group>, i: int)
    requires PairTable(gs) && 0 < i < |gs|
    requires gs[i - 1].key.name != gs[i].key.name
    ensures forall j :: 0 <= j < i ==> gs[j].key.name != gs[i].key.name
  {
    forall j | 0 <= j < i - 1 && gs[j].key.name == gs[i].key.name
      ensures false
    {
      NameBetween(gs, j, i - 1, i);
    }
  }

  /** The running total of group `i`: the quantities of the groups up to and
      including `i` that share its value. */
  function RunningTotal(gs: seq<Group>, i: int): int
    requires 0 <= i < |gs| && gs[i].key.LabelDate?
  {
    SumWhere(gs[..i + 1], NameIs(gs[i].key.name)).quantity
  }

  /** The running total of a group is its predecessor's plus its own
      quantity when both share a value, and its own quantity otherwise. */
  lemma RunningStep(gs: seq<Group>, i: int)
    requires PairTable(gs) && 0 <= i < |gs|
    ensures RunningTotal(gs, i) ==
              (if i > 0 && gs[i - 1].key.name == gs[i].key.name then RunningTotal(gs, i - 1) else 0) + gs[i].totals.quantity
  {
    var g := gs[i];
    var f := NameIs(g.key.name);
    assert gs[..i + 1] == gs[..i] + [g];
    SumWhereSnoc(gs[..i], g, f);
    if i > 0 && gs[i - 1].key.name == g.key.name {
      assert gs[..i] == gs[..i - 1] + [gs[i - 1]];
    } else {
      if i > 0 {
        NewValueIsNew(gs, i);
      }
      SumWhereNone(gs[..i], f);
    }
  }

  /** The cumulative table of a pair table, computed in one pass that keeps
      the running total and resets it when the value changes. */
  method RunningTotals(gs: seq<Group>) returns (out: seq<RunningRow>)
    requires PairTable(gs)
    ensures |out| == |gs|
    ensures forall i :: 0 <= i < |gs| ==>
              && out[i].name == gs[i].key.name
              && out[i].day == gs[i].key.day
              && out[i].quantity == gs[i].totals.quantity
              && out[i].cumulative == RunningTotal(gs, i)
    ensures |gs| > 0 ==> out[0].cumulative == out[0].quantity
    ensures forall i :: 0 < i < |gs| && gs[i - 1].key.name != gs[i].key.name ==>
              out[i].cumulative == out[i].quantity
    ensures forall i :: 0 < i < |gs| && gs[i - 1].key.name == gs[i].key.name ==>
              out[i].cumulative == out[i - 1].cumulative + out[i].quantity
  {
    out := [];
    var run := 0;
    var i := 0;
    while i < |gs|
      invariant 0 <= i <= |gs| && |out| == i
      invariant forall j :: 0 <= j < i ==>
                  && out[j].name == gs[j].key.name
                  && out[j].day == gs[j].key.day
                  && out[j].quantity == gs[j].totals.quantity
                  && out[j].cumulative == RunningTotal(gs, j)
      invariant i > 0 ==> run == RunningTotal(gs, i - 1)
    {
      var g := gs[i];
      RunningStep(gs, i);
      if i > 0 && gs[i - 1].key.name == g.key.name {
        run := run + g.totals.quantity;
      } else {
        run := g.totals.quantity;
      }
      out := out + [RunningRow(g.key.name, g.key.day, g.totals.quantity, run)];
      i := i + 1;
    }
    if |gs| > 0 {
      RunningStep(gs, 0);
    }
    forall i | 0 < i < |gs| && gs[i - 1].key.name != gs[i].key.name
      ensures out[i].cumulative == out[i].quantity
    {
      RunningStep(gs, i);
    }
    forall i | 0 < i < |gs| && gs[i - 1].key.name == gs[i].key.name
      ensures out[i].cumulative == out[i - 1].cumulative + out[i].quantity
    {
      RunningStep(gs, i);
    }
  }

  /** The groups of one value up to a date, inside a pair table, are exactly
      those up to that date's position: so the running total of group `i`
      is the sum over all groups of its value dated on or before its date. */
  lemma {:induction false} RunningTotalIsPrefixSum(gs: seq<Group>, i: int)
    requires PairTable(gs) && 0 <= i < |gs|
    ensures RunningTotal(gs, i) == SumWhere(gs, NameUpTo(gs[i].key.name, gs[i].key.day)).quantity
  {
    var k := gs[i].key;
    assert gs == gs[..i + 1] + gs[i + 1..];
    SumWhereSplit(gs[..i + 1], gs[i + 1..], NameUpTo(k.name, k.day));
    var later := gs[i + 1..];
    forall j | 0 <= j < |later| ensures !Matches(NameUpTo(k.name, k.day), later[j].key) {
      assert later[j] == gs[i + j + 1];
      assert KeyLess(k, later[j].key);
      Text.LessIrreflexive(k.name);
    }
    SumWhereNone(later, NameUpTo(k.name, k.day));
    ZeroPlus(SumWhere(gs[..i + 1], NameUpTo(k.name, k.day)));
    SameFilterOnPrefix(gs, i);
  }

  /** Up to position `i`, selecting by value alone and by value and date
      up to `i`'s date pick the same groups. */
  lemma SameFilterOnPrefix(gs: seq<Group>, i: int)
    requires PairTable(gs) && 0 <= i < |gs|
    ensures SumWhere(gs[..i + 1], NameIs(gs[i].key.name)) == SumWhere(gs[..i + 1], NameUpTo(gs[i].key.name, gs[i].key.day))
  {
    var k := gs[i].key;
    var p := gs[..i + 1];
    forall j | 0 <= j < |p| ensures Matches(NameIs(k.name), p[j].key) == Matches(NameUpTo(k.name, k.day), p[j].key) {
      if j < i {
        assert KeyLess(p[j].key, k);
        Text.LessIrreflexive(k.name);
      }
    }
    SumWhereAgree(p, NameIs(k.name), NameUpTo(k.name, k.day));
  }

  lemma {:induction false} SumWhereAgree(gs: seq<Group>, f: KeyFilter, f': KeyFilter)
    requires forall j :: 0 <= j < |gs| ==> Matches(f, gs[j].key) == Matches(f', gs[j].key)
    ensures SumWhere(gs, f) == SumWhere(gs, f')
    decreases |gs|
  {
    if |gs| > 0 {
      SumWhereAgree(gs[1..], f, f');
    }
  }

  lemma {:induction false} SumWhereSplit(a: seq<Group>, b: seq<Group>, f: KeyFilter)
    ensures SumWhere(a + b, f) == SumWhere(a, f).Plus(SumWhere(b, f))
    decreases |a|
  {
    if |a| == 0 {
      assert a + b == b;
      ZeroPlus(SumWhere(b, f));
    } else {
      assert (a + b)[1..] == a[1..] + b;
      SumWhereSplit(a[1..], b, f);
      SumWhereCons(a[0], a[1..] + b, f);
      assert a == [a[0]] + a[1..];
      SumWhereCons(a[0], a[1..], f);
      PlusAssociates(if Matches(f, a[0].key) then a[0].totals else Zero, SumWhere(a[1..], f), SumWhere(b, f));
    }
  }

  /** A (value, date) group-by is a pair table. */
  lemma PairGroupsArePairTable(rows: seq<Row>, d: Dimension)
    ensures PairTable(GroupSum(rows, ByAttrDate(d)))
  {
    var gs := GroupSum(rows, ByAttrDate(d));
    forall i | 0 <= i < |gs| ensures gs[i].key.LabelDate? {
      assert gs[i].key in KeysOf(gs);
      PresentKeysMeaning(rows, ByAttrDate(d), gs[i].key);
    }
  }

  /** The cumulative column of the charts: for the (value, date) groups of a
      table, each running total is the scrap of that value on or before that
      date, and the last one of a value is that value's whole scrap. */
  method CumulativeScrap(rows: seq<Row>, d: Dimension) returns (out: seq<RunningRow>)
    ensures |out| == |GroupSum(rows, ByAttrDate(d))|
    ensures forall i :: 0 <= i < |out| ==> GroupSum(rows, ByAttrDate(d))[i].key == LabelDate(out[i].name, out[i].day)
    ensures forall i :: 0 <= i < |out| ==>
              out[i].cumulative == SumRowsWhere(rows, ByAttrDate(d), NameUpTo(out[i].name, out[i].day)).quantity
    ensures forall i, j :: 0 <= i < j < |out| ==>
              Text.Less(out[i].name, out[j].name) || (out[i].name == out[j].name && out[i].day < out[j].day)
    ensures forall i :: 0 <= i < |out| && (i == |out| - 1 || out[i + 1].name != out[i].name) ==>
              out[i].cumulative == SumRowsWhere(rows, ByAttrDate(d), NameIs(out[i].name)).quantity
  {
    var gs := GroupSum(rows, ByAttrDate(d));
    PairGroupsArePairTable(rows, d);
    out := RunningTotals(gs);
    forall i | 0 <= i < |out|
      ensures out[i].cumulative == SumRowsWhere(rows, ByAttrDate(d), NameUpTo(out[i].name, out[i].day)).quantity
    {
      RunningTotalIsPrefixSum(gs, i);
      GroupSumWhere(rows, ByAttrDate(d), NameUpTo(out[i].name, out[i].day));
    }
    forall i, j | 0 <= i < j < |out|
      ensures Text.Less(out[i].name, out[j].name) || (out[i].name == out[j].name && out[i].day < out[j].day)
    {
      assert KeyLess(gs[i].key, gs[j].key);
    }
    forall i | 0 <= i < |out| && (i == |out| - 1 || out[i + 1].name != out[i].name)
      ensures out[i].cumulative == SumRowsWhere(rows, ByAttrDate(d), NameIs(out[i].name)).quantity
    {
      LastOfValue(gs, i);
      GroupSumWhere(rows, ByAttrDate(d), NameIs(out[i].name));
    }
  }

  /** The last group of a value carries the value's whole sum. */
  lemma {:induction false} LastOfValue(gs: seq<Group>, i: int)
    requires PairTable(gs) && 0 <= i < |gs|
    requires i == |gs| - 1 || gs[i + 1].key.name != gs[i].key.name
    ensures RunningTotal(gs, i) == SumWhere(gs, NameIs(gs[i].key.name)).quantity
  {
    var n := gs[i].key.name;
    assert gs == gs[..i + 1] + gs[i + 1..];
    SumWhereSplit(gs[..i + 1], gs[i + 1..], NameIs(n));
    var later := gs[i + 1..];
    forall j | 0 <= j < |later| ensures !Matches(NameIs(n), later[j].key) {
      assert later[j] == gs[i + 1 + j];
      if j > 0 && later[j].key.name == n {
        NameBetween(gs, i, i + 1, i + 1 + j);
      }
    }
    SumWhereNone(later, NameIs(n));
    ZeroPlus(SumWhere(gs[..i + 1], NameIs(n)));
  }
}
