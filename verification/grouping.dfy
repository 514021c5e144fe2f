/** `groupby(...).sum()`: the rows of a table grouped by one column, by Date, or
    by a column and Date together, with the quantity, cost and row count of
    each group summed. As in pandas (`sort=True`, `dropna=True`), the groups
    come out sorted by key and rows whose key is missing are dropped. */
module Grouping {
  import opened Wrappers
  import opened Calendar
  import opened Records
  import Text
  import Seqs
  import Filter

  /** A group key: a column value, a date, or a (column value, date) pair. */
  datatype Key = Label(name: string) | Date(day: Day) | LabelDate(name: string, day: Day)

  /** The grouping columns: `groupby(col)`, `groupby("Date")` and
      `groupby(["Date", col])`. */
  datatype GroupBy = ByAttr(dim: Dimension) | ByDate | ByAttrDate(dim: Dimension)

  /** The key of a row; a row with a missing date has no date key. */
  function KeyOf(r: Row, cols: GroupBy): Option<Key> {
    match cols
    case ByAttr(d) => Some(Label(Attr(r, d)))
    case ByDate => if r.date.Some? then Some(Date(r.date.value)) else None
    case ByAttrDate(d) => if r.date.Some? then Some(LabelDate(Attr(r, d), r.date.value)) else None
  }

  function Rank(k: Key): int {
    match k
    case Label(_) => 0
    case Date(_) => 1
    case LabelDate(_, _) => 2
  }

  /** The order groups are listed in: text by code point, dates by day, and
      (value, date) pairs by value first and date second. That is the order
      `sort_values([col, "Date"])` gives the cumulative tables. Keys of
      different shapes never meet in one grouping; they are ordered by shape. */
  predicate KeyLess(a: Key, b: Key) {
    if Rank(a) != Rank(b) then Rank(a) < Rank(b)
    else match a
      case Label(x) => Text.Less(x, b.name)
      case Date(x) => x < b.day
      case LabelDate(x, dx) => Text.Less(x, b.name) || (x == b.name && dx < b.day)
  }

  lemma KeyLessIrreflexive(a: Key)
    ensures !KeyLess(a, a)
  {
    if a.Label? || a.LabelDate? {
      Text.LessIrreflexive(a.name);
    }
  }

  lemma KeyLessTransitive(a: Key, b: Key, c: Key)
    requires KeyLess(a, b) && KeyLess(b, c)
    ensures KeyLess(a, c)
  {
    if Rank(a) == Rank(b) == Rank(c) && (a.Label? || a.LabelDate?) {
      if Text.Less(a.name, b.name) && Text.Less(b.name, c.name) {
        Text.LessTransitive(a.name, b.name, c.name);
      }
    }
  }

  lemma KeyLessTotal(a: Key, b: Key)
    ensures KeyLess(a, b) || a == b || KeyLess(b, a)
  {
    if Rank(a) == Rank(b) && (a.Label? || a.LabelDate?) {
      Text.LessTotal(a.name, b.name);
    }
  }

  /** One row of a group-by result. */
  datatype Group = Group(key: Key, totals: Totals)

  /** Keys strictly increase along the list, so each key occurs once. */
  predicate StrictlySorted(gs: seq<Group>) {
    forall i, j :: 0 <= i < j < |gs| ==> KeyLess(gs[i].key, gs[j].key)
  }

  function KeysOf(gs: seq<Group>): set<Key> {
    set i | 0 <= i < |gs| :: gs[i].key
  }

  /** The totals listed for `k`, or zero when `k` is not listed. */
  function Lookup(gs: seq<Group>, k: Key): Totals
    decreases |gs|
  {
    if |gs| == 0 then Zero
    else if gs[0].key == k then gs[0].totals
    else Lookup(gs[1..], k)
  }

  /** The keys present in the table: every row's key, missing ones dropped. */
  function PresentKeys(rows: seq<Row>, cols: GroupBy): set<Key>
    decreases |rows|
  {
    if |rows| == 0 then {}
    else
      (match KeyOf(rows[0], cols) case Some(k) => {k} case None => {})
        + PresentKeys(rows[1..], cols)
  }

  /** The reference value of a group: the sums over the rows with key `k`. */
  function KeyTotal(rows: seq<Row>, cols: GroupBy, k: Key): Totals
    decreases |rows|
  {
    if |rows| == 0 then Zero
    else (if KeyOf(rows[0], cols) == Some(k) then RowTotals(rows[0]) else Zero).Plus(KeyTotal(rows[1..], cols, k))
  }

  lemma {:induction false} PresentKeysMeaning(rows: seq<Row>, cols: GroupBy, k: Key)
    ensures k in PresentKeys(rows, cols) <==> exists i :: 0 <= i < |rows| && KeyOf(rows[i], cols) == Some(k)
    ensures k in PresentKeys(rows, cols) <==> KeyTotal(rows, cols, k).count > 0
    decreases |rows|
  {
    if |rows| > 0 {
      PresentKeysMeaning(rows[1..], cols, k);
      if exists i :: 0 <= i < |rows| && KeyOf(rows[i], cols) == Some(k) {
        var i :| 0 <= i < |rows| && KeyOf(rows[i], cols) == Some(k);
        if i > 0 {
          assert KeyOf(rows[1..][i - 1], cols) == Some(k);
        }
      }
      if exists i :: 0 <= i < |rows[1..]| && KeyOf(rows[1..][i], cols) == Some(k) {
        var i :| 0 <= i < |rows[1..]| && KeyOf(rows[1..][i], cols) == Some(k);
        assert KeyOf(rows[i + 1], cols) == Some(k);
      }
    }
  }

  lemma {:induction false} SortedTail(gs: seq<Group>)
    requires |gs| > 0 && StrictlySorted(gs)
    ensures StrictlySorted(gs[1..])
    ensures forall k :: k in KeysOf(gs[1..]) ==> KeyLess(gs[0].key, k)
  {
    forall k | k in KeysOf(gs[1..])
      ensures KeyLess(gs[0].key, k)
    {
      var j :| 0 <= j < |gs[1..]| && gs[1..][j].key == k;
      assert gs[j + 1].key == k;
    }
  }

  lemma {:induction false} SortedCons(g: Group, gs: seq<Group>)
    requires StrictlySorted(gs)
    requires forall k :: k in KeysOf(gs) ==> KeyLess(g.key, k)
    ensures StrictlySorted([g] + gs)
    ensures KeysOf([g] + gs) == {g.key} + KeysOf(gs)
  {
    var r := [g] + gs;
    forall i, j | 0 <= i < j < |r|
      ensures KeyLess(r[i].key, r[j].key)
    {
      if i == 0 {
        assert r[j].key == gs[j - 1].key;
        assert gs[j - 1].key in KeysOf(gs);
      }
    }
    forall k | k in KeysOf(r)
      ensures k in {g.key} + KeysOf(gs)
    {
      var i :| 0 <= i < |r| && r[i].key == k;
      if i > 0 {
        assert gs[i - 1].key == k;
      }
    }
    forall k | k in {g.key} + KeysOf(gs)
      ensures k in KeysOf(r)
    {
      if k != g.key {
        var i :| 0 <= i < |gs| && gs[i].key == k;
        assert r[i + 1].key == k;
      }
      else {
        assert r[0].key == k;
      }
    }
  }

  lemma {:induction false} KeysOfCons(gs: seq<Group>)
    requires |gs| > 0
    ensures KeysOf(gs) == {gs[0].key} + KeysOf(gs[1..])
  {
    assert gs == [gs[0]] + gs[1..];
    forall k | k in KeysOf(gs)
      ensures k in {gs[0].key} + KeysOf(gs[1..])
    {
      var i :| 0 <= i < |gs| && gs[i].key == k;
      if i > 0 {
        assert gs[1..][i - 1].key == k;
      }
    }
    forall k | k in KeysOf(gs[1..])
      ensures k in KeysOf(gs)
    {
      var i :| 0 <= i < |gs[1..]| && gs[1..][i].key == k;
      assert gs[i + 1].key == k;
    }
  }

  lemma {:induction false} LookupAbsent(gs: seq<Group>, k: Key)
    requires k !in KeysOf(gs)
    ensures Lookup(gs, k) == Zero
    decreases |gs|
  {
    if |gs| > 0 {
      KeysOfCons(gs);
      LookupAbsent(gs[1..], k);
    }
  }

  /** In a sorted list, the totals looked up for a listed key are the ones
      listed beside it. */
  lemma {:induction false} LookupAt(gs: seq<Group>, i: int)
    requires StrictlySorted(gs) && 0 <= i < |gs|
    ensures Lookup(gs, gs[i].key) == gs[i].totals
    decreases |gs|
  {
    if i > 0 {
      KeyLessIrreflexive(gs[0].key);
      assert gs[0].key != gs[i].key;
      SortedTail(gs);
      LookupAt(gs[1..], i - 1);
    }
  }

  /** Adds `t` to the group of `k`, opening a new group at its place in key
      order when `k` is not yet listed. */
  function Upsert(gs: seq<Group>, k: Key, t: Totals): (r: seq<Group>)
    requires StrictlySorted(gs)
    ensures StrictlySorted(r)
    ensures KeysOf(r) == KeysOf(gs) + {k}
    ensures forall k' :: Lookup(r, k') == if k' == k then Lookup(gs, k').Plus(t) else Lookup(gs, k')
    decreases |gs|
  {
    if |gs| == 0 then
      assert KeysOf([Group(k, t)]) == {k} by {
        assert [Group(k, t)][0].key == k;
      }
      [Group(k, t)]
    else
      SortedTail(gs);
      KeysOfCons(gs);
      if gs[0].key == k then
        SortedCons(Group(k, gs[0].totals.Plus(t)), gs[1..]);
        [Group(k, gs[0].totals.Plus(t))] + gs[1..]
      else if KeyLess(k, gs[0].key) then
        forall k' | k' in KeysOf(gs) ensures KeyLess(k, k') {
          if k' != gs[0].key {
            KeyLessTransitive(k, gs[0].key, k');
          }
        }
        KeyLessIrreflexive(k);
        LookupAbsent(gs, k);
        SortedCons(Group(k, t), gs);
        [Group(k, t)] + gs
      else
        KeyLessTotal(k, gs[0].key);
        var rest := Upsert(gs[1..], k, t);
        SortedCons(gs[0], rest);
        [gs[0]] + rest
  }

  /** `groupby(cols).sum()`: one group per key present in the table, listed in
      increasing key order, each holding the sums over the rows with that key. */
  function GroupSum(rows: seq<Row>, cols: GroupBy): (gs: seq<Group>)
    ensures StrictlySorted(gs)
    ensures KeysOf(gs) == PresentKeys(rows, cols)
    ensures forall k :: Lookup(gs, k) == KeyTotal(rows, cols, k)
    ensures forall i :: 0 <= i < |gs| ==> gs[i].totals == KeyTotal(rows, cols, gs[i].key)
    decreases |rows|
  {
    if |rows| == 0 then
      assert KeysOf([]) == {};
      []
    else
      var rest := GroupSum(rows[1..], cols);
      var gs :=
        match KeyOf(rows[0], cols)
        case None => rest
        case Some(k) => Upsert(rest, k, RowTotals(rows[0]));
      GroupSumStep(rows, cols, rest, gs);
      LookupEverywhere(gs);
      gs
  }

  /** One step of `GroupSum`: adding the first row to the groups of the rest. */
  lemma GroupSumStep(rows: seq<Row>, cols: GroupBy, rest: seq<Group>, gs: seq<Group>)
    requires |rows| > 0 && StrictlySorted(rest)
    requires KeysOf(rest) == PresentKeys(rows[1..], cols)
    requires forall k :: Lookup(rest, k) == KeyTotal(rows[1..], cols, k)
    requires gs == match KeyOf(rows[0], cols)
                   case None => rest
                   case Some(k) => Upsert(rest, k, RowTotals(rows[0]))
    ensures StrictlySorted(gs)
    ensures KeysOf(gs) == PresentKeys(rows, cols)
    ensures forall k :: Lookup(gs, k) == KeyTotal(rows, cols, k)
  {
    assert PresentKeys(rows, cols) == (match KeyOf(rows[0], cols) case Some(k) => {k} case None => {})
                                        + PresentKeys(rows[1..], cols);
    forall k
      ensures Lookup(gs, k) == KeyTotal(rows, cols, k)
    {
      TotalsStep(rows, cols, k);
    }
  }

  lemma {:induction false} TotalsStep(rows: seq<Row>, cols: GroupBy, k: Key)
    requires |rows| > 0
    ensures KeyOf(rows[0], cols) == Some(k) ==> KeyTotal(rows, cols, k) == KeyTotal(rows[1..], cols, k).Plus(RowTotals(rows[0]))
    ensures KeyOf(rows[0], cols) != Some(k) ==> KeyTotal(rows, cols, k) == KeyTotal(rows[1..], cols, k)
  {
    var here := if KeyOf(rows[0], cols) == Some(k) then RowTotals(rows[0]) else Zero;
    assert KeyTotal(rows, cols, k) == here.Plus(KeyTotal(rows[1..], cols, k));
    PlusCommutes(here, KeyTotal(rows[1..], cols, k));
    ZeroPlus(KeyTotal(rows[1..], cols, k));
  }

  lemma ZeroPlus(a: Totals)
    ensures Zero.Plus(a) == a && a.Plus(Zero) == a
  {
  }

  lemma LookupEverywhere(gs: seq<Group>)
    requires StrictlySorted(gs)
    ensures forall i :: 0 <= i < |gs| ==> Lookup(gs, gs[i].key) == gs[i].totals
  {
    forall i | 0 <= i < |gs|
      ensures Lookup(gs, gs[i].key) == gs[i].totals
    {
      LookupAt(gs, i);
    }
  }

  /** Which groups a partial sum runs over. */
  datatype KeyFilter =
    | AnyKey                          // every group
    | NameIs(name: string)            // the groups of one column value
    | NameUpTo(name: string, day: Day) // one column value, dates up to `day`

  predicate Matches(f: KeyFilter, k: Key) {
    match f
    case AnyKey => true
    case NameIs(n) => (k.Label? || k.LabelDate?) && k.name == n
    case NameUpTo(n, d) => k.LabelDate? && k.name == n && k.day <= d
  }

  /** The sums of the listed groups that `f` selects. */
  function SumWhere(gs: seq<Group>, f: KeyFilter): Totals
    decreases |gs|
  {
    if |gs| == 0 then Zero
    else (if Matches(f, gs[0].key) then gs[0].totals else Zero).Plus(SumWhere(gs[1..], f))
  }

  /** The sums of the table rows whose key `f` selects. */
  function SumRowsWhere(rows: seq<Row>, cols: GroupBy, f: KeyFilter): Totals
    decreases |rows|
  {
    if |rows| == 0 then Zero
    else
      (if KeyOf(rows[0], cols).Some? && Matches(f, KeyOf(rows[0], cols).value) then RowTotals(rows[0]) else Zero)
        .Plus(SumRowsWhere(rows[1..], cols, f))
  }

  lemma SumWhereCons(g: Group, rest: seq<Group>, f: KeyFilter)
    ensures SumWhere([g] + rest, f) == (if Matches(f, g.key) then g.totals else Zero).Plus(SumWhere(rest, f))
  {
    assert ([g] + rest)[1..] == rest;
  }

  lemma {:induction false} UpsertSumWhere(gs: seq<Group>, k: Key, t: Totals, f: KeyFilter)
    requires StrictlySorted(gs)
    ensures SumWhere(Upsert(gs, k, t), f) == SumWhere(gs, f).Plus(if Matches(f, k) then t else Zero)
    decreases |gs|
  {
    var r := Upsert(gs, k, t);
    if |gs| == 0 {
      SumWhereCons(Group(k, t), [], f);
      assert r == [Group(k, t)] + [];
    } else if gs[0].key == k {
      assert r == [Group(k, gs[0].totals.Plus(t))] + gs[1..];
      SumWhereCons(Group(k, gs[0].totals.Plus(t)), gs[1..], f);
      SumWhereCons(gs[0], gs[1..], f);
      assert gs == [gs[0]] + gs[1..];
      PlusShuffle(gs[0].totals, t, SumWhere(gs[1..], f), Matches(f, k));
    } else if KeyLess(k, gs[0].key) {
      SumWhereCons(Group(k, t), gs, f);
      PlusCommutes(if Matches(f, k) then t else Zero, SumWhere(gs, f));
    } else {
      SortedTail(gs);
      var rest := Upsert(gs[1..], k, t);
      assert r == [gs[0]] + rest;
      UpsertSumWhere(gs[1..], k, t, f);
      SumWhereCons(gs[0], rest, f);
      SumWhereCons(gs[0], gs[1..], f);
      assert gs == [gs[0]] + gs[1..];
      PlusAssociates(if Matches(f, gs[0].key) then gs[0].totals else Zero, SumWhere(gs[1..], f),
                     if Matches(f, k) then t else Zero);
    }
  }

  lemma PlusShuffle(a: Totals, t: Totals, s: Totals, m: bool)
    ensures (if m then a.Plus(t) else Zero).Plus(s) == (if m then a else Zero).Plus(s).Plus(if m then t else Zero)
  {
  }

  lemma PlusCommutes(a: Totals, b: Totals)
    ensures a.Plus(b) == b.Plus(a)
  {
  }

  lemma PlusAssociates(a: Totals, b: Totals, c: Totals)
    ensures a.Plus(b.Plus(c)) == a.Plus(b).Plus(c)
  {
  }

  /** Summing the groups a filter selects gives the sum over the rows the
      filter selects: grouping loses and invents nothing. */
  lemma {:induction false} GroupSumWhere(rows: seq<Row>, cols: GroupBy, f: KeyFilter)
    ensures SumWhere(GroupSum(rows, cols), f) == SumRowsWhere(rows, cols, f)
    decreases |rows|
  {
    if |rows| > 0 {
      GroupSumWhere(rows[1..], cols, f);
      var rest := GroupSum(rows[1..], cols);
      var key := KeyOf(rows[0], cols);
      var here := if key.Some? && Matches(f, key.value) then RowTotals(rows[0]) else Zero;
      assert SumRowsWhere(rows, cols, f) == here.Plus(SumRowsWhere(rows[1..], cols, f));
      PlusCommutes(here, SumRowsWhere(rows[1..], cols, f));
      if key.None? {
        ZeroPlus(SumRowsWhere(rows[1..], cols, f));
        assert GroupSum(rows, cols) == rest;
      } else {
        assert GroupSum(rows, cols) == Upsert(rest, key.value, RowTotals(rows[0]));
        UpsertSumWhere(rest, key.value, RowTotals(rows[0]), f);
      }
    }
  }

  lemma {:induction false} SumRowsByAttr(rows: seq<Row>, d: Dimension)
    ensures SumRowsWhere(rows, ByAttr(d), AnyKey) == Total(rows)
    decreases |rows|
  {
    if |rows| > 0 {
      SumRowsByAttr(rows[1..], d);
    }
  }

  /** The groups of a categorical column add up to the column sums of the whole
      table: quantity, cost and row count alike. */
  lemma GroupsAddUp(rows: seq<Row>, d: Dimension)
    ensures SumWhere(GroupSum(rows, ByAttr(d)), AnyKey) == Total(rows)
  {
    GroupSumWhere(rows, ByAttr(d), AnyKey);
    SumRowsByAttr(rows, d);
  }

  lemma {:induction false} SumRowsByDate(rows: seq<Row>)
    ensures SumRowsWhere(rows, ByDate, AnyKey) == Total(Filter.Dated(rows))
    decreases |rows|
  {
    if |rows| > 0 {
      SumRowsByDate(rows[1..]);
      DatedTotalStep(rows);
      DateSumStep(rows);
    }
  }

  lemma {:induction false} DateSumStep(rows: seq<Row>)
    requires |rows| > 0
    ensures SumRowsWhere(rows, ByDate, AnyKey) == (if rows[0].date.Some? then RowTotals(rows[0]) else Zero).Plus(SumRowsWhere(rows[1..], ByDate, AnyKey))
  {
    var k := KeyOf(rows[0], ByDate);
    assert k.Some? <==> rows[0].date.Some?;
    assert k.Some? ==> Matches(AnyKey, k.value);
    assert SumRowsWhere(rows, ByDate, AnyKey)
        == (if k.Some? && Matches(AnyKey, k.value) then RowTotals(rows[0]) else Zero).Plus(SumRowsWhere(rows[1..], ByDate, AnyKey));
  }

  lemma {:induction false} DatedTotalStep(rows: seq<Row>)
    requires |rows| > 0
    ensures Total(Filter.Dated(rows)) == (if rows[0].date.Some? then RowTotals(rows[0]) else Zero).Plus(Total(Filter.Dated(rows[1..])))
  {
    var rest := Filter.Dated(rows[1..]);
    if rows[0].date.Some? {
      assert Filter.Dated(rows) == [rows[0]] + rest;
      assert ([rows[0]] + rest)[1..] == rest;
    } else {
      assert Filter.Dated(rows) == rest;
      ZeroPlus(Total(rest));
    }
  }

  /** Every row has a date or has none, so the column sums split between the
      dated and the undated rows. */
  lemma {:induction false} DatedUndatedSplit(rows: seq<Row>)
    ensures Total(rows) == Total(Filter.Dated(rows)).Plus(Total(Filter.Undated(rows)))
    decreases |rows|
  {
    if |rows| > 0 {
      var here, dated, undated := RowTotals(rows[0]), Total(Filter.Dated(rows[1..])), Total(Filter.Undated(rows[1..]));
      DatedUndatedSplit(rows[1..]);
      assert Total(rows) == here.Plus(dated.Plus(undated));
      DatedTotalStep(rows);
      UndatedTotalStep(rows);
      if rows[0].date.Some? {
        ZeroPlus(undated);
        PlusAssociates(here, dated, undated);
      } else {
        ZeroPlus(dated);
        PlusAssociates(here, dated, undated);
        PlusCommutes(here, dated);
        PlusAssociates(dated, here, undated);
      }
    } else {
      assert Filter.Dated(rows) == [] && Filter.Undated(rows) == [];
      ZeroPlus(Zero);
    }
  }

  lemma {:induction false} UndatedTotalStep(rows: seq<Row>)
    requires |rows| > 0
    ensures Total(Filter.Undated(rows)) == (if rows[0].date.None? then RowTotals(rows[0]) else Zero).Plus(Total(Filter.Undated(rows[1..])))
  {
    var rest := Filter.Undated(rows[1..]);
    if rows[0].date.None? {
      assert Filter.Undated(rows) == [rows[0]] + rest;
      assert ([rows[0]] + rest)[1..] == rest;
    } else {
      assert Filter.Undated(rows) == [] + rest;
      assert [] + rest == rest;
      ZeroPlus(Total(rest));
    }
  }

  /** The per-date groups add up to the sums over the rows that have a date,
      which after filtering are all the rows. */
  lemma DateGroupsAddUp(rows: seq<Row>)
    ensures SumWhere(GroupSum(rows, ByDate), AnyKey) == Total(Filter.Dated(rows))
  {
    GroupSumWhere(rows, ByDate, AnyKey);
    SumRowsByDate(rows);
  }

  lemma {:induction false} SumRowsByAttrDate(rows: seq<Row>, d: Dimension)
    ensures SumRowsWhere(rows, ByAttrDate(d), AnyKey) == SumRowsWhere(rows, ByDate, AnyKey)
    decreases |rows|
  {
    if |rows| > 0 {
      SumRowsByAttrDate(rows[1..], d);
      var k := KeyOf(rows[0], ByAttrDate(d));
      assert k.Some? <==> rows[0].date.Some?;
      assert k.Some? ==> Matches(AnyKey, k.value);
      DateSumStep(rows);
    }
  }

  /** The (value, date) groups add up to the sums over the rows that have a
      date. */
  lemma PairGroupsAddUp(rows: seq<Row>, d: Dimension)
    ensures SumWhere(GroupSum(rows, ByAttrDate(d)), AnyKey) == Total(Filter.Dated(rows))
  {
    GroupSumWhere(rows, ByAttrDate(d), AnyKey);
    SumRowsByAttrDate(rows, d);
    SumRowsByDate(rows);
  }

  /** A categorical group-by has exactly one group per distinct value of the
      column. */
  lemma GroupCountIsDistinctCount(rows: seq<Row>, d: Dimension)
    ensures |GroupSum(rows, ByAttr(d))| == Seqs.DistinctCount(Column(rows, d))
  {
    var gs := GroupSum(rows, ByAttr(d));
    var labels := set v | v in Seqs.Elements(Column(rows, d)) :: Label(v);
    forall k | k in KeysOf(gs) ensures k in labels {
      PresentKeysMeaning(rows, ByAttr(d), k);
      var i :| 0 <= i < |rows| && KeyOf(rows[i], ByAttr(d)) == Some(k);
      assert Column(rows, d)[i] == Attr(rows[i], d);
    }
    forall k | k in labels ensures k in KeysOf(gs) {
      var i :| 0 <= i < |rows| && Column(rows, d)[i] == k.name;
      PresentKeysMeaning(rows, ByAttr(d), k);
      assert KeyOf(rows[i], ByAttr(d)) == Some(k);
    }
    assert KeysOf(gs) == labels;
    SortedCardinality(gs);
    LabelCardinality(Seqs.Elements(Column(rows, d)));
  }

  /** A sorted group list lists as many groups as it has keys. */
  lemma {:induction false} SortedCardinality(gs: seq<Group>)
    requires StrictlySorted(gs)
    ensures |KeysOf(gs)| == |gs|
    decreases |gs|
  {
    if |gs| > 0 {
      SortedTail(gs);
      SortedCardinality(gs[1..]);
      KeysOfCons(gs);
      KeyLessIrreflexive(gs[0].key);
    }
  }

  lemma LabelCardinality(vs: set<string>)
    ensures |set v | v in vs :: Label(v)| == |vs|
    decreases vs
  {
    if vs != {} {
      var v :| v in vs;
      LabelCardinality(vs - {v});
      assert (set w | w in vs :: Label(w)) == (set w | w in vs - {v} :: Label(w)) + {Label(v)};
    }
  }
}
