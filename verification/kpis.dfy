/** The key figures at the top of each page: column sums, the most frequent
    defect (`mode()[0]`) and the number of distinct values (`nunique()`). */
module Kpis {
  import opened Wrappers
  import opened Records
  import opened Grouping
  import Text
  import Seqs
  import Ranking

  /** The first position of a largest measure: every group is at most as
      large, and every earlier one is strictly smaller. */
  function FirstMax(gs: seq<Group>, m: Measure): (i: nat)
    requires |gs| > 0
    ensures i < |gs|
    ensures forall j :: 0 <= j < |gs| ==> gs[j].totals.Get(m) <= gs[i].totals.Get(m)
    ensures forall j :: 0 <= j < i ==> gs[j].totals.Get(m) < gs[i].totals.Get(m)
    decreases |gs|
  {
    if |gs| == 1 then 0
    else
      var k := FirstMax(gs[1..], m) + 1;
      assert forall j :: 1 <= j < |gs| ==> gs[j] == gs[1..][j - 1];
      if gs[0].totals.Get(m) >= gs[k].totals.Get(m) then 0 else k
  }

  /** How often `v` occurs in column `d`. */
  function Frequency(rows: seq<Row>, d: Dimension, v: string): nat {
    multiset(Column(rows, d))[v]
  }

  /** A table with rows has at least one group per column. */
  lemma NonEmptyHasGroups(rows: seq<Row>, d: Dimension)
    requires |rows| > 0
    ensures |GroupSum(rows, ByAttr(d))| > 0
  {
    GroupCountIsDistinctCount(rows, d);
    assert Column(rows, d)[0] in Seqs.Elements(Column(rows, d));
  }

  /** `mode()[0]`: a value of largest frequency, and the least such value in
      text order, since pandas lists tied modes sorted. An empty column has
      no mode. */
  function MostFrequent(rows: seq<Row>, d: Dimension): (r: Option<string>)
    ensures r.None? <==> |rows| == 0
    ensures r.Some? ==> r.value in Seqs.Elements(Column(rows, d))
    ensures r.Some? ==> forall v :: Frequency(rows, d, v) <= Frequency(rows, d, r.value)
    ensures r.Some? ==> forall v :: Frequency(rows, d, v) == Frequency(rows, d, r.value) ==> v == r.value || Text.Less(r.value, v)
  {
    if |rows| == 0 then None else Some(ModeOf(rows, d))
  }

  /** The mode of a non-empty column: the value of the first group, in key
      order, whose count is largest. */
  function ModeOf(rows: seq<Row>, d: Dimension): (r: string)
    requires |rows| > 0
    ensures r in Seqs.Elements(Column(rows, d))
    ensures forall v :: Frequency(rows, d, v) <= Frequency(rows, d, r)
    ensures forall v :: Frequency(rows, d, v) == Frequency(rows, d, r) ==> v == r || Text.Less(r, v)
  {
    var gs := GroupSum(rows, ByAttr(d));
    NonEmptyHasGroups(rows, d);
    var i := FirstMax(gs, Count);
    ModeFacts(rows, d, gs, i);
    gs[i].key.name
  }

  lemma ModeFacts(rows: seq<Row>, d: Dimension, gs: seq<Group>, i: int)
    requires gs == GroupSum(rows, ByAttr(d)) && 0 <= i < |gs|
    requires forall j :: 0 <= j < |gs| ==> gs[j].totals.count <= gs[i].totals.count
    requires forall j :: 0 <= j < i ==> gs[j].totals.count < gs[i].totals.count
    ensures gs[i].key.Label? && gs[i].key.name in Seqs.Elements(Column(rows, d))
    ensures forall v :: Frequency(rows, d, v) <= Frequency(rows, d, gs[i].key.name)
    ensures forall v :: Frequency(rows, d, v) == Frequency(rows, d, gs[i].key.name) ==> v == gs[i].key.name || Text.Less(gs[i].key.name, v)
  {
    assert gs[i] in gs;
    Ranking.LabelMeaning(rows, d, gs[i]);
    var r := gs[i].key.name;
    Ranking.CountMeaning(rows, d, r);
    assert Frequency(rows, d, r) == gs[i].totals.count;
    forall v ensures Frequency(rows, d, v) <= Frequency(rows, d, r)
      ensures Frequency(rows, d, v) == Frequency(rows, d, r) ==> v == r || Text.Less(r, v)
    {
      if v in Seqs.Elements(Column(rows, d)) {
        Ranking.ValueHasGroup(rows, d, v);
        var g :| g in gs && g.key == Label(v);
        var j :| 0 <= j < |gs| && gs[j] == g;
        Ranking.CountMeaning(rows, d, v);
        assert Frequency(rows, d, v) == gs[j].totals.count;
        if j > i {
          assert KeyLess(gs[i].key, gs[j].key);
        }
      } else {
        assert Frequency(rows, d, v) == 0;
        assert Frequency(rows, d, r) > 0;
      }
    }
  }

  /** The sentinel shown instead of a mode when no rows are left. */
  const NoDefect := "-"

  /** The guarded KPI of the analysis pages: `"-"` for an empty table,
      otherwise a defect type of largest frequency (the least one on a tie). */
  function TopDefect(rows: seq<Row>): (s: string)
    ensures |rows| == 0 ==> s == NoDefect
    ensures |rows| > 0 ==> s in Seqs.Elements(Column(rows, Defect))
    ensures |rows| > 0 ==> forall v :: Frequency(rows, Defect, v) <= Frequency(rows, Defect, s)
    ensures |rows| > 0 ==> forall v :: Frequency(rows, Defect, v) == Frequency(rows, Defect, s) ==> v == s || Text.Less(s, v)
  {
    match MostFrequent(rows, Defect)
    case None => NoDefect
    case Some(v) => v
  }

  /** The unguarded KPI of the top-level script and the older analysis page:
      `mode()[0]` on an empty column raises. */
  function TopDefectUnguarded(rows: seq<Row>): (r: Result<string, ScriptError>)
    ensures r.Failure? <==> |rows| == 0
    ensures r.Failure? ==> r.error == ModeOfEmptyColumn
    ensures r.Success? ==> r.value in Seqs.Elements(Column(rows, Defect))
    ensures r.Success? ==> forall v :: Frequency(rows, Defect, v) <= Frequency(rows, Defect, r.value)
  {
    match MostFrequent(rows, Defect)
    case None => Failure(ModeOfEmptyColumn)
    case Some(v) => Success(v)
  }

  /** The guard is the only difference: on a non-empty table both KPIs name
      the same defect. */
  lemma GuardedAgreesWhenNonEmpty(rows: seq<Row>)
    requires |rows| > 0
    ensures TopDefectUnguarded(rows) == Success(TopDefect(rows))
  {
  }

  /** The tie-break makes the mode unique: any value of largest frequency
      that is least in text order among those is the mode. */
  lemma ModeIsDetermined(rows: seq<Row>, d: Dimension, v: string)
    requires v in Seqs.Elements(Column(rows, d))
    requires forall w :: Frequency(rows, d, w) <= Frequency(rows, d, v)
    requires forall w :: Frequency(rows, d, w) == Frequency(rows, d, v) ==> w == v || Text.Less(v, w)
    ensures MostFrequent(rows, d) == Some(v)
  {
    var r := MostFrequent(rows, d);
    var i :| 0 <= i < |rows| && Column(rows, d)[i] == v;
    assert r.Some?;
    if r.value != v {
      assert Text.Less(v, r.value) && Text.Less(r.value, v);
      Text.LessAsymmetric(v, r.value);
    }
  }

  /** The figures of one KPI panel. */
  datatype Panel = Panel(totalScrap: int, totalCost: int, topDefect: string, distinct: nat)

  /** The panel of a table, with `nunique()` taken over column `d`. */
  function PanelOf(rows: seq<Row>, d: Dimension): (p: Panel)
    ensures p.totalScrap == Total(rows).quantity && p.totalCost == Total(rows).cost
    ensures |rows| == 0 ==> p == Panel(0, 0, NoDefect, 0)
    ensures |rows| > 0 ==> p.topDefect in Seqs.Elements(Column(rows, Defect))
    ensures |rows| > 0 ==> forall v :: Frequency(rows, Defect, v) <= Frequency(rows, Defect, p.topDefect)
    ensures |rows| > 0 ==> forall v :: Frequency(rows, Defect, v) == Frequency(rows, Defect, p.topDefect) ==> v == p.topDefect || Text.Less(p.topDefect, v)
    ensures p.distinct == |Seqs.Elements(Column(rows, d))|
    ensures p.distinct <= |rows|
    ensures p.distinct == |GroupSum(rows, ByAttr(d))|
  {
    GroupCountIsDistinctCount(rows, d);
    Panel(Total(rows).quantity, Total(rows).cost, TopDefect(rows), Seqs.DistinctCount(Column(rows, d)))
  }
}
