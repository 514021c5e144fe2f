/** The analysis pages and the top-level script, each as one run over the
    uploaded table: convert the Date column, bring the page's selections into
    the session state, filter, and compute what the page shows. */
module Pages {
  import opened Wrappers
  import opened Calendar
  import opened Records
  import opened Seqs
  import opened Filter
  import opened Grouping
  import opened Session
  import Buckets
  import Ranking
  import Kpis
  import Cumulative
  import Text

  /** The pages' prefixes and active columns. */
  const ScrapAnalysisPage := Page(Sa, [Machine, Defect, Fabric])
  const QualityReportsPage := Page(Qr, [Machine, Defect, Shift])
  const OlderQualityReportsPage := Page(Qr, [Machine, Defect, Fabric])
  const OlderScrapAnalysisPage := Page(Plain, [Machine, Defect])
  const SidebarFiltersPage := Page(Plain, [Machine, Defect, Fabric])

  /** The keys of the analysis page: its date range and the Machine, Defect
      and Fabric picks, all under `sa_`; Shift is never consulted. */
  lemma ScrapAnalysisColumns()
    ensures PageKeys(ScrapAnalysisPage) == {StateKey(Sa, DateRange), StateKey(Sa, Picks(Machine)), StateKey(Sa, Picks(Defect)), StateKey(Sa, Picks(Fabric))}
  {
  }

  /** The keys of the quality page, current and older: both under `qr_`; the
      current page filters on Shift and never consults Fabric, the older one
      the other way round. */
  lemma QualityReportsColumns()
    ensures PageKeys(QualityReportsPage) == {StateKey(Qr, DateRange), StateKey(Qr, Picks(Machine)), StateKey(Qr, Picks(Defect)), StateKey(Qr, Picks(Shift))}
    ensures PageKeys(OlderQualityReportsPage) == {StateKey(Qr, DateRange), StateKey(Qr, Picks(Machine)), StateKey(Qr, Picks(Defect)), StateKey(Qr, Picks(Fabric))}
  {
  }

  /** The unprefixed keys: the older analysis page filters on Machine and
      Defect only, `sidebar_filters` on Machine, Defect and Fabric. */
  lemma UnprefixedColumns()
    ensures PageKeys(OlderScrapAnalysisPage) == {StateKey(Plain, DateRange), StateKey(Plain, Picks(Machine)), StateKey(Plain, Picks(Defect))}
    ensures PageKeys(SidebarFiltersPage) == {StateKey(Plain, DateRange), StateKey(Plain, Picks(Machine)), StateKey(Plain, Picks(Defect)), StateKey(Plain, Picks(Fabric))}
  {
  }

  /** What a page run ends in: the upload prompt when no table is in the
      session, an error the page raises, or the page's figures. */
  datatype Outcome<+V> = NoData | Failed(error: ScriptError) | Shown(view: V)

  /** The session state after the selection block, the filter it implies,
      and the rows that pass. */
  datatype Selected = Selected(state: State, criteria: Criteria, filtered: seq<Row>)

  /** The selection block shared by every page: initialise absent keys, apply
      Reset when pressed, read the selections back and filter the table. */
  function Select(s: State, rows: seq<Row>, p: Page, reset: bool): (r: Selected)
    requires WellTyped(s)
    ensures WellTyped(r.state) && r.state.Keys == s.Keys + PageKeys(p)
    ensures forall k :: k in s && k !in PageKeys(p) ==> r.state[k] == s[k]
    ensures !reset ==> forall k :: k in s ==> r.state[k] == s[k]
    ensures reset ==> forall k :: k in PageKeys(p) ==> r.state[k] == Default(rows, k.field)
    ensures r.criteria == CriteriaOf(r.state, p)
    ensures r.criteria.selected.Keys == set d | d in p.dims
    ensures IsSubsequence(r.filtered, rows)
    ensures forall i :: 0 <= i < |r.filtered| ==> Passes(r.filtered[i], r.criteria)
    ensures forall x :: multiset(r.filtered)[x] == if Passes(x, r.criteria) then multiset(rows)[x] else 0
    ensures reset || (forall k :: k in PageKeys(p) ==> k !in s) ==> r.filtered == Dated(rows)
  {
    var s1 := Init(s, rows, p);
    var s2 := if reset then Reset(s1, rows, p) else s1;
    var c := CriteriaOf(s2, p);
    DefaultsSelectDated(s, rows, p, reset);
    Selected(s2, c, Apply(rows, c))
  }

  /** After Reset, or on a first visit, the page keeps exactly the dated rows. */
  lemma DefaultsSelectDated(s: State, rows: seq<Row>, p: Page, reset: bool)
    requires WellTyped(s)
    ensures var s1 := Init(s, rows, p);
            var s2 := if reset then Reset(s1, rows, p) else s1;
            reset || (forall k :: k in PageKeys(p) ==> k !in s) ==> Apply(rows, CriteriaOf(s2, p)) == Dated(rows)
  {
    if reset {
      ResetAfterInit(s, rows, p);
      DefaultsKeepDatedRows(s, rows, p);
    } else if forall k :: k in PageKeys(p) ==> k !in s {
      FirstVisitKeepsDatedRows(s, rows, p);
    }
  }

  /** A column the page does not filter on never changes which rows pass:
      tables that differ only in that column keep rows that differ only in
      that column. */
  lemma SelectIgnoresInactive(s: State, rows: seq<Row>, rows': seq<Row>, p: Page, reset: bool, d: Dimension)
    requires WellTyped(s) && d !in p.dims
    requires |rows| == |rows'|
    requires forall i :: 0 <= i < |rows| ==> AgreeExcept(rows[i], rows'[i], d)
    ensures |Select(s, rows, p, reset).filtered| == |Select(s, rows', p, reset).filtered|
    ensures forall k :: 0 <= k < |Select(s, rows, p, reset).filtered| ==>
              AgreeExcept(Select(s, rows, p, reset).filtered[k], Select(s, rows', p, reset).filtered[k], d)
  {
    InitIgnoresOtherColumn(s, rows, rows', p, d);
    ResetIgnoresOtherColumn(Init(s, rows, p), rows, rows', p, d);
    var c := Select(s, rows, p, reset).criteria;
    assert c == Select(s, rows', p, reset).criteria;
    InactiveDimensionIgnored(rows, rows', c, d);
  }

  /** The Date column of a table. */
  function Dates(rows: seq<Row>): (ds: seq<Option<Day>>)
    ensures |ds| == |rows| && forall i :: 0 <= i < |rows| ==> ds[i] == rows[i].date
  {
    seq(|rows|, i requires 0 <= i < |rows| => rows[i].date)
  }

  /** The per-date trend and the per-(value, date) trends of machines and
      defects. */
  datatype Trends = Trends(total: seq<Group>, machines: seq<Group>, defects: seq<Group>)

  /** Each trend adds up to the sums over the rows, which all have dates. */
  function TrendsOf(f: seq<Row>): (t: Trends)
    requires forall i :: 0 <= i < |f| ==> f[i].date.Some?
    ensures SumWhere(t.total, AnyKey) == Total(f)
    ensures SumWhere(t.machines, AnyKey) == Total(f)
    ensures SumWhere(t.defects, AnyKey) == Total(f)
  {
    AllDatedIsDated(f);
    DateGroupsAddUp(f);
    PairGroupsAddUp(f, Machine);
    PairGroupsAddUp(f, Defect);
    Trends(GroupSum(f, ByDate), GroupSum(f, ByAttrDate(Machine)), GroupSum(f, ByAttrDate(Defect)))
  }

  /** The share and cost charts: scrap per defect, and cost per machine, per
      fabric and per defect. */
  datatype Costs = Costs(defectShare: seq<Group>, machineCost: seq<Group>, fabricCost: seq<Group>, defectCost: seq<Group>)

  /** One slice per distinct value, and the slices add up to the table. */
  function CostsOf(f: seq<Row>): (c: Costs)
    ensures |c.defectShare| == |Elements(Column(f, Defect))| && SumWhere(c.defectShare, AnyKey).quantity == Total(f).quantity
    ensures |c.machineCost| == |Elements(Column(f, Machine))| && SumWhere(c.machineCost, AnyKey).cost == Total(f).cost
    ensures |c.fabricCost| == |Elements(Column(f, Fabric))| && SumWhere(c.fabricCost, AnyKey).cost == Total(f).cost
    ensures |c.defectCost| == |Elements(Column(f, Defect))| && SumWhere(c.defectCost, AnyKey).cost == Total(f).cost
  {
    GroupsAddUp(f, Defect);
    GroupsAddUp(f, Machine);
    GroupsAddUp(f, Fabric);
    GroupCountIsDistinctCount(f, Defect);
    GroupCountIsDistinctCount(f, Machine);
    GroupCountIsDistinctCount(f, Fabric);
    Costs(GroupSum(f, ByAttr(Defect)), GroupSum(f, ByAttr(Machine)), GroupSum(f, ByAttr(Fabric)), GroupSum(f, ByAttr(Defect)))
  }

  /** The value of a running row is the last of its value's run. */
  predicate LastOfRun(rs: seq<Cumulative.RunningRow>, i: int)
    requires 0 <= i < |rs|
  {
    i == |rs| - 1 || rs[i + 1].name != rs[i].name
  }

  /** The cumulative chart of one column over rows that all have dates: each
      running total is the value's scrap up to that date, and the last one of
      a value is the value's whole scrap. */
  method CumulativeOf(f: seq<Row>, d: Dimension) returns (rs: seq<Cumulative.RunningRow>)
    requires forall i :: 0 <= i < |f| ==> f[i].date.Some?
    ensures |rs| == |GroupSum(f, ByAttrDate(d))|
    ensures forall i :: 0 <= i < |rs| ==> GroupSum(f, ByAttrDate(d))[i].key == LabelDate(rs[i].name, rs[i].day)
    ensures forall i :: 0 <= i < |rs| ==>
              rs[i].cumulative == SumRowsWhere(f, ByAttrDate(d), NameUpTo(rs[i].name, rs[i].day)).quantity
    ensures forall i :: 0 <= i < |rs| && LastOfRun(rs, i) ==>
              rs[i].cumulative == KeyTotal(f, ByAttr(d), Label(rs[i].name)).quantity
  {
    rs := Cumulative.CumulativeScrap(f, d);
    forall i | 0 <= i < |rs|
      ensures SumRowsWhere(f, ByAttrDate(d), NameIs(rs[i].name)) == KeyTotal(f, ByAttr(d), Label(rs[i].name))
    {
      PairSumIsValueTotal(f, d, rs[i].name);
    }
  }

  /** The Date column resampled to the chosen period, over rows that all
      have dates: each row's date becomes the start of its period. */
  function ResampledDates(f: seq<Row>, g: Buckets.Granularity): (col: Option<seq<Option<Day>>>)
    requires forall i :: 0 <= i < |f| ==> f[i].date.Some?
    ensures col.None? <==> |f| == 0
    ensures col.Some? ==> |col.value| == |f|
    ensures col.Some? ==> forall i :: 0 <= i < |f| ==> col.value[i] == Some(Buckets.Bucket(f[i].date.value, g))
  {
    Buckets.ResampledColumn(Dates(f), g)
  }

  /** The figures of `show_scrap_analysis_page` over the filtered rows. */
  datatype ScrapFigures = ScrapFigures(
    resampled: Option<seq<Option<Day>>>,
    panel: Kpis.Panel,
    trends: Trends,
    topMachines: seq<Group>,
    machineCumulative: seq<Cumulative.RunningRow>,
    defectCumulative: seq<Cumulative.RunningRow>,
    costs: Costs)

  /** The KPI panel, the time buckets, the trends, the top-5 machines, the
      cumulative charts and the cost charts of the analysis page, over rows
      that all have dates. */
  method ScrapAnalysisFigures(f: seq<Row>, g: Buckets.Granularity) returns (v: ScrapFigures)
    requires forall i :: 0 <= i < |f| ==> f[i].date.Some?
    ensures v.resampled.None? <==> |f| == 0
    ensures v.resampled.Some? ==> |v.resampled.value| == |f|
    ensures v.panel.totalScrap == Total(f).quantity && v.panel.totalCost == Total(f).cost
    ensures |f| == 0 ==> v.panel.topDefect == Kpis.NoDefect
    ensures |f| > 0 ==> v.panel.topDefect in Elements(Column(f, Defect))
    ensures |f| > 0 ==> forall w :: Kpis.Frequency(f, Defect, w) <= Kpis.Frequency(f, Defect, v.panel.topDefect)
    ensures v.panel.distinct == |Elements(Column(f, Machine))|
    ensures SumWhere(v.trends.total, AnyKey) == Total(f)
    ensures |v.topMachines| <= 5 && Ranking.NonIncreasing(v.topMachines, Quantity) && Ranking.DistinctKeys(v.topMachines)
    ensures forall i :: 0 <= i < |v.machineCumulative| && LastOfRun(v.machineCumulative, i) ==>
              v.machineCumulative[i].cumulative == KeyTotal(f, ByAttr(Machine), Label(v.machineCumulative[i].name)).quantity
    ensures SumWhere(v.costs.defectShare, AnyKey).quantity == Total(f).quantity
  {
    var resampled := ResampledDates(f, g);
    var panel := Kpis.PanelOf(f, Machine);
    var trends := TrendsOf(f);
    var top := Ranking.TopFive(f, Machine);
    var machineCum := CumulativeOf(f, Machine);
    var defectCum := CumulativeOf(f, Defect);
    var costs := CostsOf(f);
    v := ScrapFigures(resampled, panel, trends, top, machineCum, defectCum, costs);
  }

  /** Filtering leaves only rows with dates. */
  lemma FilteredAreDated(rows: seq<Row>, c: Criteria)
    ensures forall i :: 0 <= i < |Apply(rows, c)| ==> Apply(rows, c)[i].date.Some?
  {
  }

  /** `show_scrap_analysis_page`: Machine, Defect and Fabric filters under
      the `sa_` keys, then the figures over the rows that pass. */
  method ScrapAnalysis(s: State, upload: Option<seq<RawRow>>, parse: string -> Reading, reset: bool, g: Buckets.Granularity)
    returns (out: Outcome<(Selected, ScrapFigures)>)
    requires WellTyped(s)
    ensures out.NoData? <==> upload.None?
    ensures !out.Failed?
    ensures out.Shown? ==>
              && out.view.0 == Select(s, Coerce(upload.value, parse), ScrapAnalysisPage, reset)
              && s.Keys <= out.view.0.state.Keys
              && (forall k :: k in s && k.ns != Sa ==> out.view.0.state[k] == s[k])
              && out.view.1.panel.totalScrap == Total(out.view.0.filtered).quantity
              && out.view.1.panel.totalCost == Total(out.view.0.filtered).cost
              && |out.view.1.topMachines| <= 5
  {
    if upload.None? {
      return NoData;
    }
    var rows := Coerce(upload.value, parse);
    var sel := Select(s, rows, ScrapAnalysisPage, reset);
    FilteredAreDated(rows, sel.criteria);
    var figures := ScrapAnalysisFigures(sel.filtered, g);
    return Shown((sel, figures));
  }

  lemma {:induction false} AllDatedIsDated(rows: seq<Row>)
    requires forall i :: 0 <= i < |rows| ==> rows[i].date.Some?
    ensures Dated(rows) == rows
    decreases |rows|
  {
    if |rows| > 0 {
      var tail := rows[1..];
      assert forall i :: 0 <= i < |tail| ==> tail[i] == rows[i + 1];
      AllDatedIsDated(tail);
      assert rows[0].date.Some?;
      assert Dated(rows) == [rows[0]] + Dated(tail);
      assert rows == [rows[0]] + tail;
    }
  }

  /** On dated rows, summing the (value, date) groups of one value gives
      that value's total. */
  lemma {:induction false} PairSumIsValueTotal(rows: seq<Row>, d: Dimension, v: string)
    requires forall i :: 0 <= i < |rows| ==> rows[i].date.Some?
    ensures SumRowsWhere(rows, ByAttrDate(d), NameIs(v)) == KeyTotal(rows, ByAttr(d), Label(v))
    decreases |rows|
  {
    if |rows| > 0 {
      PairSumIsValueTotal(rows[1..], d, v);
    }
  }

  /** The figures of `show_quality_reports_page` over the filtered rows. */
  datatype QualityFigures = QualityFigures(
    panel: Kpis.Panel,
    trend: seq<Group>,
    topMachines: seq<Group>,
    topShifts: seq<Group>,
    defectShare: seq<Group>)

  /** The KPI panel with the shift count, the trend, the top-5 machines and
      shifts, and the defect share, over rows that all have dates. */
  function QualityReportsFigures(f: seq<Row>): (v: QualityFigures)
    requires forall i :: 0 <= i < |f| ==> f[i].date.Some?
    ensures v.panel.totalScrap == Total(f).quantity
    ensures |f| == 0 ==> v.panel.topDefect == Kpis.NoDefect
    ensures |f| > 0 ==> v.panel.topDefect in Elements(Column(f, Defect))
    ensures |f| > 0 ==> forall w :: Kpis.Frequency(f, Defect, w) <= Kpis.Frequency(f, Defect, v.panel.topDefect)
    ensures v.panel.distinct == |Elements(Column(f, Shift))|
    ensures SumWhere(v.trend, AnyKey) == Total(f)
    ensures |v.topMachines| <= 5 && Ranking.DistinctKeys(v.topMachines) && Ranking.NonIncreasing(v.topMachines, Quantity)
    ensures forall i :: 0 <= i < |v.topMachines| ==> v.topMachines[i].key.Label? && v.topMachines[i].key.name in Elements(Column(f, Machine))
    ensures |v.topShifts| <= 5 && Ranking.DistinctKeys(v.topShifts) && Ranking.NonIncreasing(v.topShifts, Quantity)
    ensures forall i :: 0 <= i < |v.topShifts| ==> v.topShifts[i].key.Label? && v.topShifts[i].key.name in Elements(Column(f, Shift))
    ensures |v.defectShare| == |Elements(Column(f, Defect))| && SumWhere(v.defectShare, AnyKey).quantity == Total(f).quantity
  {
    AllDatedIsDated(f);
    DateGroupsAddUp(f);
    GroupsAddUp(f, Defect);
    GroupCountIsDistinctCount(f, Defect);
    QualityFigures(Kpis.PanelOf(f, Shift), GroupSum(f, ByDate),
      Ranking.TopFive(f, Machine), Ranking.TopFive(f, Shift), GroupSum(f, ByAttr(Defect)))
  }

  /** `show_quality_reports_page`: Machine, Defect and Shift filters under
      the `qr_` keys; Fabric is never consulted. */
  function QualityReports(s: State, upload: Option<seq<RawRow>>, parse: string -> Reading, reset: bool): (out: Outcome<(Selected, QualityFigures)>)
    requires WellTyped(s)
    ensures out.NoData? <==> upload.None?
    ensures !out.Failed?
    ensures out.Shown? ==>
              && out.view.0 == Select(s, Coerce(upload.value, parse), QualityReportsPage, reset)
              && s.Keys <= out.view.0.state.Keys
              && (forall k :: k in s && k.ns != Qr ==> out.view.0.state[k] == s[k])
              && out.view.1.panel.totalScrap == Total(out.view.0.filtered).quantity
  {
    if upload.None? then NoData
    else
      var rows := Coerce(upload.value, parse);
      var sel := Select(s, rows, QualityReportsPage, reset);
      FilteredAreDated(rows, sel.criteria);
      Shown((sel, QualityReportsFigures(sel.filtered)))
  }

  /** The figures of the older quality page over the filtered rows. */
  datatype OlderQualityFigures = OlderQualityFigures(
    rowCount: nat,
    fabricCost: seq<Group>,
    machineScrap: seq<Group>,
    defectCounts: seq<Group>)

  /** The row count, cost per fabric, scrap per machine and the defect value
      counts. */
  function OlderQualityReportsFigures(f: seq<Row>): (v: OlderQualityFigures)
    ensures v.rowCount == |f|
    ensures |v.fabricCost| == |Elements(Column(f, Fabric))| && SumWhere(v.fabricCost, AnyKey).cost == Total(f).cost
    ensures |v.machineScrap| == |Elements(Column(f, Machine))| && SumWhere(v.machineScrap, AnyKey).quantity == Total(f).quantity
    ensures |v.defectCounts| == |Elements(Column(f, Defect))|
    ensures Ranking.NonIncreasing(v.defectCounts, Count) && Ranking.DistinctKeys(v.defectCounts)
    ensures forall i :: 0 <= i < |v.defectCounts| ==>
              v.defectCounts[i].key.Label? && v.defectCounts[i].totals.count == Kpis.Frequency(f, Defect, v.defectCounts[i].key.name)
    ensures SumWhere(v.defectCounts, AnyKey).count == |f|
  {
    GroupsAddUp(f, Fabric);
    GroupsAddUp(f, Machine);
    GroupCountIsDistinctCount(f, Fabric);
    GroupCountIsDistinctCount(f, Machine);
    OlderQualityFigures(|f|, GroupSum(f, ByAttr(Fabric)), GroupSum(f, ByAttr(Machine)), Ranking.ValueCounts(f, Defect))
  }

  /** The older `show_quality_reports_page`: Machine, Defect and Fabric
      filters under the `qr_` keys; Shift is never consulted. */
  function OlderQualityReports(s: State, upload: Option<seq<RawRow>>, parse: string -> Reading, reset: bool): (out: Outcome<(Selected, OlderQualityFigures)>)
    requires WellTyped(s)
    ensures out.NoData? <==> upload.None?
    ensures !out.Failed?
    ensures out.Shown? ==>
              && out.view.0 == Select(s, Coerce(upload.value, parse), OlderQualityReportsPage, reset)
              && s.Keys <= out.view.0.state.Keys
              && (forall k :: k in s && k.ns != Qr ==> out.view.0.state[k] == s[k])
              && out.view.1.rowCount == |out.view.0.filtered|
  {
    if upload.None? then NoData
    else
      var rows := Coerce(upload.value, parse);
      var sel := Select(s, rows, OlderQualityReportsPage, reset);
      Shown((sel, OlderQualityReportsFigures(sel.filtered)))
  }

  /** The figures of the older analysis page over the filtered rows. */
  datatype OlderScrapFigures = OlderScrapFigures(rowCount: nat, defectScrap: seq<Group>, trend: seq<Group>)

  /** The row count, scrap per defect and the trend, over rows that all have
      dates. */
  function OlderScrapAnalysisFigures(f: seq<Row>): (v: OlderScrapFigures)
    requires forall i :: 0 <= i < |f| ==> f[i].date.Some?
    ensures v.rowCount == |f|
    ensures |v.defectScrap| == |Elements(Column(f, Defect))|
    ensures SumWhere(v.defectScrap, AnyKey).quantity == Total(f).quantity
    ensures SumWhere(v.trend, AnyKey).quantity == Total(f).quantity
  {
    GroupsAddUp(f, Defect);
    GroupCountIsDistinctCount(f, Defect);
    AllDatedIsDated(f);
    DateGroupsAddUp(f);
    OlderScrapFigures(|f|, GroupSum(f, ByAttr(Defect)), GroupSum(f, ByDate))
  }

  /** What the older `show_scrap_analysis_page` computes: KPIs over the
      whole table, then the selection and the figures over the rows that
      pass. */
  datatype OlderScrapAnalysisView = OlderScrapAnalysisView(
    totalScrap: int,
    totalCost: int,
    topDefect: string,
    selected: Selected,
    figures: OlderScrapFigures)

  /** The older analysis page: KPIs over the whole table, with no guard on
      the mode, then Machine and Defect filters under the unprefixed keys. */
  function OlderScrapAnalysis(s: State, upload: Option<seq<RawRow>>, parse: string -> Reading, reset: bool): (out: Outcome<OlderScrapAnalysisView>)
    requires WellTyped(s)
    ensures out.NoData? <==> upload.None?
    ensures out.Failed? <==> upload.Some? && |upload.value| == 0
    ensures out.Failed? ==> out.error == ModeOfEmptyColumn
    ensures out.Shown? ==>
              var v := out.view;
              var rows := Coerce(upload.value, parse);
              && v.totalScrap == Total(rows).quantity && v.totalCost == Total(rows).cost
              && v.topDefect in Elements(Column(rows, Defect))
              && (forall w :: Kpis.Frequency(rows, Defect, w) <= Kpis.Frequency(rows, Defect, v.topDefect))
              && v.selected == Select(s, rows, OlderScrapAnalysisPage, reset)
              && v.figures.rowCount == |v.selected.filtered|
  {
    if upload.None? then NoData
    else
      var rows := Coerce(upload.value, parse);
      match Kpis.TopDefectUnguarded(rows)
      case Failure(e) => Failed(e)
      case Success(top) =>
        var sel := Select(s, rows, OlderScrapAnalysisPage, reset);
        FilteredAreDated(rows, sel.criteria);
        Shown(OlderScrapAnalysisView(
          Total(rows).quantity, Total(rows).cost, top, sel, OlderScrapAnalysisFigures(sel.filtered)))
  }

  /** The KPIs of the older analysis page read the whole table, so no
      selection changes them. */
  lemma OlderKpisIgnoreSelections(s: State, s': State, upload: Option<seq<RawRow>>, parse: string -> Reading, reset: bool, reset': bool)
    requires WellTyped(s) && WellTyped(s')
    requires upload.Some? && |upload.value| > 0
    ensures OlderScrapAnalysis(s, upload, parse, reset).Shown? && OlderScrapAnalysis(s', upload, parse, reset').Shown?
    ensures OlderScrapAnalysis(s, upload, parse, reset).view.totalScrap == OlderScrapAnalysis(s', upload, parse, reset').view.totalScrap
    ensures OlderScrapAnalysis(s, upload, parse, reset).view.totalCost == OlderScrapAnalysis(s', upload, parse, reset').view.totalCost
    ensures OlderScrapAnalysis(s, upload, parse, reset).view.topDefect == OlderScrapAnalysis(s', upload, parse, reset').view.topDefect
  {
  }

  /** The selections `sidebar_filters` returns: the date range and the
      machines, defects and fabrics picked. */
  datatype Selections = Selections(range: Selection, machines: seq<string>, defects: seq<string>, fabrics: seq<string>)

  /** `sidebar_filters(df)`: the unprefixed selection block over a table
      whose dates are already converted. It returns the four selections read
      back from the state; the filtered table is computed and dropped. */
  function SidebarFilters(s: State, rows: seq<Row>, reset: bool): (r: (State, Selections))
    requires WellTyped(s)
    ensures r.0.Keys == s.Keys + PageKeys(SidebarFiltersPage)
    ensures WellTyped(r.0)
    ensures !reset ==> forall k :: k in s ==> r.0[k] == s[k]
    ensures forall k :: k in s && k !in PageKeys(SidebarFiltersPage) ==> r.0[k] == s[k]
    ensures r.1.range == r.0[StateKey(Plain, DateRange)] && r.1.range.Range?
    ensures r.1.machines == r.0[StateKey(Plain, Picks(Machine))].values
    ensures r.1.defects == r.0[StateKey(Plain, Picks(Defect))].values
    ensures r.1.fabrics == r.0[StateKey(Plain, Picks(Fabric))].values
    ensures reset ==>
              && r.1.range == Range(MinDate(rows), MaxDate(rows))
              && Elements(r.1.machines) == Elements(Column(rows, Machine))
              && Elements(r.1.defects) == Elements(Column(rows, Defect))
              && Elements(r.1.fabrics) == Elements(Column(rows, Fabric))
  {
    var sel := Select(s, rows, SidebarFiltersPage, reset);
    var st := sel.state;
    assert StateKey(Plain, Picks(Machine)) in PageKeys(SidebarFiltersPage);
    assert StateKey(Plain, Picks(Defect)) in PageKeys(SidebarFiltersPage);
    assert StateKey(Plain, Picks(Fabric)) in PageKeys(SidebarFiltersPage);
    (st, Selections(
      st[StateKey(Plain, DateRange)],
      st[StateKey(Plain, Picks(Machine))].values,
      st[StateKey(Plain, Picks(Defect))].values,
      st[StateKey(Plain, Picks(Fabric))].values))
  }

  /** Everything the top-level script computes. */
  datatype MainView = MainView(
    totalScrap: int,
    totalCost: int,
    topDefect: string,
    trend: seq<Group>,
    defectScrap: seq<Group>,
    fabricCost: seq<Group>)

  /** The top-level script over an uploaded table: KPIs over every row with
      no guard on the mode, then a strict date conversion, then scrap per
      date, scrap per defect and cost per fabric. The mode is taken before
      the dates are converted, so an empty table fails on the mode. A blank
      Date cell passes the strict conversion as a missing date: its row is
      in the sums but in no per-date group, so the trend then falls short of
      the total scrap by exactly the scrap of those rows. */
  function MainScript(upload: Option<seq<RawRow>>, parse: string -> Reading): (out: Outcome<MainView>)
    ensures out.NoData? <==> upload.None?
    ensures out.Failed? <==> upload.Some? && (|upload.value| == 0 || ParseStrict(upload.value, parse).Failure?)
    ensures out.Failed? && |upload.value| == 0 ==> out.error == ModeOfEmptyColumn
    ensures out.Failed? && |upload.value| > 0 ==>
              && out.error.UnparseableDate?
              && out.error.index < |upload.value|
              && parse(upload.value[out.error.index].dateText).Unreadable?
    ensures out.Shown? ==>
              var v := out.view;
              var rows := Coerce(upload.value, parse);
              && (forall i :: 0 <= i < |rows| ==> (rows[i].date.None? <==> parse(upload.value[i].dateText).Blank?))
              && v.totalScrap == Total(rows).quantity && v.totalCost == Total(rows).cost
              && v.topDefect in Elements(Column(rows, Defect))
              && (forall w :: Kpis.Frequency(rows, Defect, w) <= Kpis.Frequency(rows, Defect, v.topDefect))
              && |v.trend| == |Elements(Dates(rows)) - {None}|
              && SumWhere(v.trend, AnyKey) == Total(Dated(rows))
              && v.totalScrap == SumWhere(v.trend, AnyKey).quantity + Total(Undated(rows)).quantity
              && |v.defectScrap| == |Elements(Column(rows, Defect))| && SumWhere(v.defectScrap, AnyKey).quantity == v.totalScrap
              && |v.fabricCost| == |Elements(Column(rows, Fabric))| && SumWhere(v.fabricCost, AnyKey).cost == v.totalCost
  {
    if upload.None? then NoData
    else
      var raw := upload.value;
      match Kpis.TopDefectUnguarded(Coerce(raw, parse))
      case Failure(e) => Failed(e)
      case Success(top) =>
        match ParseStrict(raw, parse)
        case Failure(e) => Failed(e)
        case Success(rows) =>
          StrictMissingOnlyWhereBlank(raw, parse);
          DateGroupsAddUp(rows);
          DatedUndatedSplit(rows);
          DateGroupCount(rows);
          GroupsAddUp(rows, Defect);
          GroupsAddUp(rows, Fabric);
          GroupCountIsDistinctCount(rows, Defect);
          GroupCountIsDistinctCount(rows, Fabric);
          Shown(MainView(
            Total(rows).quantity, Total(rows).cost, top,
            GroupSum(rows, ByDate), GroupSum(rows, ByAttr(Defect)), GroupSum(rows, ByAttr(Fabric))))
  }

  /** There is one per-date group per distinct present date; a missing date
      makes no group. */
  lemma DateGroupCount(rows: seq<Row>)
    ensures |GroupSum(rows, ByDate)| == |Elements(Dates(rows)) - {None}|
  {
    var gs := GroupSum(rows, ByDate);
    var ds := Elements(Dates(rows)) - {None};
    GroupKeysAreDates(rows);
    DatesHaveGroups(rows);
    assert KeysOf(gs) == set x | x in ds :: Date(x.value);
    SortedCardinality(gs);
    DateKeyCardinality(ds);
  }

  lemma GroupKeysAreDates(rows: seq<Row>)
    ensures forall k :: k in KeysOf(GroupSum(rows, ByDate)) ==>
              k.Date? && Some(k.day) in Elements(Dates(rows))
  {
    forall k | k in KeysOf(GroupSum(rows, ByDate))
      ensures k.Date? && Some(k.day) in Elements(Dates(rows))
    {
      PresentKeysMeaning(rows, ByDate, k);
      var i :| 0 <= i < |rows| && KeyOf(rows[i], ByDate) == Some(k);
      assert Dates(rows)[i] == Some(k.day);
    }
  }

  lemma DatesHaveGroups(rows: seq<Row>)
    ensures forall x :: x in Elements(Dates(rows)) && x.Some? ==> Date(x.value) in KeysOf(GroupSum(rows, ByDate))
  {
    forall x | x in Elements(Dates(rows)) && x.Some?
      ensures Date(x.value) in KeysOf(GroupSum(rows, ByDate))
    {
      var i :| 0 <= i < |rows| && Dates(rows)[i] == x;
      PresentKeysMeaning(rows, ByDate, Date(x.value));
      assert KeyOf(rows[i], ByDate) == Some(Date(x.value));
    }
  }

  lemma DateKeyCardinality(ds: set<Option<Day>>)
    requires forall x :: x in ds ==> x.Some?
    ensures |set x | x in ds :: Date(x.value)| == |ds|
    decreases ds
  {
    if ds != {} {
      var x :| x in ds;
      DateKeyCardinality(ds - {x});
      assert (set y | y in ds :: Date(y.value)) == (set y | y in ds - {x} :: Date(y.value)) + {Date(x.value)};
    }
  }
}
