/** The sidebar selections kept across reruns in Streamlit's session state.
    Each page owns a date-range key and one key per active column, all under
    the page's prefix (`sa_`, `qr_`, or none). On every run a page first
    writes the defaults observed in the unfiltered table under the keys that
    are still absent, and the Reset button writes them under all of its keys. */
module Session {
  import opened Wrappers
  import opened Calendar
  import opened Records
  import opened Seqs
  import opened Filter

  /** The key prefix a page uses. */
  datatype Namespace = Sa | Qr | Plain

  /** What a key holds: the date range, or the values picked for a column. */
  datatype Field = DateRange | Picks(dim: Dimension)

  datatype StateKey = StateKey(ns: Namespace, field: Field)

  /** A stored selection: `(start, end)` or a list of values. A bound read
      from a column without any date is missing (NaT). */
  datatype Selection = Range(start: Option<Day>, end: Option<Day>) | Values(values: seq<string>)

  type State = map<StateKey, Selection>

  /** Date keys hold ranges and column keys hold value lists. */
  predicate WellTyped(s: State) {
    forall k :: k in s ==> (k.field.DateRange? <==> s[k].Range?)
  }

  function Prefix(ns: Namespace): string {
    match ns
    case Sa => "sa_"
    case Qr => "qr_"
    case Plain => ""
  }

  function Suffix(f: Field): string {
    match f
    case DateRange => "date"
    case Picks(Machine) => "machines"
    case Picks(Defect) => "defects"
    case Picks(Fabric) => "fabric"
    case Picks(Shift) => "shift"
  }

  /** The session-state key's name, such as `qr_selected_shift`. */
  function KeyName(k: StateKey): string {
    Prefix(k.ns) + "selected_" + Suffix(k.field)
  }

  /** The first two letters of a key name tell its prefix. */
  lemma KeyNameHead(k: StateKey)
    ensures |KeyName(k)| >= 2
    ensures KeyName(k)[..2] == match k.ns case Sa => "sa" case Qr => "qr" case Plain => "se"
  {
    assert KeyName(k) == Prefix(k.ns) + ("selected_" + Suffix(k.field));
  }

  /** Distinct keys have distinct names, so the pages' selections never
      overwrite each other unless they share a prefix. */
  lemma KeyNameInjective(a: StateKey, b: StateKey)
    requires KeyName(a) == KeyName(b)
    ensures a == b
  {
    KeyNameHead(a);
    KeyNameHead(b);
    assert a.ns == b.ns;
    var n := |Prefix(a.ns)| + 9;
    assert KeyName(a)[n..] == Suffix(a.field) && KeyName(b)[n..] == Suffix(b.field);
  }

  /** A page's keys: its prefix and the columns it filters on. */
  datatype Page = Page(ns: Namespace, dims: seq<Dimension>)

  function PageKeys(p: Page): (ks: set<StateKey>)
    ensures forall k :: k in ks <==> k.ns == p.ns && (k.field.DateRange? || k.field.dim in p.dims)
  {
    {StateKey(p.ns, DateRange)} + set d | d in p.dims :: StateKey(p.ns, Picks(d))
  }

  /** Pages with different prefixes have no key in common. */
  lemma NamespacesDisjoint(p: Page, q: Page)
    requires p.ns != q.ns
    ensures PageKeys(p) !! PageKeys(q)
  {
  }

  /** `df["Date"].min()`: the earliest present date, missing when no date is. */
  function MinDate(rows: seq<Row>): (m: Option<Day>)
    ensures m.None? <==> forall i :: 0 <= i < |rows| ==> rows[i].date.None?
    ensures m.Some? ==> exists i :: 0 <= i < |rows| && rows[i].date == m
    ensures m.Some? ==> forall i :: 0 <= i < |rows| && rows[i].date.Some? ==> m.value <= rows[i].date.value
    decreases |rows|
  {
    if |rows| == 0 then None
    else
      var rest := MinDate(rows[1..]);
      assert forall i :: 1 <= i < |rows| ==> rows[i] == rows[1..][i - 1];
      if rows[0].date.None? then rest
      else if rest.None? || rows[0].date.value <= rest.value then rows[0].date
      else rest
  }

  /** `df["Date"].max()`: the latest present date, missing when no date is. */
  function MaxDate(rows: seq<Row>): (m: Option<Day>)
    ensures m.None? <==> forall i :: 0 <= i < |rows| ==> rows[i].date.None?
    ensures m.Some? ==> exists i :: 0 <= i < |rows| && rows[i].date == m
    ensures m.Some? ==> forall i :: 0 <= i < |rows| && rows[i].date.Some? ==> rows[i].date.value <= m.value
    decreases |rows|
  {
    if |rows| == 0 then None
    else
      var rest := MaxDate(rows[1..]);
      assert forall i :: 1 <= i < |rows| ==> rows[i] == rows[1..][i - 1];
      if rows[0].date.None? then rest
      else if rest.None? || rest.value <= rows[0].date.value then rows[0].date
      else rest
  }

  /** The default of a key, observed from the unfiltered table: the date
      range `(min, max)`, or every distinct value of the column
      (`unique().tolist()`). */
  function Default(rows: seq<Row>, f: Field): (sel: Selection)
    ensures f.DateRange? <==> sel.Range?
    ensures sel.Range? ==> sel.start == MinDate(rows) && sel.end == MaxDate(rows)
    ensures sel.Values? ==> Distinct(sel.values) && Elements(sel.values) == Elements(Column(rows, f.dim))
  {
    match f
    case DateRange => Range(MinDate(rows), MaxDate(rows))
    case Picks(d) => Values(Unique(Column(rows, d)))
  }

  /** The `if key not in st.session_state` block: every absent key of the
      page gets its default; present keys keep their selection. */
  function Init(s: State, rows: seq<Row>, p: Page): (s': State)
    ensures s'.Keys == s.Keys + PageKeys(p)
    ensures forall k :: k in s ==> s'[k] == s[k]
    ensures forall k :: k in PageKeys(p) && k !in s ==> s'[k] == Default(rows, k.field)
    ensures WellTyped(s) ==> WellTyped(s')
  {
    s + map k | k in PageKeys(p) && k !in s :: Default(rows, k.field)
  }

  /** The Reset button: every key of the page gets its default; no other key
      is touched. */
  function Reset(s: State, rows: seq<Row>, p: Page): (s': State)
    ensures s'.Keys == s.Keys + PageKeys(p)
    ensures forall k :: k in PageKeys(p) ==> s'[k] == Default(rows, k.field)
    ensures forall k :: k in s && k !in PageKeys(p) ==> s'[k] == s[k]
    ensures WellTyped(s) ==> WellTyped(s')
  {
    s + map k | k in PageKeys(p) :: Default(rows, k.field)
  }

  /** Initialising twice is initialising once. */
  lemma InitIdempotent(s: State, rows: seq<Row>, p: Page)
    ensures Init(Init(s, rows, p), rows, p) == Init(s, rows, p)
  {
  }

  /** On a first visit, initialising and resetting give the same state. */
  lemma FirstInitIsReset(s: State, rows: seq<Row>, p: Page)
    requires forall k :: k in PageKeys(p) ==> k !in s
    ensures Init(s, rows, p) == Reset(s, rows, p)
  {
  }

  /** Resetting after initialising is resetting. */
  lemma ResetAfterInit(s: State, rows: seq<Row>, p: Page)
    ensures Reset(Init(s, rows, p), rows, p) == Reset(s, rows, p)
  {
  }

  /** Once a page's keys are all present, initialising never changes the
      state again, whatever the table. */
  lemma InitKeepsSelections(s: State, rows: seq<Row>, p: Page)
    requires PageKeys(p) <= s.Keys
    ensures Init(s, rows, p) == s
  {
  }

  /** A page's run, Reset pressed or not, leaves the keys of every page with
      another prefix as they were. */
  lemma OtherNamespaceUntouched(s: State, rows: seq<Row>, p: Page, k: StateKey)
    requires k.ns != p.ns && k in s
    ensures Init(s, rows, p)[k] == s[k]
    ensures Reset(Init(s, rows, p), rows, p)[k] == s[k]
  {
  }

  /** The filter criteria a page reads back from the state: the date range
      and, for each active column, the picked values. */
  function CriteriaOf(s: State, p: Page): (c: Criteria)
    requires WellTyped(s) && PageKeys(p) <= s.Keys
    ensures c.start == s[StateKey(p.ns, DateRange)].start
    ensures c.end == s[StateKey(p.ns, DateRange)].end
    ensures c.selected.Keys == set d | d in p.dims
    ensures forall d :: d in p.dims ==> c.selected[d] == s[StateKey(p.ns, Picks(d))].values
  {
    var range := s[StateKey(p.ns, DateRange)];
    Criteria(range.start, range.end, map d | d in p.dims :: s[StateKey(p.ns, Picks(d))].values)
  }

  /** The defaults let every row with a present date through, whatever the
      page's columns: filtering with them keeps exactly the dated rows. */
  lemma {:induction false} DefaultsKeepDatedRows(s: State, rows: seq<Row>, p: Page)
    requires WellTyped(s)
    ensures Apply(rows, CriteriaOf(Reset(s, rows, p), p)) == Dated(rows)
  {
    var c := CriteriaOf(Reset(s, rows, p), p);
    DefaultCriteria(s, rows, p);
    forall i | 0 <= i < |rows| && rows[i].date.Some?
      ensures Passes(rows[i], c)
    {
      forall d | d in c.selected ensures Attr(rows[i], d) in c.selected[d] {
        ColumnValueListed(rows, d, i);
      }
    }
    ApplyKeepsDated(rows, c);
  }

  /** The criteria read back after Reset: the table's date range and every
      value of each active column. */
  lemma DefaultCriteria(s: State, rows: seq<Row>, p: Page)
    requires WellTyped(s)
    ensures CriteriaOf(Reset(s, rows, p), p).start == MinDate(rows)
    ensures CriteriaOf(Reset(s, rows, p), p).end == MaxDate(rows)
    ensures forall d :: d in CriteriaOf(Reset(s, rows, p), p).selected ==>
              CriteriaOf(Reset(s, rows, p), p).selected[d] == Unique(Column(rows, d))
  {
  }

  /** Every value of a column is in its list of distinct values. */
  lemma ColumnValueListed(rows: seq<Row>, d: Dimension, i: int)
    requires 0 <= i < |rows|
    ensures Attr(rows[i], d) in Unique(Column(rows, d))
  {
    var u := Unique(Column(rows, d));
    assert Column(rows, d)[i] in Elements(Column(rows, d));
    var j :| 0 <= j < |u| && u[j] == Attr(rows[i], d);
  }

  /** `min()` and `max()` of the Date column read only the dates. */
  lemma {:induction false} MinDateReadsDates(rows: seq<Row>, rows': seq<Row>)
    requires |rows| == |rows'|
    requires forall i :: 0 <= i < |rows| ==> rows[i].date == rows'[i].date
    ensures MinDate(rows) == MinDate(rows')
    decreases |rows|
  {
    if |rows| > 0 {
      assert forall i :: 0 <= i < |rows| - 1 ==> rows[1..][i].date == rows'[1..][i].date;
      MinDateReadsDates(rows[1..], rows'[1..]);
      assert rows[0].date == rows'[0].date;
    }
  }

  lemma {:induction false} MaxDateReadsDates(rows: seq<Row>, rows': seq<Row>)
    requires |rows| == |rows'|
    requires forall i :: 0 <= i < |rows| ==> rows[i].date == rows'[i].date
    ensures MaxDate(rows) == MaxDate(rows')
    decreases |rows|
  {
    if |rows| > 0 {
      assert forall i :: 0 <= i < |rows| - 1 ==> rows[1..][i].date == rows'[1..][i].date;
      MaxDateReadsDates(rows[1..], rows'[1..]);
      assert rows[0].date == rows'[0].date;
    }
  }

  /** Tables that agree in every row except in one column have the same
      defaults for every key but that column's. */
  lemma {:induction false} DefaultsIgnoreOtherColumn(rows: seq<Row>, rows': seq<Row>, d: Dimension, f: Field)
    requires |rows| == |rows'|
    requires forall i :: 0 <= i < |rows| ==> AgreeExcept(rows[i], rows'[i], d)
    requires f != Picks(d)
    ensures Default(rows, f) == Default(rows', f)
  {
    match f
    case DateRange =>
      MinDateReadsDates(rows, rows');
      MaxDateReadsDates(rows, rows');
    case Picks(e) =>
      assert forall i :: 0 <= i < |rows| ==> Column(rows, e)[i] == Column(rows', e)[i];
      assert Column(rows, e) == Column(rows', e);
  }

  /** Every key of a page gets the same default from tables that differ
      only in a column the page does not filter on. */
  lemma PageDefaultsIgnoreOtherColumn(rows: seq<Row>, rows': seq<Row>, p: Page, d: Dimension)
    requires d !in p.dims
    requires |rows| == |rows'|
    requires forall i :: 0 <= i < |rows| ==> AgreeExcept(rows[i], rows'[i], d)
    ensures forall k :: k in PageKeys(p) ==> Default(rows, k.field) == Default(rows', k.field)
  {
    forall k | k in PageKeys(p) ensures Default(rows, k.field) == Default(rows', k.field) {
      DefaultsIgnoreOtherColumn(rows, rows', d, k.field);
    }
  }

  /** A page's init never depends on a column the page does not filter on. */
  lemma InitIgnoresOtherColumn(s: State, rows: seq<Row>, rows': seq<Row>, p: Page, d: Dimension)
    requires d !in p.dims
    requires |rows| == |rows'|
    requires forall i :: 0 <= i < |rows| ==> AgreeExcept(rows[i], rows'[i], d)
    ensures Init(s, rows, p) == Init(s, rows', p)
  {
    PageDefaultsIgnoreOtherColumn(rows, rows', p, d);
    assert (map k | k in PageKeys(p) && k !in s :: Default(rows, k.field))
        == (map k | k in PageKeys(p) && k !in s :: Default(rows', k.field));
  }

  /** Nor does its Reset. */
  lemma ResetIgnoresOtherColumn(s: State, rows: seq<Row>, rows': seq<Row>, p: Page, d: Dimension)
    requires d !in p.dims
    requires |rows| == |rows'|
    requires forall i :: 0 <= i < |rows| ==> AgreeExcept(rows[i], rows'[i], d)
    ensures Reset(s, rows, p) == Reset(s, rows', p)
  {
    PageDefaultsIgnoreOtherColumn(rows, rows', p, d);
    assert (map k | k in PageKeys(p) :: Default(rows, k.field))
        == (map k | k in PageKeys(p) :: Default(rows', k.field));
  }

  /** The same holds on a first visit, where the defaults come from
      initialising. */
  lemma FirstVisitKeepsDatedRows(s: State, rows: seq<Row>, p: Page)
    requires WellTyped(s) && forall k :: k in PageKeys(p) ==> k !in s
    ensures Apply(rows, CriteriaOf(Init(s, rows, p), p)) == Dated(rows)
  {
    FirstInitIsReset(s, rows, p);
    DefaultsKeepDatedRows(s, rows, p);
  }
}
