/** The scrap table: one record per row of the uploaded CSV, with the Date
    column before and after conversion, and the column sums every page shows. */
module Records {
  import opened Wrappers
  import opened Calendar

  /** The categorical columns a page can filter or group on. */
  datatype Dimension = Machine | Defect | Fabric | Shift

  /** A row after the Date column has been converted: a missing date is the
      NaT that coercion leaves for text it cannot parse. */
  datatype Row = Row(
    date: Option<Day>,
    machine: string,
    defect: string,
    fabric: string,
    shift: string,
    quantity: int,
    cost: int)

  /** A row as uploaded, with the Date column still text. */
  datatype RawRow = RawRow(
    dateText: string,
    machine: string,
    defect: string,
    fabric: string,
    shift: string,
    quantity: int,
    cost: int)

  /** `Machine_ID`, `Defect_Type`, `Fabric_Type` or `Shift` of a row. */
  function Attr(r: Row, d: Dimension): string {
    match d
    case Machine => r.machine
    case Defect => r.defect
    case Fabric => r.fabric
    case Shift => r.shift
  }

  /** One categorical column of the table, in row order. */
  function Column(rows: seq<Row>, d: Dimension): (col: seq<string>)
    ensures |col| == |rows|
    ensures forall i :: 0 <= i < |rows| ==> col[i] == Attr(rows[i], d)
  {
    seq(|rows|, i requires 0 <= i < |rows| => Attr(rows[i], d))
  }

  /** The row `raw` becomes once its date text has been read as `date`. */
  function WithDate(raw: RawRow, date: Option<Day>): Row {
    Row(date, raw.machine, raw.defect, raw.fabric, raw.shift, raw.quantity, raw.cost)
  }

  /** `raw` and `row` agree on every column but Date. */
  predicate SameFields(raw: RawRow, row: Row) {
    && row.machine == raw.machine && row.defect == raw.defect
    && row.fabric == raw.fabric && row.shift == raw.shift
    && row.quantity == raw.quantity && row.cost == raw.cost
  }

  /** What `pd.to_datetime` makes of one Date cell: an empty or NaN-like
      cell is a missing date without being an error, text it cannot read is
      an error unless errors are coerced, and anything else is a day. The
      parser itself is a parameter of every page. */
  datatype Reading = Blank | Unreadable | Read(day: Day)

  /** The converted date of a cell once errors are coerced. */
  function DateOf(x: Reading): Option<Day> {
    if x.Read? then Some(x.day) else None
  }

  /** `pd.to_datetime(..., errors="coerce")` as used by every page: a blank
      cell and text the parser rejects both become a missing date, and
      loading never fails. */
  function Coerce(raw: seq<RawRow>, parse: string -> Reading): (rows: seq<Row>)
    ensures |rows| == |raw|
    ensures forall i :: 0 <= i < |raw| ==>
              && (rows[i].date.Some? <==> parse(raw[i].dateText).Read?)
              && (parse(raw[i].dateText).Read? ==> rows[i].date.value == parse(raw[i].dateText).day)
              && SameFields(raw[i], rows[i])
  {
    seq(|raw|, i requires 0 <= i < |raw| => WithDate(raw[i], DateOf(parse(raw[i].dateText))))
  }

  /** The errors that stop a page or the top-level script. */
  datatype ScriptError =
    | UnparseableDate(index: nat)   // strict date parsing met text it cannot read
    | ModeOfEmptyColumn             // `mode()[0]` on a column with no values

  /** `pd.to_datetime(...)` without coercion, as in the top-level script: the
      first cell whose text cannot be read is an error, while a blank cell
      still becomes a missing date. */
  function ParseStrict(raw: seq<RawRow>, parse: string -> Reading): (r: Result<seq<Row>, ScriptError>)
    ensures r.Success? <==> forall i :: 0 <= i < |raw| ==> !parse(raw[i].dateText).Unreadable?
    ensures r.Success? ==> r.value == Coerce(raw, parse)
    ensures r.Failure? ==>
              && r.error.UnparseableDate?
              && r.error.index < |raw|
              && parse(raw[r.error.index].dateText).Unreadable?
              && forall i :: 0 <= i < r.error.index ==> !parse(raw[i].dateText).Unreadable?
    decreases |raw|
  {
    if |raw| == 0 then Success([])
    else if parse(raw[0].dateText).Unreadable? then Failure(UnparseableDate(0))
    else
      match ParseStrict(raw[1..], parse)
      case Failure(e) => Failure(UnparseableDate(e.index + 1))
      case Success(rest) =>
        CoerceCons(raw, parse);
        Success([WithDate(raw[0], DateOf(parse(raw[0].dateText)))] + rest)
  }

  /** Coercion works row by row. */
  lemma CoerceCons(raw: seq<RawRow>, parse: string -> Reading)
    requires |raw| > 0
    ensures Coerce(raw, parse) == [WithDate(raw[0], DateOf(parse(raw[0].dateText)))] + Coerce(raw[1..], parse)
  {
    var head := [WithDate(raw[0], DateOf(parse(raw[0].dateText)))];
    assert forall i :: 1 <= i < |raw| ==> Coerce(raw, parse)[i] == Coerce(raw[1..], parse)[i - 1];
    assert Coerce(raw, parse) == head + Coerce(raw[1..], parse);
  }

  /** After a successful strict conversion a date is missing exactly where
      the cell was blank. */
  lemma StrictMissingOnlyWhereBlank(raw: seq<RawRow>, parse: string -> Reading)
    requires ParseStrict(raw, parse).Success?
    ensures forall i :: 0 <= i < |raw| ==>
              (ParseStrict(raw, parse).value[i].date.None? <==> parse(raw[i].dateText).Blank?)
  {
  }

  /** The summed columns of a set of rows: `Quantity_Scrapped_meters`,
      `Scrap_Cost`, and the number of rows. */
  datatype Totals = Totals(quantity: int, cost: int, count: nat) {
    function Plus(o: Totals): Totals {
      Totals(quantity + o.quantity, cost + o.cost, count + o.count)
    }

    function Get(m: Measure): int {
      match m
      case Quantity => quantity
      case Cost => cost
      case Count => count
    }
  }

  /** The column a total or a ranking is taken over. */
  datatype Measure = Quantity | Cost | Count

  const Zero := Totals(0, 0, 0)

  function RowTotals(r: Row): Totals {
    Totals(r.quantity, r.cost, 1)
  }

  /** Column sums over all rows; pandas' `sum()` of an empty column is 0. */
  function Total(rows: seq<Row>): (t: Totals)
    ensures t.count == |rows|
    ensures |rows| == 0 ==> t == Zero
    decreases |rows|
  {
    if |rows| == 0 then Zero else RowTotals(rows[0]).Plus(Total(rows[1..]))
  }

  /** Sums split over concatenation. */
  lemma {:induction false} TotalAppend(a: seq<Row>, b: seq<Row>)
    ensures Total(a + b) == Total(a).Plus(Total(b))
    decreases |a|
  {
    if |a| > 0 {
      assert (a + b)[1..] == a[1..] + b;
      TotalAppend(a[1..], b);
    } else {
      assert a + b == b;
    }
  }
}
