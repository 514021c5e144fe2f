/** The row filter every analysis page applies to its table: an inclusive date
    range and, for each of the page's active dimensions, membership in the
    selected values, combined with AND. Like pandas' boolean indexing, it keeps
    the surviving rows in their original order. */
module Filter {
  import opened Wrappers
  import opened Calendar
  import opened Records
  import opened Seqs

  /** What the sidebar selects: the date range `(start, end)` and, for every
      active dimension, the chosen values. A page's active dimensions are the
      keys of `selected`; a column that is not a key is never consulted. */
  datatype Criteria = Criteria(start: Option<Day>, end: Option<Day>, selected: map<Dimension, seq<string>>)

  /** `start <= date <= end`. Every comparison with a missing value is false,
      as it is with NaT. */
  predicate InRange(date: Option<Day>, start: Option<Day>, end: Option<Day>) {
    && date.Some? && start.Some? && end.Some?
    && start.value <= date.value <= end.value
  }

  /** The row mask: the date is in range and every active column's value is
      among the selected ones (`isin`). */
  predicate Passes(r: Row, c: Criteria) {
    && InRange(r.date, c.start, c.end)
    && forall d :: d in c.selected ==> Attr(r, d) in c.selected[d]
  }

  /** `df[mask]`: the rows that pass, in table order. */
  function Apply(rows: seq<Row>, c: Criteria): (kept: seq<Row>)
    ensures IsSubsequence(kept, rows)
    ensures forall i :: 0 <= i < |kept| ==> Passes(kept[i], c)
    ensures forall i :: 0 <= i < |kept| ==> kept[i].date.Some?
    ensures forall x :: multiset(kept)[x] == if Passes(x, c) then multiset(rows)[x] else 0
    decreases |rows|
  {
    if |rows| == 0 then []
    else
      var rest := Apply(rows[1..], c);
      ApplyStep(rows, c, rest);
      if Passes(rows[0], c) then [rows[0]] + rest else rest
  }

  lemma ApplyStep(rows: seq<Row>, c: Criteria, rest: seq<Row>)
    requires |rows| > 0 && IsSubsequence(rest, rows[1..])
    requires forall x :: multiset(rest)[x] == if Passes(x, c) then multiset(rows[1..])[x] else 0
    ensures var kept := if Passes(rows[0], c) then [rows[0]] + rest else rest;
            && IsSubsequence(kept, rows)
            && forall x :: multiset(kept)[x] == if Passes(x, c) then multiset(rows)[x] else 0
  {
    assert rows == [rows[0]] + rows[1..];
    assert multiset(rows) == multiset{rows[0]} + multiset(rows[1..]);
    if Passes(rows[0], c) {
      assert multiset([rows[0]] + rest) == multiset{rows[0]} + multiset(rest);
    } else {
      SubsequenceSkip(rest, rows);
    }
  }

  /** A row with a missing date is never kept, whatever the selections. */
  lemma MissingDateNeverKept(rows: seq<Row>, c: Criteria, r: Row)
    requires r in rows && r.date.None?
    ensures r !in Apply(rows, c)
  {
    assert multiset(Apply(rows, c))[r] == 0;
  }

  /** Filtering only drops rows: if every row passes, nothing is dropped. */
  lemma {:induction false} ApplyKeepsAllPassing(rows: seq<Row>, c: Criteria)
    requires forall i :: 0 <= i < |rows| ==> Passes(rows[i], c)
    ensures Apply(rows, c) == rows
    decreases |rows|
  {
    if |rows| > 0 {
      ApplyKeepsAllPassing(rows[1..], c);
      assert rows == [rows[0]] + rows[1..];
    }
  }

  /** Filtering twice with the same selections filters once. */
  lemma ApplyIdempotent(rows: seq<Row>, c: Criteria)
    ensures Apply(Apply(rows, c), c) == Apply(rows, c)
  {
    ApplyKeepsAllPassing(Apply(rows, c), c);
  }

  /** Two selections that accept the same rows of a table keep the same rows. */
  lemma {:induction false} ApplyExtensional(rows: seq<Row>, c: Criteria, c': Criteria)
    requires forall i :: 0 <= i < |rows| ==> (Passes(rows[i], c) <==> Passes(rows[i], c'))
    ensures Apply(rows, c) == Apply(rows, c')
    decreases |rows|
  {
    if |rows| > 0 {
      ApplyExtensional(rows[1..], c, c');
    }
  }

  /** The rows whose date is present, in table order. */
  function Dated(rows: seq<Row>): (dated: seq<Row>)
    ensures IsSubsequence(dated, rows)
    ensures forall x :: multiset(dated)[x] == if x.date.Some? then multiset(rows)[x] else 0
    decreases |rows|
  {
    if |rows| == 0 then []
    else
      var rest := Dated(rows[1..]);
      assert rows == [rows[0]] + rows[1..];
      if rows[0].date.Some? then
        [rows[0]] + rest
      else
        SubsequenceSkip(rest, rows);
        rest
  }

  /** The rows whose date is missing, in table order. */
  function Undated(rows: seq<Row>): (undated: seq<Row>)
    ensures forall x :: multiset(undated)[x] == if x.date.None? then multiset(rows)[x] else 0
    decreases |rows|
  {
    if |rows| == 0 then []
    else
      assert rows == [rows[0]] + rows[1..];
      (if rows[0].date.None? then [rows[0]] else []) + Undated(rows[1..])
  }

  /** Selections that accept every dated row keep exactly the dated rows. */
  lemma {:induction false} ApplyKeepsDated(rows: seq<Row>, c: Criteria)
    requires forall i :: 0 <= i < |rows| && rows[i].date.Some? ==> Passes(rows[i], c)
    ensures Apply(rows, c) == Dated(rows)
    decreases |rows|
  {
    if |rows| > 0 {
      ApplyKeepsDated(rows[1..], c);
    }
  }

  /** `a` and `b` differ at most in column `d`. */
  predicate AgreeExcept(a: Row, b: Row, d: Dimension) {
    && a.date == b.date && a.quantity == b.quantity && a.cost == b.cost
    && forall e :: e != d ==> Attr(a, e) == Attr(b, e)
  }

  /** A column that is not an active dimension never decides whether a row is
      kept: rewriting it anywhere in the table changes the kept rows in that
      column only. */
  lemma {:induction false} InactiveDimensionIgnored(rows: seq<Row>, rows': seq<Row>, c: Criteria, d: Dimension)
    requires d !in c.selected
    requires |rows| == |rows'|
    requires forall i :: 0 <= i < |rows| ==> AgreeExcept(rows[i], rows'[i], d)
    ensures |Apply(rows, c)| == |Apply(rows', c)|
    ensures forall k :: 0 <= k < |Apply(rows, c)| ==> AgreeExcept(Apply(rows, c)[k], Apply(rows', c)[k], d)
    decreases |rows|
  {
    if |rows| > 0 {
      InactiveDimensionIgnored(rows[1..], rows'[1..], c, d);
      var rest, rest' := Apply(rows[1..], c), Apply(rows'[1..], c);
      SamePassing(rows[0], rows'[0], c, d);
      if Passes(rows[0], c) {
        assert Apply(rows, c) == [rows[0]] + rest;
        assert Apply(rows', c) == [rows'[0]] + rest';
        forall k | 0 < k < |Apply(rows, c)|
          ensures AgreeExcept(Apply(rows, c)[k], Apply(rows', c)[k], d)
        {
          assert Apply(rows, c)[k] == rest[k - 1] && Apply(rows', c)[k] == rest'[k - 1];
        }
      } else {
        assert Apply(rows, c) == rest && Apply(rows', c) == rest';
      }
    }
  }

  /** Rows that differ only in an inactive column pass or fail together. */
  lemma SamePassing(a: Row, b: Row, c: Criteria, d: Dimension)
    requires d !in c.selected && AgreeExcept(a, b, d)
    ensures Passes(a, c) <==> Passes(b, c)
  {
    forall e | e in c.selected
      ensures Attr(a, e) == Attr(b, e)
    {
      assert e != d;
    }
  }
}
