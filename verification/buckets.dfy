/** Time bucketing of the scrap-analysis page: every filtered date is mapped to
    the start of its day, its week or its month. Pandas' weekly period `"W"` is
    the week ending on Sunday, so a week starts on a Monday. */
module Buckets {
  import opened Wrappers
  import opened Calendar

  /** The "Time Granularity" choice: "Day", "Week" or "Month". */
  datatype Granularity = Daily | Weekly | Monthly

  /** The Monday that starts the week of `d`. */
  function WeekStart(d: Day): (w: Day)
    ensures w <= d < w + 7
    ensures Weekday(w) == 0
  {
    d - d % 7
  }

  /** The first day of the month of `d`. */
  function MonthStart(d: Day): (m: Day)
    ensures FromDay(m) == Civil(FromDay(d).year, FromDay(d).month, 1)
    ensures m <= d
    ensures d - m < MonthLength(FromDay(d).year, FromDay(d).month)
  {
    var c := FromDay(d);
    var first := Civil(c.year, c.month, 1);
    CivilRoundTrip(first);
    ToDay(first)
  }

  /** The start of the bucket that holds `d`. */
  function Bucket(d: Day, g: Granularity): Day {
    match g
    case Daily => d
    case Weekly => WeekStart(d)
    case Monthly => MonthStart(d)
  }

  /** Every bucket starts on or before its date, and a week or a month bucket
      starts on a Monday or on the first of the month. */
  lemma BucketShape(d: Day, g: Granularity)
    ensures Bucket(d, g) <= d
    ensures g == Daily ==> Bucket(d, g) == d
    ensures g == Weekly ==> Weekday(Bucket(d, g)) == 0 && d - Bucket(d, g) <= 6
    ensures g == Monthly ==>
              && FromDay(Bucket(d, g)).day == 1
              && FromDay(Bucket(d, g)).year == FromDay(d).year
              && FromDay(Bucket(d, g)).month == FromDay(d).month
  {
  }

  /** Re-bucketing a bucket start leaves it where it is. */
  lemma BucketIdempotent(d: Day, g: Granularity)
    ensures Bucket(Bucket(d, g), g) == Bucket(d, g)
  {
    if g == Monthly {
      var m := MonthStart(d);
      var first := Civil(FromDay(d).year, FromDay(d).month, 1);
      assert FromDay(m) == first;
      assert FromDay(MonthStart(m)) == first;
      ToDayInjective(FromDay(MonthStart(m)), FromDay(m));
    }
  }

  /** Two dates share a month bucket exactly when they fall in the same month of
      the same year. */
  lemma SameMonthBucket(d: Day, e: Day)
    ensures MonthStart(d) == MonthStart(e)
        <==> FromDay(d).year == FromDay(e).year && FromDay(d).month == FromDay(e).month
  {
    if FromDay(d).year == FromDay(e).year && FromDay(d).month == FromDay(e).month {
      ToDayInjective(FromDay(MonthStart(d)), FromDay(MonthStart(e)));
    }
  }

  /** Two dates share a week bucket exactly when they lie in the same
      Monday-to-Sunday week. */
  lemma SameWeekBucket(d: Day, e: Day)
    ensures WeekStart(d) == WeekStart(e) <==> d / 7 == e / 7
  {
  }

  /** Bucketing keeps dates in order. */
  lemma BucketMonotone(d: Day, e: Day, g: Granularity)
    requires d <= e
    ensures Bucket(d, g) <= Bucket(e, g)
  {
    if g == Monthly && MonthStart(d) > MonthStart(e) {
      // d's month would start strictly inside e's month, on a day other than the first
      var ce := FromDay(e);
      var k := MonthStart(d) - MonthStart(e);
      var c := Civil(ce.year, ce.month, k + 1);
      CivilRoundTrip(Civil(ce.year, ce.month, 1));
      assert ToDay(c) == MonthStart(d);
      CivilRoundTrip(c);
      assert false;
    }
  }

  /** The "Date_Resampled" column: computed only when the filtered table is not
      empty, one bucket per row, a missing date staying missing. */
  function ResampledColumn(dates: seq<Option<Day>>, g: Granularity): (col: Option<seq<Option<Day>>>)
    ensures col.None? <==> |dates| == 0
    ensures col.Some? ==> |col.value| == |dates|
    ensures col.Some? ==> forall i :: 0 <= i < |dates| ==>
              (col.value[i].Some? <==> dates[i].Some?) &&
              (dates[i].Some? ==> col.value[i].value <= dates[i].value &&
                                  col.value[i].value == Bucket(dates[i].value, g))
  {
    if |dates| == 0 then None
    else Some(seq(|dates|, i requires 0 <= i < |dates| =>
      match dates[i]
      case None => None
      case Some(d) => (BucketShape(d, g); Some(Bucket(d, g)))))
  }
}
