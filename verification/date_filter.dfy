/** The sidebar date filter every page applies to its preview table: two
    date pickers, defaulting to the first and last calendar day of the
    column, and the rows whose timestamp lies between midnight (UTC) of the
    start date and midnight of the end date, both included. */
module DateFilter {
  import opened Options
  import opened Groups
  import Calendar

  /** Midnight UTC of calendar day `day`: a picked date converted with
      `pd.to_datetime(date).tz_localize('UTC')`. */
  function Midnight(day: int): (t: int)
    ensures Calendar.DayOf(t) == day
    ensures t % Calendar.SecondsPerDay == 0
  {
    Calendar.SecondsPerDay * day
  }

  /** The mask `start <= t & t <= end`; a missing timestamp compares false. */
  predicate InWindow(t: Option<int>, startDay: int, endDay: int)
  {
    t.Some? && Midnight(startDay) <= t.value <= Midnight(endDay)
  }

  function Selects<T>(time: T -> Option<int>, startDay: int, endDay: int): T -> bool
  {
    x => InWindow(time(x), startDay, endDay)
  }

  /** `filter_by_date` as written. With both dates picked, the rows inside the
      window in their original order: rows of the days strictly between the
      two dates and of the start date are kept, rows of the end date only at
      midnight exactly. When a date is missing the table is returned as is. */
  function FilterByDate<T(!new)>(rows: seq<T>, time: T -> Option<int>, start: Option<int>, end: Option<int>): (r: seq<T>)
    ensures |r| <= |rows|
    ensures start.None? || end.None? ==> r == rows
    ensures start.Some? && end.Some? ==>
      forall x :: x in r <==> x in rows && InWindow(time(x), start.value, end.value)
    ensures start.Some? && end.Some? ==>
      forall x :: multiset(r)[x] == if InWindow(time(x), start.value, end.value) then multiset(rows)[x] else 0
    ensures start.Some? && end.Some? ==>
      forall x :: x in r ==> time(x).Some? && start.value <= Calendar.DayOf(time(x).value) <= end.value
    ensures start.Some? && end.Some? ==>
      forall x :: x in rows && time(x).Some? && start.value <= Calendar.DayOf(time(x).value) < end.value ==> x in r
    ensures start.Some? && end.Some? ==>
      forall x :: (x in rows && time(x).Some? && Calendar.DayOf(time(x).value) == end.value &&
                   time(x).value != Midnight(end.value)) ==> x !in r
  {
    if start.Some? && end.Some? then
      var r := Where(rows, Selects(time, start.value, end.value));
      WhereCount(rows, Selects(time, start.value, end.value));
      assert forall x :: Selects(time, start.value, end.value)(x) == InWindow(time(x), start.value, end.value);
      r
    else rows
  }

  /** Both filters keep the rows in table order: a row appended to the
      table is appended to the result exactly when it is selected. */
  lemma FiltersSnoc<T(!new)>(rows: seq<T>, x: T, time: T -> Option<int>, startDay: int, endDay: int)
    ensures FilterByDate(rows + [x], time, Some(startDay), Some(endDay)) ==
      FilterByDate(rows, time, Some(startDay), Some(endDay)) + (if InWindow(time(x), startDay, endDay) then [x] else [])
    ensures FilterWholeDays(rows + [x], time, Some(startDay), Some(endDay)) ==
      FilterWholeDays(rows, time, Some(startDay), Some(endDay)) +
      (if time(x).Some? && startDay <= Calendar.DayOf(time(x).value) <= endDay then [x] else [])
  {
    WhereSnoc(rows, x, Selects(time, startDay, endDay));
    WhereSnoc(rows, x, OnDays(time, startDay, endDay));
  }

  /** Filtering twice with the same dates changes nothing more. */
  lemma FilterIdempotent<T(!new)>(rows: seq<T>, time: T -> Option<int>, start: Option<int>, end: Option<int>)
    ensures FilterByDate(FilterByDate(rows, time, start, end), time, start, end) == FilterByDate(rows, time, start, end)
  {
    if start.Some? && end.Some? {
      WhereIdempotent(rows, Selects(time, start.value, end.value));
    }
  }

  lemma {:induction false} WhereIdempotent<T(!new)>(s: seq<T>, p: T -> bool)
    ensures Where(Where(s, p), p) == Where(s, p)
    decreases |s|
  {
    if |s| > 0 {
      var n := |s| - 1;
      var front := Where(s[..n], p);
      WhereIdempotent(s[..n], p);
      assert s[..n] + [s[n]] == s;
      WhereSnoc(s[..n], s[n], p);
      if p(s[n]) {
        WhereSnoc(front, s[n], p);
      }
    }
  }

  /** The calendar days of the dated rows. */
  function DatedDays<T(!new)>(rows: seq<T>, time: T -> Option<int>): (ds: seq<int>)
    ensures forall d :: d in ds <==> exists x :: x in rows && time(x).Some? && Calendar.DayOf(time(x).value) == d
    decreases |rows|
  {
    if |rows| == 0 then []
    else
      var n := |rows| - 1;
      assert forall x :: x in rows <==> x in rows[..n] || x == rows[n];
      DatedDays(rows[..n], time) +
        (if time(rows[n]).Some? then [Calendar.DayOf(time(rows[n]).value)] else [])
  }

  /** The smallest and the largest of a non-empty sequence. */
  function Bounds(ds: seq<int>): (b: (int, int))
    requires |ds| > 0
    ensures b.0 in ds && b.1 in ds
    ensures forall d :: d in ds ==> b.0 <= d <= b.1
    decreases |ds|
  {
    if |ds| == 1 then (ds[0], ds[0])
    else
      var n := |ds| - 1;
      var b := Bounds(ds[..n]);
      assert forall d :: d in ds <==> d in ds[..n] || d == ds[n];
      (if ds[n] < b.0 then ds[n] else b.0, if ds[n] > b.1 then ds[n] else b.1)
  }

  /** The pickers' default dates: the first and the last calendar day of the
      column, `None` when no row is dated. */
  function DefaultWindow<T(!new)>(rows: seq<T>, time: T -> Option<int>): (w: Option<(int, int)>)
    ensures w.None? <==> forall x :: x in rows ==> time(x).None?
    ensures w.Some? ==> w.value.0 <= w.value.1
    ensures w.Some? ==> forall x :: x in rows && time(x).Some? ==>
      w.value.0 <= Calendar.DayOf(time(x).value) <= w.value.1
    ensures w.Some? ==> exists x :: x in rows && time(x).Some? && Calendar.DayOf(time(x).value) == w.value.0
    ensures w.Some? ==> exists x :: x in rows && time(x).Some? && Calendar.DayOf(time(x).value) == w.value.1
  {
    var ds := DatedDays(rows, time);
    assert forall x :: x in rows && time(x).Some? ==> Calendar.DayOf(time(x).value) in ds;
    if |ds| == 0 then None
    else
      assert ds[0] in ds;
      Some(Bounds(ds))
  }

  /** The filter with its dates left at their defaults. */
  function DefaultFilter<T(!new)>(rows: seq<T>, time: T -> Option<int>): (r: seq<T>)
    ensures DefaultWindow(rows, time).None? ==> r == rows
    ensures forall x :: x in r ==> x in rows
    ensures DefaultWindow(rows, time).Some? ==> forall x :: x in r ==> time(x).Some?
  {
    match DefaultWindow(rows, time)
    case None => FilterByDate(rows, time, None, None)
    case Some(w) => FilterByDate(rows, time, Some(w.0), Some(w.1))
  }

  function Stamp(t: Option<int>): Option<int> { t }

  /** Two rows on the first day after the epoch, at midnight and an hour
      later: with the default dates the written filter drops the later one
      although both lie on the last date shown in the picker. */
  lemma DefaultFilterDropsLastDay()
    ensures DefaultWindow([Some(0), Some(3600)], Stamp) == Some((0, 0))
    ensures Some(3600) !in DefaultFilter([Some(0), Some(3600)], Stamp)
    ensures Some(3600) in DefaultFilterWholeDays([Some(0), Some(3600)], Stamp)
  {
    var rows := [Some(0), Some(3600)];
    assert rows[1] in rows;
    assert Calendar.DayOf(3600) == 0;
  }

  function OnDays<T>(time: T -> Option<int>, startDay: int, endDay: int): T -> bool
  {
    x => time(x).Some? && startDay <= Calendar.DayOf(time(x).value) <= endDay
  }

  /** The filter as evidently intended: every row whose calendar day lies
      between the two dates, the end date included in full. */
  function FilterWholeDays<T(!new)>(rows: seq<T>, time: T -> Option<int>, start: Option<int>, end: Option<int>): (r: seq<T>)
    ensures |r| <= |rows|
    ensures start.None? || end.None? ==> r == rows
    ensures start.Some? && end.Some? ==> forall x :: x in r <==>
      x in rows && time(x).Some? && start.value <= Calendar.DayOf(time(x).value) <= end.value
    ensures start.Some? && end.Some? ==> forall x ::
      multiset(r)[x] == if time(x).Some? && start.value <= Calendar.DayOf(time(x).value) <= end.value then multiset(rows)[x] else 0
  {
    if start.Some? && end.Some? then
      var r := Where(rows, OnDays(time, start.value, end.value));
      WhereCount(rows, OnDays(time, start.value, end.value));
      assert forall x :: (OnDays(time, start.value, end.value)(x) ==
                          (time(x).Some? && start.value <= Calendar.DayOf(time(x).value) <= end.value));
      r
    else rows
  }

  /** With the default dates the intended filter keeps every dated row. */
  function DefaultFilterWholeDays<T(!new)>(rows: seq<T>, time: T -> Option<int>): (r: seq<T>)
    ensures DefaultWindow(rows, time).None? ==> r == rows
    ensures DefaultWindow(rows, time).Some? ==> forall x :: x in r <==> x in rows && time(x).Some?
    ensures DefaultWindow(rows, time).Some? ==> forall x :: multiset(r)[x] == if time(x).Some? then multiset(rows)[x] else 0
  {
    match DefaultWindow(rows, time)
    case None => FilterWholeDays(rows, time, None, None)
    case Some(w) => FilterWholeDays(rows, time, Some(w.0), Some(w.1))
  }
}
