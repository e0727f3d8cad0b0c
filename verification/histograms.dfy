/** Fixed-arity distributions of timestamped rows: hour of day (slots 1..24),
    day of week (slots 0..6, Monday first) and weekday/weekend. Each row is a
    timestamp that may be missing and a weight: 1 when counting orders,
    checkouts or sessions, the order price in cents when summing revenue. */
module Histograms {
  import opened Options
  import opened Buckets
  import Calendar

  type Row = (Option<int>, int)

  /** Hour of day shifted into 1..24, as the dashboard does with `dt.hour + 1`. */
  function HourSlot(t: int): (h: int)
    ensures 1 <= h <= 24
  {
    Calendar.HourOf(t) + 1
  }

  /** pandas `dt.dayofweek`: Monday is 0, Sunday is 6. */
  function WeekdaySlot(t: int): (w: int)
    ensures 0 <= w < 7
  {
    Calendar.Weekday(Calendar.DayOf(t))
  }

  /** Rows with a timestamp. */
  function Present(rows: seq<Row>): (n: nat)
    ensures n <= |rows|
    ensures n == |rows| <==> forall i :: 0 <= i < |rows| ==> rows[i].0.Some?
    decreases |rows|
  {
    if |rows| == 0 then 0
    else
      var n := |rows| - 1;
      assert forall i :: 0 <= i < n ==> rows[..n][i] == rows[i];
      Present(rows[..n]) + (if rows[n].0.Some? then 1 else 0)
  }

  /** Summed weight of all rows with a timestamp. */
  function PresentWeight(rows: seq<Row>): int
    decreases |rows|
  {
    if |rows| == 0 then 0
    else
      var n := |rows| - 1;
      PresentWeight(rows[..n]) + (if rows[n].0.Some? then rows[n].1 else 0)
  }

  /** Summed weight of all rows. */
  function AllWeight(rows: seq<Row>): int
    decreases |rows|
  {
    if |rows| == 0 then 0 else AllWeight(rows[..|rows| - 1]) + rows[|rows| - 1].1
  }

  /** Summed weight of the timestamped rows whose slot is `k`: the reference
      definition of one bar of a distribution. */
  function SlotWeight(rows: seq<Row>, slot: int -> int, k: int): int
    decreases |rows|
  {
    if |rows| == 0 then 0
    else
      var n := |rows| - 1;
      SlotWeight(rows[..n], slot, k) +
        (if rows[n].0.Some? && slot(rows[n].0.value) == k then rows[n].1 else 0)
  }

  /** pandas `dropna` followed by keying each row by its slot. */
  function Observations(rows: seq<Row>, slot: int -> int): (r: Series)
    ensures |r| == Present(rows)
    ensures forall i :: 0 <= i < |r| ==> exists j :: 0 <= j < |rows| && rows[j].0.Some? && r[i].0 == slot(rows[j].0.value)
    ensures Total(r) == PresentWeight(rows)
    ensures forall k {:trigger ValueAt(r, k)} :: ValueAt(r, k) == SlotWeight(rows, slot, k)
    decreases |rows|
  {
    if |rows| == 0 then []
    else
      var n := |rows| - 1;
      var o := Observations(rows[..n], slot);
      assert forall j :: 0 <= j < n ==> rows[..n][j] == rows[j];
      if rows[n].0.Some? then
        var x := (slot(rows[n].0.value), rows[n].1);
        SumIfSnocAll(o, x);
        var r := o + [x];
        assert forall i :: 0 <= i < |o| ==> r[i] == o[i];
        forall k ensures ValueAt(r, k) == SlotWeight(rows, slot, k) {
          assert SumIf(r, Eq(k)) == SumIf(o, Eq(k)) + (if Eq(k)(x.0) then x.1 else 0);
          assert Eq(k)(x.0) == (x.0 == k);
          assert ValueAt(o, k) == SlotWeight(rows[..n], slot, k);
        }
        r
      else o
  }

  /** The zero-filled distribution over the `n` slots `lo .. lo + n - 1`,
      for a slot function whose values all lie in that range. */
  function Slots(rows: seq<Row>, slot: int -> int, lo: int, n: nat): (r: Series)
    requires forall j :: 0 <= j < |rows| && rows[j].0.Some? ==> lo <= slot(rows[j].0.value) < lo + n
    ensures |r| == n
    ensures forall i :: 0 <= i < n ==> r[i] == (lo + i, SlotWeight(rows, slot, lo + i))
    ensures Total(r) == PresentWeight(rows)
  {
    var obs := Observations(rows, slot);
    forall i | 0 <= i < |obs| ensures lo <= obs[i].0 < lo + n {
      var j :| 0 <= j < |rows| && rows[j].0.Some? && obs[i].0 == slot(rows[j].0.value);
    }
    ReindexedTotal(obs, lo, n);
    Reindexed(obs, lo, n)
  }

  /** Hours-of-the-day chart: 24 zero-filled slots keyed 1..24 whose values
      add up to the weight of the timestamped rows. */
  function HoursOfDay(rows: seq<Row>): (r: Series)
    ensures |r| == 24
    ensures forall i :: 0 <= i < 24 ==> r[i] == (i + 1, SlotWeight(rows, HourSlot, i + 1))
    ensures Total(r) == PresentWeight(rows)
  {
    Slots(rows, HourSlot, 1, 24)
  }

  /** Days-of-the-week chart: 7 zero-filled slots, Monday first, rows without
      a timestamp left out. */
  function DaysOfWeek(rows: seq<Row>): (r: Series)
    ensures |r| == 7
    ensures forall i :: 0 <= i < 7 ==> r[i] == (i, SlotWeight(rows, WeekdaySlot, i))
    ensures Total(r) == PresentWeight(rows)
  {
    Slots(rows, WeekdaySlot, 0, 7)
  }

  /** The days-of-the-week chart as written: mapping the float day numbers
      pandas produces once a timestamp is missing through a Python list
      index fails, so the page stops (`None`) whenever any row lacks a
      timestamp. */
  function DaysOfWeekAsWritten(rows: seq<Row>): (r: Option<Series>)
    ensures r.None? <==> exists i :: 0 <= i < |rows| && rows[i].0.None?
    ensures r.Some? ==> r.value == DaysOfWeek(rows)
  {
    if Present(rows) == |rows| then Some(DaysOfWeek(rows)) else None
  }

  /** One order placed at the epoch (a Thursday) and one whose timestamp did
      not parse: the written chart fails where the corrected one shows a
      single Thursday order. */
  lemma DaysOfWeekMissingTimestamp()
    ensures DaysOfWeekAsWritten([(Some(0), 1), (None, 1)]).None?
    ensures DaysOfWeek([(Some(0), 1), (None, 1)])[3] == (3, 1)
    ensures Total(DaysOfWeek([(Some(0), 1), (None, 1)])) == 1
  {
    var rows: seq<Row> := [(Some(0), 1), (None, 1)];
    assert rows[1].0.None?;
    assert rows[..1] == [(Some(0), 1)] && rows[..1][..0] == [];
    Calendar.WeekdayProgression(0);
    assert WeekdaySlot(0) == 3;
  }

  /** Weekend is day-of-week 5 or 6; a missing timestamp makes the `>= 5`
      test fail and so counts as a weekday. */
  predicate IsWeekend(t: Option<int>)
  {
    t.Some? && WeekdaySlot(t.value) >= 5
  }

  datatype Split = Split(weekday: int, weekend: int)

  /** Weekday/weekend totals: every row lands in exactly one of the two. */
  function WeekSplit(rows: seq<Row>): (r: Split)
    ensures r.weekday + r.weekend == AllWeight(rows)
    ensures r.weekend == SlotWeight(rows, WeekdaySlot, 5) + SlotWeight(rows, WeekdaySlot, 6)
    ensures (forall i :: 0 <= i < |rows| ==> rows[i].1 >= 0) ==> r.weekday >= 0 && r.weekend >= 0
    decreases |rows|
  {
    if |rows| == 0 then Split(0, 0)
    else
      var n := |rows| - 1;
      var p := WeekSplit(rows[..n]);
      assert forall i :: 0 <= i < n ==> rows[..n][i] == rows[i];
      if IsWeekend(rows[n].0) then Split(p.weekday, p.weekend + rows[n].1)
      else Split(p.weekday + rows[n].1, p.weekend)
  }

  /** Appending a row adds its weight to the side its timestamp falls on. */
  lemma WeekSplitSnoc(rows: seq<Row>, x: Row)
    ensures WeekSplit(rows + [x]) ==
      if IsWeekend(x.0) then Split(WeekSplit(rows).weekday, WeekSplit(rows).weekend + x.1)
      else Split(WeekSplit(rows).weekday + x.1, WeekSplit(rows).weekend)
  {
    assert (rows + [x])[..|rows|] == rows;
  }

  /** A row without a timestamp adds its weight to the weekday side. */
  lemma MissingIsWeekday(rows: seq<Row>, w: int)
    ensures WeekSplit(rows + [(None, w)]) == Split(WeekSplit(rows).weekday + w, WeekSplit(rows).weekend)
  {
    assert (rows + [(None, w)])[..|rows|] == rows;
  }

  /** The weekend side is the Saturday and Sunday bars of the days-of-week
      chart. */
  lemma WeekendFromDaysOfWeek(rows: seq<Row>)
    ensures WeekSplit(rows).weekend == DaysOfWeek(rows)[5].1 + DaysOfWeek(rows)[6].1
  {
  }

  /** Percentages `100 * part / total` of the two sides. With a zero total
      the count charts divide Python ints by zero and stop, and the revenue
      chart divides floats and shows NaN: both are `None`. */
  function Shares(s: Split): (r: Option<(real, real)>)
    ensures r.None? <==> s.weekday + s.weekend == 0
    ensures r.Some? ==> r.value.0 + r.value.1 == 100.0
    ensures r.Some? && s.weekday >= 0 && s.weekend >= 0 ==>
      0.0 <= r.value.0 <= 100.0 && 0.0 <= r.value.1 <= 100.0
    ensures r.Some? ==> r.value.0 * (s.weekday + s.weekend) as real == 100.0 * s.weekday as real
  {
    var total := s.weekday + s.weekend;
    if total == 0 then None
    else
      var t := total as real;
      var a := s.weekday as real / t * 100.0;
      var b := s.weekend as real / t * 100.0;
      assert a + b == (s.weekday as real + s.weekend as real) / t * 100.0;
      Some((a, b))
  }

  /** Counting rows: every row weighs 1. */
  function Ones(ts: seq<Option<int>>): (rows: seq<Row>)
    ensures |rows| == |ts|
    ensures forall i :: 0 <= i < |ts| ==> rows[i] == (ts[i], 1)
  {
    seq(|ts|, i requires 0 <= i < |ts| => (ts[i], 1))
  }

  /** With unit weights the weekday and weekend counts add up to the number
      of rows, and the hour chart adds up to the number of timestamped rows. */
  lemma CountsCoverRows(ts: seq<Option<int>>)
    ensures WeekSplit(Ones(ts)).weekday + WeekSplit(Ones(ts)).weekend == |ts|
    ensures Total(HoursOfDay(Ones(ts))) == Present(Ones(ts))
  {
    CountsWeigh(Ones(ts));
  }

  lemma {:induction false} CountsWeigh(rows: seq<Row>)
    requires forall i :: 0 <= i < |rows| ==> rows[i].1 == 1
    ensures AllWeight(rows) == |rows| && PresentWeight(rows) == Present(rows)
    decreases |rows|
  {
    if |rows| > 0 {
      var n := |rows| - 1;
      assert forall i :: 0 <= i < n ==> rows[..n][i] == rows[i];
      CountsWeigh(rows[..n]);
    }
  }
}
