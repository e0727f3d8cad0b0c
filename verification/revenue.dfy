/** The revenue page. Every metric runs over the first line of each order
    (`drop_duplicates('Order_ID', keep='first')`) and weighs an order by its
    `Order_Total_Price`, in cents: the total-revenue card, the weekday/weekend
    split, the days-of-week and hours-of-day charts, the day, month, quarter
    and year rollups (not zero-filled, unlike the order counts) and the
    revenue per referring site. */
module Revenue {
  import opened Options
  import opened Tables
  import opened Groups
  import opened Buckets
  import opened Histograms
  import Ranking
  import Calendar
  import Orders
  import Customers

  /** Sum of the order prices of `first`. */
  function PriceSum(first: seq<OrderLine>): int
    decreases |first|
  {
    if |first| == 0 then 0 else PriceSum(first[..|first| - 1]) + first[|first| - 1].totalPrice
  }

  /** Each order as a (timestamp, price) row. */
  function PriceRows(first: seq<OrderLine>): (rows: seq<Row>)
    ensures |rows| == |first|
    ensures forall i :: 0 <= i < |first| ==> rows[i] == (first[i].createdAt, first[i].totalPrice)
  {
    seq(|first|, i requires 0 <= i < |first| => (first[i].createdAt, first[i].totalPrice))
  }

  /** The price rows of the distinct orders. */
  function RevenueRows(lines: seq<OrderLine>): (rows: seq<Row>)
    ensures |rows| == |Orders.FirstLines(lines)|
  {
    PriceRows(Orders.FirstLines(lines))
  }

  lemma {:induction false} PriceSumIsWeight(first: seq<OrderLine>)
    ensures PriceSum(first) == AllWeight(PriceRows(first))
    decreases |first|
  {
    if |first| > 0 {
      var n := |first| - 1;
      assert PriceRows(first)[..n] == PriceRows(first[..n]);
      PriceSumIsWeight(first[..n]);
    }
  }

  /** Card "Total revenue": the prices of the distinct orders, each counted
      once however many lines it has. */
  function TotalRevenue(lines: seq<OrderLine>): (n: int)
    ensures n == AllWeight(RevenueRows(lines))
    ensures (forall l :: l in lines ==> l.totalPrice >= 0) ==> n >= 0
  {
    var first := Orders.FirstLines(lines);
    PriceSumIsWeight(first);
    NonNegativeSum(first);
    PriceSum(first)
  }

  lemma {:induction false} NonNegativeSum(first: seq<OrderLine>)
    ensures (forall l :: l in first ==> l.totalPrice >= 0) ==> PriceSum(first) >= 0
    decreases |first|
  {
    if |first| > 0 {
      var n := |first| - 1;
      assert forall l :: l in first[..n] ==> l in first;
      assert first[n] in first;
      NonNegativeSum(first[..n]);
    }
  }

  /** A further line of an order already seen leaves the card unchanged:
      an order's price counts once however many lines it has. */
  lemma RepeatedOrderCountedOnce(lines: seq<OrderLine>, m: OrderLine)
    requires exists l :: l in lines && l.orderId == m.orderId
    ensures TotalRevenue(lines + [m]) == TotalRevenue(lines)
  {
    var l :| l in lines && l.orderId == m.orderId;
    var i :| 0 <= i < |lines| && lines[i] == l;
    assert Orders.OrderKey(m) == Orders.OrderKey(lines[i]);
    FirstRowsSeen(lines, m, Orders.OrderKey);
  }

  /** When every order's first line names its customer, the customers'
      spends add up to the revenue card. */
  lemma SpendAddsUpToRevenue(lines: seq<OrderLine>)
    requires forall l :: l in Orders.FirstLines(lines) ==> l.customerName.Some?
    ensures TotalWeight(Customers.SpendByName(lines)) == TotalRevenue(lines)
  {
    NamedPriceSum(Orders.FirstLines(lines));
  }

  lemma {:induction false} NamedPriceSum(first: seq<OrderLine>)
    requires forall l :: l in first ==> l.customerName.Some?
    ensures KeyedWeight(first, Customers.LineName, Customers.LinePrice) == PriceSum(first)
    decreases |first|
  {
    if |first| > 0 {
      var n := |first| - 1;
      assert forall l :: l in first[..n] ==> l in first;
      assert first[n] in first;
      NamedPriceSum(first[..n]);
    }
  }

  /** Revenue pie "Weekday vs Weekend": each order's price on the weekend
      side when it was placed on a Saturday or Sunday, on the weekday side
      otherwise (including when it has no timestamp). */
  function WeekdayWeekendRevenue(lines: seq<OrderLine>): (r: Split)
    ensures r.weekday + r.weekend == TotalRevenue(lines)
    ensures r.weekend == SlotWeight(RevenueRows(lines), WeekdaySlot, 5) + SlotWeight(RevenueRows(lines), WeekdaySlot, 6)
    ensures (forall i :: 0 <= i < |RevenueRows(lines)| ==> RevenueRows(lines)[i].1 >= 0) ==> r.weekday >= 0 && r.weekend >= 0
  {
    WeekSplit(RevenueRows(lines))
  }

  /** The percentages written under the pie: `None` where the float division
      by a zero total yields NaN. */
  function RevenueShares(lines: seq<OrderLine>): (r: Option<(real, real)>)
    ensures r.None? <==> TotalRevenue(lines) == 0
    ensures r.Some? ==> r.value.0 + r.value.1 == 100.0
    ensures r.Some? && WeekdayWeekendRevenue(lines).weekday >= 0 && WeekdayWeekendRevenue(lines).weekend >= 0 ==>
      0.0 <= r.value.0 <= 100.0 && 0.0 <= r.value.1 <= 100.0
  {
    Shares(WeekdayWeekendRevenue(lines))
  }

  /** Revenue pie "Days of the Week" as written: it stops when any order
      lacks a timestamp. */
  function RevenueByDayOfWeekAsWritten(lines: seq<OrderLine>): (r: Option<Series>)
    ensures r.None? <==> exists i :: 0 <= i < |RevenueRows(lines)| && RevenueRows(lines)[i].0.None?
    ensures r.Some? ==> r.value == RevenueByDayOfWeek(lines)
  {
    DaysOfWeekAsWritten(RevenueRows(lines))
  }

  /** The same pie as intended: seven Monday-first totals over the orders
      with a timestamp. */
  function RevenueByDayOfWeek(lines: seq<OrderLine>): (r: Series)
    ensures |r| == 7
    ensures forall i :: 0 <= i < 7 ==> r[i] == (i, SlotWeight(RevenueRows(lines), WeekdaySlot, i))
    ensures Total(r) == PresentWeight(RevenueRows(lines))
  {
    DaysOfWeek(RevenueRows(lines))
  }

  /** Chart "Revenue by Hour of the Day": 24 totals keyed 1..24. */
  function RevenueByHour(lines: seq<OrderLine>): (r: Series)
    ensures |r| == 24
    ensures forall i :: 0 <= i < 24 ==> r[i] == (i + 1, SlotWeight(RevenueRows(lines), HourSlot, i + 1))
    ensures Total(r) == PresentWeight(RevenueRows(lines))
  {
    HoursOfDay(RevenueRows(lines))
  }

  /** The weight of the rows without a timestamp. */
  function UndatedWeight(rows: seq<Row>): int
    decreases |rows|
  {
    if |rows| == 0 then 0
    else
      var n := |rows| - 1;
      UndatedWeight(rows[..n]) + (if rows[n].0.None? then rows[n].1 else 0)
  }

  /** Every row is either dated or not. */
  lemma {:induction false} DatedPlusUndated(rows: seq<Row>)
    ensures PresentWeight(rows) + UndatedWeight(rows) == AllWeight(rows)
    decreases |rows|
  {
    if |rows| > 0 {
      DatedPlusUndated(rows[..|rows| - 1]);
    }
  }

  /** The revenue of undated orders missing from the days-of-week and hours
      charts is exactly what separates their totals from the card. */
  lemma ChartsMissOnlyUndated(lines: seq<OrderLine>)
    ensures Total(RevenueByDayOfWeek(lines)) + UndatedWeight(RevenueRows(lines)) == TotalRevenue(lines)
    ensures Total(RevenueByHour(lines)) + UndatedWeight(RevenueRows(lines)) == TotalRevenue(lines)
  {
    DatedPlusUndated(RevenueRows(lines));
  }

  /** The four rollups. The month and quarter labels of an undated order are
      the string "NaT", which groupby keeps as a group of its own sorting
      after every label (`undated`); the day and year keys of an undated
      order are missing, which groupby drops. */
  datatype RevenueViews = RevenueViews(perDay: Series, perMonth: Series, perQuarter: Series, perYear: Series, undated: Option<int>)

  /** The day table of the timestamped rows: each day's entry holds the
      weight of that day's rows. */
  lemma DayValues(rows: seq<Row>)
    ensures forall k :: ValueAt(GroupSum(Observations(rows, Calendar.DayOf), Identity), k) == SlotWeight(rows, Calendar.DayOf, k)
  {
    var obs := Observations(rows, Calendar.DayOf);
    forall k ensures ValueAt(GroupSum(obs, Identity), k) == SlotWeight(rows, Calendar.DayOf, k) {
      GroupByIdentity(obs, Eq(k));
      assert ValueAt(obs, k) == SlotWeight(rows, Calendar.DayOf, k);
    }
  }

  /** Every day in the day table has a dated row: nothing is zero-filled. */
  lemma DaysObserved(rows: seq<Row>)
    ensures forall i :: 0 <= i < |GroupSum(Observations(rows, Calendar.DayOf), Identity)| ==>
              exists j :: 0 <= j < |rows| && rows[j].0.Some? &&
                GroupSum(Observations(rows, Calendar.DayOf), Identity)[i].0 == Calendar.DayOf(rows[j].0.value)
  {
    var obs := Observations(rows, Calendar.DayOf);
    var days := GroupSum(obs, Identity);
    forall i | 0 <= i < |days|
      ensures exists j :: 0 <= j < |rows| && rows[j].0.Some? && days[i].0 == Calendar.DayOf(rows[j].0.value)
    {
      assert HasKey(days, days[i].0);
      var m :| 0 <= m < |obs| && Identity(obs[m].0) == days[i].0;
    }
  }

  /** Grouping the dated rows by any bucket keeps their total weight. */
  lemma BucketTotal(rows: seq<Row>, bucket: int -> int)
    ensures Total(GroupSum(Observations(rows, Calendar.DayOf), bucket)) == PresentWeight(rows)
  {
    GroupSumConserves(Observations(rows, Calendar.DayOf), bucket, 0);
  }

  /** Revenue per day, month, quarter and year of timestamped, priced
      rows: one entry per bucket that has a dated row and no zero-filled
      gaps, keys ascending. */
  function RollupRows(rows: seq<Row>): (r: RevenueViews)
    ensures Ascending(r.perDay) && Ascending(r.perMonth) && Ascending(r.perQuarter) && Ascending(r.perYear)
    ensures forall k :: ValueAt(r.perDay, k) == SlotWeight(rows, Calendar.DayOf, k)
    ensures forall i :: 0 <= i < |r.perDay| ==>
              exists j :: 0 <= j < |rows| && rows[j].0.Some? && r.perDay[i].0 == Calendar.DayOf(rows[j].0.value)
    ensures Total(r.perDay) == PresentWeight(rows)
    ensures Total(r.perMonth) == Total(r.perDay) && Total(r.perQuarter) == Total(r.perDay) && Total(r.perYear) == Total(r.perDay)
    ensures r.undated.Some? <==> exists i :: 0 <= i < |rows| && rows[i].0.None?
    ensures r.undated.Some? ==> r.undated.value == UndatedWeight(rows)
  {
    var obs := Observations(rows, Calendar.DayOf);
    DayValues(rows);
    DaysObserved(rows);
    BucketTotal(rows, Identity);
    BucketTotal(rows, Calendar.MonthIndex);
    BucketTotal(rows, Calendar.QuarterIndex);
    BucketTotal(rows, Calendar.YearOf);
    RevenueViews(GroupSum(obs, Identity),
                 GroupSum(obs, Calendar.MonthIndex),
                 GroupSum(obs, Calendar.QuarterIndex),
                 GroupSum(obs, Calendar.YearOf),
                 if Present(rows) == |rows| then None else Some(UndatedWeight(rows)))
  }

  /** The rollups of the revenue page, over the distinct orders. */
  function Rollups(lines: seq<OrderLine>): (r: RevenueViews)
    ensures Total(r.perMonth) + r.undated.GetOr(0) == TotalRevenue(lines)
    ensures Total(r.perQuarter) + r.undated.GetOr(0) == TotalRevenue(lines)
  {
    var rows := RevenueRows(lines);
    RollupsAccountForAll(rows);
    RollupRows(rows)
  }

  /** The month and quarter charts together with their "NaT" entry account
      for every row's weight. */
  lemma RollupsAccountForAll(rows: seq<Row>)
    ensures Total(RollupRows(rows).perMonth) + RollupRows(rows).undated.GetOr(0) == AllWeight(rows)
    ensures Total(RollupRows(rows).perQuarter) + RollupRows(rows).undated.GetOr(0) == AllWeight(rows)
  {
    DatedPlusUndated(rows);
    if RollupRows(rows).undated.None? {
      NoUndatedWeight(rows);
    }
  }

  lemma {:induction false} NoUndatedWeight(rows: seq<Row>)
    requires forall i :: 0 <= i < |rows| ==> rows[i].0.Some?
    ensures UndatedWeight(rows) == 0
    decreases |rows|
  {
    if |rows| > 0 {
      var n := |rows| - 1;
      assert forall i :: 0 <= i < n ==> rows[..n][i] == rows[i];
      NoUndatedWeight(rows[..n]);
    }
  }

  /** Grouping days by month after grouping by day gives, month by month,
      the same sums as grouping by month directly. */
  lemma RegroupByMonth(obs: Series, k: int)
    ensures ValueAt(GroupSum(GroupSum(obs, Identity), Calendar.MonthIndex), k) == ValueAt(GroupSum(obs, Calendar.MonthIndex), k)
  {
    var days := GroupSum(obs, Identity);
    var p := Pre(Eq(k), Calendar.MonthIndex);
    assert ValueAt(GroupSum(days, Calendar.MonthIndex), k) == SumIf(days, p);
    assert ValueAt(GroupSum(obs, Calendar.MonthIndex), k) == SumIf(obs, p);
    GroupByIdentity(obs, p);
  }

  /** The month table is the day table grouped by month: the rollups agree
      with one another. */
  lemma MonthsFromDays(rows: seq<Row>, k: int)
    ensures ValueAt(GroupSum(RollupRows(rows).perDay, Calendar.MonthIndex), k) == ValueAt(RollupRows(rows).perMonth, k)
  {
    RegroupByMonth(Observations(rows, Calendar.DayOf), k);
  }

  function SiteOf(l: OrderLine): Option<string> { l.referringSite }

  function PriceOf(l: OrderLine): int { l.totalPrice }

  /** `groupby('Order_Referring_Site')['Order_Total_Price'].sum()` over the
      distinct orders: one row per named site with the revenue of its
      orders; orders without a site are dropped. */
  function RevenueBySite(lines: seq<OrderLine>): (r: seq<(string, int)>)
    ensures forall i, j :: 0 <= i < j < |r| ==> r[i].0 != r[j].0
    ensures forall g :: g in Keys(r) <==> exists l :: l in Orders.FirstLines(lines) && l.referringSite == Some(g)
    ensures forall i :: 0 <= i < |r| ==> r[i].1 == SumWhere(Orders.FirstLines(lines), SiteOf, PriceOf, r[i].0)
    ensures TotalWeight(r) == KeyedWeight(Orders.FirstLines(lines), SiteOf, PriceOf)
  {
    SumBy(Orders.FirstLines(lines), SiteOf, PriceOf)
  }

  function Earned(x: (string, int)): int { x.1 }

  /** Chart "Top N Referring Sites by Total Revenue": `nlargest(n)`. */
  function TopRevenueSites(lines: seq<OrderLine>, n: nat): (r: seq<(string, int)>)
    ensures |r| == Ranking.Min(n, |RevenueBySite(lines)|)
    ensures Ranking.NonIncreasing(r, Earned)
    ensures multiset(r) <= multiset(RevenueBySite(lines))
    ensures forall y, z :: y in multiset(RevenueBySite(lines)) - multiset(r) && z in r ==> y.1 <= z.1
  {
    Ranking.Largest(RevenueBySite(lines), n, Earned)
  }
}
