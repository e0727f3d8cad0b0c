/** The order metrics: cards, weekday/weekend split, days-of-week and
    hours-of-day charts, the zero-filled day/month/quarter/year series,
    highest and least valued orders and orders by referring site. The same
    functions serve the abandoned-checkout page, whose file has the same
    one-row-per-line-item shape. */
module Orders {
  import opened Options
  import opened Tables
  import opened Groups
  import opened Buckets
  import opened Histograms
  import opened TimeBuckets
  import Ranking
  import Calendar

  function OrderIds(lines: seq<OrderLine>): (r: seq<int>)
    ensures |r| == |lines| && forall i :: 0 <= i < |lines| ==> r[i] == lines[i].orderId
  {
    seq(|lines|, i requires 0 <= i < |lines| => lines[i].orderId)
  }

  /** Card "Total orders placed": the number of distinct order ids. */
  function TotalOrders(lines: seq<OrderLine>): (n: nat)
    ensures n == |set l | l in lines :: l.orderId|
    ensures n <= |lines|
  {
    var ids := OrderIds(lines);
    assert (set x | x in ids) == (set l | l in lines :: l.orderId) by {
      forall x | x in ids ensures x in (set l | l in lines :: l.orderId) {
        var i :| 0 <= i < |ids| && ids[i] == x;
        assert lines[i] in lines;
      }
    }
    CountDistinct(ids)
  }

  function CreatedAt(lines: seq<OrderLine>): (r: seq<(int, Option<int>)>)
    ensures |r| == |lines|
    ensures forall i :: 0 <= i < |lines| ==> r[i] == (lines[i].orderId, lines[i].createdAt)
  {
    seq(|lines|, i requires 0 <= i < |lines| => (lines[i].orderId, lines[i].createdAt))
  }

  /** `groupby('Order_ID').agg({'Order_Created_At': 'first'})`: one row per
      order with its first present timestamp. */
  function OrderTimes(lines: seq<OrderLine>): (r: seq<(int, Option<int>)>)
    ensures |r| == TotalOrders(lines)
    ensures forall i, j :: 0 <= i < j < |r| ==> r[i].0 != r[j].0
    ensures forall k :: k in Keys(r) <==> k in OrderIds(lines)
    ensures forall i :: 0 <= i < |r| ==> r[i].1 == FirstPresent(CreatedAt(lines), r[i].0)
  {
    var c := CreatedAt(lines);
    assert Keys(c) == OrderIds(lines);
    var r := FirstPresentByKey(c);
    OneRowPerKey(r, c);
    r
  }

  /** The order timestamps as unit-weight rows, one per order. */
  function OrderRows(lines: seq<OrderLine>): (rows: seq<Row>)
    ensures |rows| == TotalOrders(lines)
    ensures forall i :: 0 <= i < |rows| ==> rows[i] == (OrderTimes(lines)[i].1, 1)
  {
    Ones(Values(OrderTimes(lines)))
  }

  /** Weekday/weekend pie: each order counted once, on the weekend side when
      its timestamp falls on a Saturday or Sunday and on the weekday side
      otherwise, including when it has no timestamp. */
  function WeekdayWeekend(lines: seq<OrderLine>): (r: Split)
    ensures r.weekday >= 0 && r.weekend >= 0
    ensures r.weekday + r.weekend == TotalOrders(lines)
    ensures r.weekend == SlotWeight(OrderRows(lines), WeekdaySlot, 5) + SlotWeight(OrderRows(lines), WeekdaySlot, 6)
  {
    CountsCoverRows(Values(OrderTimes(lines)));
    WeekSplit(OrderRows(lines))
  }

  /** The percentages under the pie: `None` where the count division fails
      on an empty table. */
  function WeekdayWeekendShares(lines: seq<OrderLine>): (r: Option<(real, real)>)
    ensures r.None? <==> TotalOrders(lines) == 0
    ensures r.Some? ==> r.value.0 + r.value.1 == 100.0
    ensures r.Some? ==> 0.0 <= r.value.0 <= 100.0 && 0.0 <= r.value.1 <= 100.0
  {
    Shares(WeekdayWeekend(lines))
  }

  /** Days-of-the-week pie as written: fails when any order's timestamp is
      missing. */
  function DaysOfWeekChart(lines: seq<OrderLine>): (r: Option<Series>)
    ensures r.None? <==> exists i :: 0 <= i < |OrderRows(lines)| && OrderRows(lines)[i].0.None?
    ensures r.Some? ==> r.value == DaysOfWeekFixed(lines)
  {
    DaysOfWeekAsWritten(OrderRows(lines))
  }

  /** Days-of-the-week pie as intended: seven Monday-first bars over the
      orders that have a timestamp. */
  function DaysOfWeekFixed(lines: seq<OrderLine>): (r: Series)
    ensures |r| == 7
    ensures forall i :: 0 <= i < 7 ==> r[i] == (i, SlotWeight(OrderRows(lines), WeekdaySlot, i))
    ensures Total(r) == Present(OrderRows(lines))
  {
    CountsWeigh(OrderRows(lines));
    DaysOfWeek(OrderRows(lines))
  }

  /** Hours-of-the-day chart: 24 bars keyed 1..24 over the orders that have
      a timestamp. */
  function HoursChart(lines: seq<OrderLine>): (r: Series)
    ensures |r| == 24
    ensures forall i :: 0 <= i < 24 ==> r[i] == (i + 1, SlotWeight(OrderRows(lines), HourSlot, i + 1))
    ensures Total(r) == Present(OrderRows(lines))
  {
    CountsWeigh(OrderRows(lines));
    HoursOfDay(OrderRows(lines))
  }

  /** Orders per calendar day, keyed by day number. */
  function DayCounts(lines: seq<OrderLine>): (obs: Series)
    ensures |obs| == Present(OrderRows(lines))
    ensures Total(obs) == Present(OrderRows(lines))
    ensures forall i :: 0 <= i < |obs| ==>
              exists j :: 0 <= j < |OrderRows(lines)| &&
                OrderRows(lines)[j].0.Some? && obs[i].0 == Calendar.DayOf(OrderRows(lines)[j].0.value)
  {
    CountsWeigh(OrderRows(lines));
    Observations(OrderRows(lines), Calendar.DayOf)
  }

  /** Orders per day (zero-filled from the first order day through `today`),
      per month, per quarter and per year. `None` when no order has a
      timestamp: `pd.date_range` cannot start at a missing minimum. */
  function OrderViews(lines: seq<OrderLine>, today: int): (r: Option<Views>)
    ensures r.None? <==> Present(OrderRows(lines)) == 0
    ensures r.Some? ==> |r.value.perDay| == SpanLength(MinKey(DayCounts(lines)), today)
    ensures r.Some? ==> Total(r.value.perMonth) == Total(r.value.perDay) &&
                        Total(r.value.perQuarter) == Total(r.value.perDay) &&
                        Total(r.value.perYear) == Total(r.value.perDay)
    ensures r.Some? && (forall i :: 0 <= i < |DayCounts(lines)| ==> DayCounts(lines)[i].0 <= today) ==>
              Total(r.value.perDay) == Present(OrderRows(lines))
  {
    var obs := DayCounts(lines);
    if |obs| == 0 then CountViews(obs, today)
    else
      DailyTotal(obs, today);
      CountViews(obs, today)
  }

  /** Card "Total Order canceled count" as written: the line items that carry
      a cancellation time, so an order is counted once per line item. */
  function CancelledLines(lines: seq<OrderLine>): (n: nat)
    ensures n <= |lines|
    ensures n == 0 <==> forall i :: 0 <= i < |lines| ==> lines[i].cancelledAt.None?
    decreases |lines|
  {
    if |lines| == 0 then 0
    else
      var k := |lines| - 1;
      assert forall i :: 0 <= i < k ==> lines[..k][i] == lines[i];
      CancelledLines(lines[..k]) + (if lines[k].cancelledAt.Some? then 1 else 0)
  }

  /** The intended card: distinct orders with a cancellation time. */
  function CancelledOrders(lines: seq<OrderLine>): (n: nat)
    ensures n == |set l | l in lines && l.cancelledAt.Some? :: l.orderId|
  {
    var ids := seq(|lines|, i requires 0 <= i < |lines| => (lines[i].orderId, lines[i].cancelledAt));
    var cancelled := OrderIdsWhere(ids);
    assert (set x | x in cancelled) == (set l | l in lines && l.cancelledAt.Some? :: l.orderId) by {
      forall l | l in lines && l.cancelledAt.Some? ensures l.orderId in cancelled {
        var i :| 0 <= i < |lines| && lines[i] == l;
        assert ids[i] == (l.orderId, l.cancelledAt);
      }
      forall x | x in cancelled ensures x in (set l | l in lines && l.cancelledAt.Some? :: l.orderId) {
        var i :| 0 <= i < |ids| && ids[i].0 == x && ids[i].1.Some?;
        assert lines[i] in lines;
      }
    }
    CountDistinct(cancelled)
  }

  /** The keys whose value is present. */
  function OrderIdsWhere(s: seq<(int, Option<int>)>): (r: seq<int>)
    ensures forall x :: x in r <==> exists i :: 0 <= i < |s| && s[i].0 == x && s[i].1.Some?
    decreases |s|
  {
    if |s| == 0 then []
    else
      var k := |s| - 1;
      var front := OrderIdsWhere(s[..k]);
      assert forall i :: 0 <= i < k ==> s[..k][i] == s[i];
      if s[k].1.Some? then front + [s[k].0] else front
  }

  /** Counting line items overcounts: no more cancelled orders than cancelled
      lines. */
  lemma {:induction false} CancelledOrdersAtMostLines(lines: seq<OrderLine>)
    ensures CancelledOrders(lines) <= CancelledLines(lines)
    decreases |lines|
  {
    if |lines| > 0 {
      var k := |lines| - 1;
      CancelledOrdersAtMostLines(lines[..k]);
      var before := set l | l in lines[..k] && l.cancelledAt.Some? :: l.orderId;
      var after := set l | l in lines && l.cancelledAt.Some? :: l.orderId;
      assert forall l :: l in lines <==> l in lines[..k] || l == lines[k];
      if lines[k].cancelledAt.Some? {
        assert after == before + {lines[k].orderId};
      } else {
        assert after == before;
      }
    }
  }

  /** One cancelled order with two line items: the card shows 2. */
  lemma CancelledCountedPerLine()
    ensures var l := OrderLine(7, Some(1), None, 100, None, Some(0), None, 1, Some("a"), Some(1));
            CancelledLines([l, l]) == 2 && CancelledOrders([l, l]) == 1
  {
    var l := OrderLine(7, Some(1), None, 100, None, Some(0), None, 1, Some("a"), Some(1));
    assert [l, l][..1] == [l] && [l][..0] == [];
    assert (set x | x in [l, l] && x.cancelledAt.Some? :: x.orderId) == {7};
  }

  /** `groupby('Customer_ID')['Order_ID'].nunique()`: per present customer
      id, the number of distinct orders; lines without a customer id fall
      out of the group-by. */
  function OrdersPerCustomer(lines: seq<OrderLine>): (r: seq<(int, int)>)
    ensures forall i, j :: 0 <= i < j < |r| ==> r[i].0 != r[j].0
    ensures forall c :: c in Keys(r) <==> exists l :: l in lines && l.customerId == Some(c)
    ensures forall i :: 0 <= i < |r| ==> r[i].1 == |OrdersOf(lines, r[i].0)|
  {
    var r := NuniqueBy(lines, CustomerOf, OrderKey);
    assert forall c :: MembersWhere(lines, CustomerOf, OrderKey, c) == OrdersOf(lines, c);
    r
  }

  function CustomerOf(l: OrderLine): Option<int> { l.customerId }

  /** Whether some line carries a customer id. */
  predicate AnyCustomer(lines: seq<OrderLine>)
  {
    exists l :: l in lines && l.customerId.Some?
  }

  /** Card "Most orders placed by a customer": the largest number of
      distinct orders any one customer id has; `None` (NaN) when no line
      carries a customer id. */
  function MaxOrdersPerCustomer(lines: seq<OrderLine>): (r: Option<int>)
    ensures r.None? <==> !AnyCustomer(lines)
    ensures r.Some? ==> exists l :: l in lines && l.customerId.Some? && r.value == |OrdersOf(lines, l.customerId.value)|
    ensures r.Some? ==> forall l :: l in lines && l.customerId.Some? ==> |OrdersOf(lines, l.customerId.value)| <= r.value
  {
    MaxOverCustomers(lines);
    MaxValue(OrdersPerCustomer(lines))
  }

  lemma MaxOverCustomers(lines: seq<OrderLine>)
    ensures MaxValue(OrdersPerCustomer(lines)).None? <==> !AnyCustomer(lines)
    ensures MaxValue(OrdersPerCustomer(lines)).Some? ==>
      exists l :: l in lines && l.customerId.Some? && MaxValue(OrdersPerCustomer(lines)).value == |OrdersOf(lines, l.customerId.value)|
    ensures MaxValue(OrdersPerCustomer(lines)).Some? ==>
      forall l :: l in lines && l.customerId.Some? ==> |OrdersOf(lines, l.customerId.value)| <= MaxValue(OrdersPerCustomer(lines)).value
  {
    var per := OrdersPerCustomer(lines);
    if AnyCustomer(lines) {
      var l :| l in lines && l.customerId.Some?;
      assert l.customerId.value in Keys(per);
      MaxIsSomeCustomer(lines, per);
      var m := MaxValue(per).value;
      forall l | l in lines && l.customerId.Some? ensures |OrdersOf(lines, l.customerId.value)| <= m {
        CustomerHasRow(lines, per, l.customerId.value);
      }
    }
  }

  lemma MaxIsSomeCustomer(lines: seq<OrderLine>, per: seq<(int, int)>)
    requires per == OrdersPerCustomer(lines) && |per| > 0
    ensures exists l :: l in lines && l.customerId.Some? && MaxValue(per).value == |OrdersOf(lines, l.customerId.value)|
  {
    var j :| 0 <= j < |per| && per[j].1 == MaxValue(per).value;
    var l := CustomerOfRow(lines, per, j);
  }

  /** Every row of the table is some line's customer with that customer's
      order count. */
  lemma CustomerOfRow(lines: seq<OrderLine>, per: seq<(int, int)>, j: int) returns (l: OrderLine)
    requires per == OrdersPerCustomer(lines) && 0 <= j < |per|
    ensures l in lines && l.customerId == Some(per[j].0) && per[j].1 == |OrdersOf(lines, per[j].0)|
  {
    assert per[j].0 in Keys(per);
    l :| l in lines && l.customerId == Some(per[j].0);
  }

  lemma CustomerHasRow(lines: seq<OrderLine>, per: seq<(int, int)>, c: int)
    requires per == OrdersPerCustomer(lines) && exists l :: l in lines && l.customerId == Some(c)
    ensures exists j :: 0 <= j < |per| && per[j] == (c, |OrdersOf(lines, c)|)
  {
    assert c in Keys(per);
    var j := RowOfKey(per, c);
    assert per[j].1 == |OrdersOf(lines, c)|;
  }

  /** The distinct orders of one customer id. */
  function OrdersOf(lines: seq<OrderLine>, customer: int): set<int>
  {
    set l | l in lines && l.customerId == Some(customer) :: l.orderId
  }

  /** (customer name, price) for every line, the name possibly missing. */
  function NamePrices(lines: seq<OrderLine>): (s: seq<(Option<string>, Option<int>)>)
    ensures |s| == |lines| && forall i :: 0 <= i < |lines| ==> s[i] == (lines[i].customerName, Some(lines[i].totalPrice))
  {
    seq(|lines|, i requires 0 <= i < |lines| => (lines[i].customerName, Some(lines[i].totalPrice)))
  }

  /** Dropping the lines without a name keeps one (name, price) row per named
      line, each from a line carrying that name. */
  lemma NamedRows(lines: seq<OrderLine>)
    ensures forall i :: 0 <= i < |DropMissing(NamePrices(lines))| ==> DropMissing(NamePrices(lines))[i].1.Some?
    ensures forall k :: k in Keys(DropMissing(NamePrices(lines))) <==> exists i :: 0 <= i < |lines| && lines[i].customerName == Some(k)
    ensures forall k, p :: (k, Some(p)) in DropMissing(NamePrices(lines)) ==>
      exists i :: 0 <= i < |lines| && lines[i].customerName == Some(k) && lines[i].totalPrice == p
  {
    var s := NamePrices(lines);
    var r := DropMissing(s);
    forall i | 0 <= i < |r| ensures r[i].1.Some? {
      assert r[i] in r;
    }
    forall k ensures k in Keys(r) <==> exists i :: 0 <= i < |lines| && lines[i].customerName == Some(k) {
      if k in Keys(r) {
        var j :| 0 <= j < |r| && Keys(r)[j] == k;
        assert r[j] in r;
      }
      if exists i :: 0 <= i < |lines| && lines[i].customerName == Some(k) {
        var i :| 0 <= i < |lines| && lines[i].customerName == Some(k);
        assert s[i] in s;
        var j :| 0 <= j < |r| && r[j] == (k, Some(lines[i].totalPrice));
        assert Keys(r)[j] == k;
      }
    }
    forall k, p | (k, Some(p)) in r
      ensures exists i :: 0 <= i < |lines| && lines[i].customerName == Some(k) && lines[i].totalPrice == p
    {
      var i :| 0 <= i < |s| && s[i] == (Some(k), Some(p));
    }
  }

  /** (customer name, price) for every line that names its customer. */
  function NamedPrices(lines: seq<OrderLine>): (r: seq<(string, Option<int>)>)
    ensures forall i :: 0 <= i < |r| ==> r[i].1.Some?
    ensures forall k :: k in Keys(r) <==> exists i :: 0 <= i < |lines| && lines[i].customerName == Some(k)
    ensures forall k, p :: (k, Some(p)) in r ==> exists i :: 0 <= i < |lines| && lines[i].customerName == Some(k) && lines[i].totalPrice == p
  {
    NamedRows(lines);
    DropMissing(NamePrices(lines))
  }

  function Price(x: (string, int)): int { x.1 }

  /** `groupby('Customer_Name').agg({'Order_Total_Price': 'first'})`: one row
      per named customer with the price of the first line naming them. */
  function FirstPriceByName(lines: seq<OrderLine>): (r: seq<(string, int)>)
    ensures forall i, j :: 0 <= i < j < |r| ==> r[i].0 != r[j].0
    ensures forall k :: k in Keys(r) <==> exists i :: 0 <= i < |lines| && lines[i].customerName == Some(k)
    ensures forall i :: 0 <= i < |r| ==> FirstPresent(NamedPrices(lines), r[i].0) == Some(r[i].1)
    ensures forall j :: 0 <= j < |r| ==> PriceOfFirstNaming(lines, r[j].0, r[j].1)
  {
    FirstPricesPresent(lines);
    var r := Unwrap(FirstPresentByKey(NamedPrices(lines)));
    FirstPricesOnFirstLines(lines, r);
    r
  }

  /** Rows holding each name's first named price hold the price of the first
      line naming it. */
  lemma FirstPricesOnFirstLines(lines: seq<OrderLine>, r: seq<(string, int)>)
    requires forall i :: 0 <= i < |r| ==> FirstPresent(NamedPrices(lines), r[i].0) == Some(r[i].1)
    ensures forall j :: 0 <= j < |r| ==> PriceOfFirstNaming(lines, r[j].0, r[j].1)
  {
    forall j | 0 <= j < |r| ensures PriceOfFirstNaming(lines, r[j].0, r[j].1) {
      var i := FirstNamedLine(lines, r[j].0, r[j].1);
    }
  }

  /** `p` is the price on the first line that names customer `k`. */
  predicate PriceOfFirstNaming(lines: seq<OrderLine>, k: string, p: int)
  {
    exists i :: 0 <= i < |lines| && FirstNaming(lines, k, i) && lines[i].totalPrice == p
  }

  /** Line `i` is the first line that names customer `k`. */
  predicate FirstNaming(lines: seq<OrderLine>, k: string, i: int)
    requires 0 <= i < |lines|
  {
    lines[i].customerName == Some(k) && forall h :: 0 <= h < i ==> lines[h].customerName != Some(k)
  }

  /** A name's first named price is the price on the first line naming it. */
  lemma FirstNamedLine(lines: seq<OrderLine>, k: string, p: int) returns (i: nat)
    requires FirstPresent(NamedPrices(lines), k) == Some(p)
    ensures i < |lines| && FirstNaming(lines, k, i) && lines[i].totalPrice == p
  {
    var s := NamePrices(lines);
    FirstPresentDropMissing(s, k);
    i :| i < |s| && s[i] == (Some(k), Some(p)) && forall j :: 0 <= j < i && s[j].0 == Some(k) ==> s[j].1.None?;
    forall h | 0 <= h < i ensures lines[h].customerName != Some(k) {
      assert s[h].1.Some?;
    }
  }

  /** Every name's first price is present: the named prices all are. */
  lemma FirstPricesPresent(lines: seq<OrderLine>)
    ensures forall i :: 0 <= i < |FirstPresentByKey(NamedPrices(lines))| ==> FirstPresentByKey(NamedPrices(lines))[i].1.Some?
  {
    var named := NamedPrices(lines);
    var g := FirstPresentByKey(named);
    forall i | 0 <= i < |g| ensures g[i].1.Some? {
      FirstPresentFound(named, g[i].0);
    }
  }

  /** Chart "Highest valued orders": `nlargest(50)` then `nlargest(n)` of the
      first price per customer name, largest first. */
  function HighestValued(lines: seq<OrderLine>, n: nat): (r: seq<(string, int)>)
    requires 1 <= n <= 50
    ensures |r| == Ranking.Min(n, |FirstPriceByName(lines)|)
    ensures Ranking.NonIncreasing(r, Price)
    ensures multiset(r) <= multiset(FirstPriceByName(lines))
    ensures forall y, z :: y in multiset(FirstPriceByName(lines)) - multiset(r) && z in r ==> y.1 <= z.1
  {
    Ranking.LargestTwice(FirstPriceByName(lines), 50, n, Price)
  }

  /** Chart "Least valued orders": `nsmallest(50)` then `nsmallest(n)`,
      smallest first. */
  function LeastValued(lines: seq<OrderLine>, n: nat): (r: seq<(string, int)>)
    requires 1 <= n <= 50
    ensures |r| == Ranking.Min(n, |FirstPriceByName(lines)|)
    ensures Ranking.NonDecreasing(r, Price)
    ensures multiset(r) <= multiset(FirstPriceByName(lines))
    ensures forall y, z :: y in multiset(FirstPriceByName(lines)) - multiset(r) && z in r ==> z.1 <= y.1
  {
    Ranking.SmallestTwice(FirstPriceByName(lines), 50, n, Price)
  }

  function OrderKey(l: OrderLine): int { l.orderId }

  /** `drop_duplicates('Order_ID', keep='first')`: the first line of every
      order. */
  function FirstLines(lines: seq<OrderLine>): (r: seq<OrderLine>)
    ensures forall i, j :: 0 <= i < j < |r| ==> r[i].orderId != r[j].orderId
    ensures forall l :: l in r ==> l in lines
    ensures forall i :: 0 <= i < |lines| ==> exists j :: 0 <= j < |r| && r[j].orderId == lines[i].orderId
    ensures forall i :: 0 <= i < |lines| && (forall j :: 0 <= j < i ==> lines[j].orderId != lines[i].orderId) ==> lines[i] in r
  {
    var r := FirstRows(lines, OrderKey);
    forall i | 0 <= i < |lines| ensures exists j :: 0 <= j < |r| && r[j].orderId == lines[i].orderId {
      assert lines[i].orderId in KeySet(lines, OrderKey);
    }
    forall i | 0 <= i < |lines| && (forall j :: 0 <= j < i ==> lines[j].orderId != lines[i].orderId) ensures lines[i] in r {
      assert OrderKey(lines[i]) !in KeySet(lines[..i], OrderKey);
    }
    r
  }

  /** One (site, 1) per order whose first line names a referring site. */
  function SiteOrders(first: seq<OrderLine>): (r: seq<(string, int)>)
    ensures |r| <= |first|
    ensures forall i :: 0 <= i < |r| ==> r[i].1 == 1
    ensures forall k :: k in Keys(r) <==> exists i :: 0 <= i < |first| && first[i].referringSite == Some(k)
    decreases |first|
  {
    if |first| == 0 then []
    else
      var n := |first| - 1;
      var front := SiteOrders(first[..n]);
      assert forall i :: 0 <= i < n ==> first[..n][i] == first[i];
      if first[n].referringSite.Some? then
        var r := front + [(first[n].referringSite.value, 1)];
        assert Keys(r) == Keys(front) + [first[n].referringSite.value];
        r
      else front
  }

  function Count(x: (string, int)): int { x.1 }

  /** `groupby('Order_Referring_Site')['Order_ID'].count()` over the first
      lines: orders per named referring site (orders without a site are not
      counted). */
  function OrdersPerSite(lines: seq<OrderLine>): (r: seq<(string, int)>)
    ensures forall i, j :: 0 <= i < j < |r| ==> r[i].0 != r[j].0
    ensures forall k :: k in Keys(r) <==> exists i :: 0 <= i < |FirstLines(lines)| && FirstLines(lines)[i].referringSite == Some(k)
    ensures forall i :: 0 <= i < |r| ==> r[i].1 == WeightOf(SiteOrders(FirstLines(lines)), r[i].0)
    ensures WeightsOf(Keys(r), SiteOrders(FirstLines(lines))) == |SiteOrders(FirstLines(lines))|
  {
    var s := SiteOrders(FirstLines(lines));
    TallyTotal(s);
    UnitTotal(s);
    var r := Tally(s);
    assert Keys(r) == Distinct(Keys(s));
    r
  }

  lemma {:induction false} UnitTotal(s: seq<(string, int)>)
    requires forall i :: 0 <= i < |s| ==> s[i].1 == 1
    ensures TotalWeight(s) == |s|
    decreases |s|
  {
    if |s| > 0 {
      var n := |s| - 1;
      assert forall i :: 0 <= i < n ==> s[..n][i] == s[i];
      UnitTotal(s[..n]);
    }
  }

  /** Chart "Total Orders by Referring Sites": the `n` sites with the most
      orders, most first. */
  function TopSites(lines: seq<OrderLine>, n: nat): (r: seq<(string, int)>)
    ensures |r| == Ranking.Min(n, |OrdersPerSite(lines)|)
    ensures Ranking.NonIncreasing(r, Count)
    ensures multiset(r) <= multiset(OrdersPerSite(lines))
    ensures forall y, z :: y in multiset(OrdersPerSite(lines)) - multiset(r) && z in r ==> y.1 <= z.1
  {
    Ranking.Largest(OrdersPerSite(lines), n, Count)
  }

  /** Days 4 and 5 after the epoch are a Monday and a Tuesday, days 9 and
      10 a Saturday and a Sunday. */
  lemma SampleWeekdays()
    ensures WeekdaySlot(86400 * 4) == 0 && WeekdaySlot(86400 * 5) == 1
    ensures WeekdaySlot(86400 * 9) == 5 && WeekdaySlot(86400 * 10) == 6
  {
  }

  /** Four orders on a Monday, Tuesday, Saturday and Sunday (days 4, 5, 9
      and 10 after the epoch, which was a Thursday): two on each side of the
      split, 50% each. */
  lemma FourOrdersExample()
    ensures WeekSplit(Ones([Some(86400 * 4), Some(86400 * 5), Some(86400 * 9), Some(86400 * 10)])) == Split(2, 2)
    ensures Shares(Split(2, 2)) == Some((50.0, 50.0))
  {
    var ts := [Some(86400 * 4), Some(86400 * 5), Some(86400 * 9), Some(86400 * 10)];
    SampleWeekdays();
    var a, b, c, d := (ts[0], 1), (ts[1], 1), (ts[2], 1), (ts[3], 1);
    assert Ones(ts) == [a, b, c] + [d];
    WeekSplitSnoc([], a);
    assert [a] == [] + [a] && [a, b] == [a] + [b] && [a, b, c] == [a, b] + [c];
    WeekSplitSnoc([a], b);
    WeekSplitSnoc([a, b], c);
    WeekSplitSnoc([a, b, c], d);
    var sh := Shares(Split(2, 2));
    assert sh.value.0 * 4.0 == 200.0;
  }
}
