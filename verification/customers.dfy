/** The customer page: the three cards, the top and least spenders, the
    repeat-customer summary table and the unique customers per province and
    per country. */
module Customers {
  import opened Options
  import opened Tables
  import opened Groups
  import Ranking
  import Orders

  /** Card "Total Listed Customers": distinct customer ids of the customer
      table. */
  function ListedCustomers(cs: seq<Customer>): (n: nat)
    ensures n == |set c | c in cs :: c.id|
    ensures n <= |cs|
  {
    var ids := seq(|cs|, i requires 0 <= i < |cs| => cs[i].id);
    assert (set x | x in ids) == (set c | c in cs :: c.id) by {
      forall x | x in ids ensures x in (set c | c in cs :: c.id) {
        var i :| 0 <= i < |ids| && ids[i] == x;
        assert cs[i] in cs;
      }
      forall c | c in cs ensures c.id in ids {
        var i :| 0 <= i < |cs| && cs[i] == c;
        assert ids[i] == c.id;
      }
    }
    CountDistinct(ids)
  }

  /** Card "Total Paying Customers": distinct customer ids of the order
      table; `nunique` does not count a missing id. */
  function PayingCustomers(lines: seq<OrderLine>): (n: nat)
    ensures n == |set l | l in lines && l.customerId.Some? :: l.customerId.value|
    ensures n <= |lines|
  {
    var present := Where(lines, HasCustomer);
    var ids := seq(|present|, i requires 0 <= i < |present| => present[i].customerId.GetOr(0));
    assert (set x | x in ids) == (set l | l in lines && l.customerId.Some? :: l.customerId.value) by {
      forall x | x in ids ensures x in (set l | l in lines && l.customerId.Some? :: l.customerId.value) {
        var i :| 0 <= i < |ids| && ids[i] == x;
        assert present[i] in present;
        assert present[i].customerId.Some?;
      }
      forall l | l in lines && l.customerId.Some? ensures l.customerId.value in ids {
        assert l in present;
        var i :| 0 <= i < |present| && present[i] == l;
        assert ids[i] == l.customerId.value;
      }
    }
    CountDistinct(ids)
  }

  function HasCustomer(l: OrderLine): bool { l.customerId.Some? }

  function NamePairs(lines: seq<OrderLine>): (r: seq<(int, Option<string>)>)
    ensures |r| == |lines| && forall i :: 0 <= i < |lines| ==> r[i] == (lines[i].orderId, lines[i].customerName)
  {
    seq(|lines|, i requires 0 <= i < |lines| => (lines[i].orderId, lines[i].customerName))
  }

  function PricePairs(lines: seq<OrderLine>): (r: seq<(int, Option<int>)>)
    ensures |r| == |lines| && forall i :: 0 <= i < |lines| ==> r[i] == (lines[i].orderId, Some(lines[i].totalPrice))
  {
    seq(|lines|, i requires 0 <= i < |lines| => (lines[i].orderId, Some(lines[i].totalPrice)))
  }

  /** An order id with its customer name and price. */
  type SummaryRow = (int, (Option<string>, int))

  /** `groupby('Order_ID').agg(Total_Spending=first price, Customer_Name=first
      name)`: one row per order, keyed by its id, carrying the first present
      customer name and the first price. */
  function OrderSummary(lines: seq<OrderLine>): (r: seq<SummaryRow>)
    ensures forall i, j :: 0 <= i < j < |r| ==> r[i].0 != r[j].0
    ensures forall o :: o in Keys(r) <==> o in Orders.OrderIds(lines)
    ensures forall i :: 0 <= i < |r| ==> r[i].1.0 == FirstPresent(NamePairs(lines), r[i].0)
    ensures forall i :: 0 <= i < |r| ==> FirstPresent(PricePairs(lines), r[i].0) == Some(r[i].1.1)
  {
    var names := FirstPresentByKey(NamePairs(lines));
    assert Keys(NamePairs(lines)) == Orders.OrderIds(lines);
    assert Keys(PricePairs(lines)) == Orders.OrderIds(lines);
    forall i | 0 <= i < |names| ensures FirstPresent(PricePairs(lines), names[i].0).Some? {
      FirstPresentFound(PricePairs(lines), names[i].0);
    }
    var r := seq(|names|, i requires 0 <= i < |names| =>
      (names[i].0, (names[i].1, FirstPresent(PricePairs(lines), names[i].0).value)));
    assert Keys(r) == Keys(names);
    r
  }

  /** The orders whose first present customer name is `name`. */
  function NamedOrders(lines: seq<OrderLine>, name: string): set<int>
  {
    set o | o in Orders.OrderIds(lines) && FirstPresent(NamePairs(lines), o) == Some(name)
  }

  /** The customer names that appear in the order table. */
  function NamesOf(lines: seq<OrderLine>): set<string>
  {
    set l | l in lines && l.customerName.Some? :: l.customerName.value
  }

  /** The order summary as (name, entry) rows. */
  function ByName<E>(sum: seq<SummaryRow>, entry: SummaryRow -> E): (r: seq<(Option<string>, E)>)
    ensures |r| == |sum| && forall i :: 0 <= i < |sum| ==> r[i] == (sum[i].1.0, entry(sum[i]))
  {
    seq(|sum|, i requires 0 <= i < |sum| => (sum[i].1.0, entry(sum[i])))
  }

  function OrderOf(x: SummaryRow): Option<int> { Some(x.0) }

  function PriceOf(x: SummaryRow): int { x.1.1 }

  /** (name, order id) for every summarised order with a name. */
  function PlacedPairs(lines: seq<OrderLine>): seq<(string, Option<int>)>
  {
    DropMissing(ByName(OrderSummary(lines), OrderOf))
  }

  /** A name is paired with an order exactly when it is the order's first
      present customer name. */
  lemma PlacedIff(lines: seq<OrderLine>, name: string, o: int)
    ensures (name, Some(o)) in PlacedPairs(lines) <==> o in NamedOrders(lines, name)
  {
    var sum := OrderSummary(lines);
    var s := ByName(sum, OrderOf);
    if (name, Some(o)) in PlacedPairs(lines) {
      assert (Some(name), Some(o)) in s;
      var i :| 0 <= i < |s| && s[i] == (Some(name), Some(o));
      assert sum[i].0 in Keys(sum);
    }
    if o in NamedOrders(lines, name) {
      assert o in Keys(sum);
      var i :| 0 <= i < |sum| && Keys(sum)[i] == o;
      assert s[i] == (Some(name), Some(o));
    }
  }

  lemma PlacedKey(lines: seq<OrderLine>, name: string)
    ensures name in Keys(PlacedPairs(lines)) <==> NamedOrders(lines, name) != {}
  {
    var r := PlacedPairs(lines);
    if name in Keys(r) {
      var i :| 0 <= i < |r| && Keys(r)[i] == name;
      var s := ByName(OrderSummary(lines), OrderOf);
      assert (Some(name), r[i].1) in s;
      var j :| 0 <= j < |s| && s[j] == (Some(name), r[i].1);
      var o := r[i].1.value;
      assert r[i] == (name, Some(o));
      PlacedIff(lines, name, o);
    }
    if NamedOrders(lines, name) != {} {
      var o :| o in NamedOrders(lines, name);
      PlacedIff(lines, name, o);
      var i :| 0 <= i < |r| && r[i] == (name, Some(o));
      assert Keys(r)[i] == name;
    }
  }

  function SummaryName(x: SummaryRow): Option<string> { x.1.0 }

  /** (name, first price) for every summarised order with a name. */
  function SpendPairs(lines: seq<OrderLine>): seq<(string, int)>
  {
    DropMissing(WeightPairs(OrderSummary(lines), SummaryName, PriceOf))
  }

  /** One row of the "Customer Order Summary" table. */
  datatype CustomerSummary = CustomerSummary(name: string, ordersPlaced: int, totalSpending: int)

  function Summarise(placed: seq<(string, int)>, spend: seq<(string, int)>): (r: seq<CustomerSummary>)
    ensures |r| == |placed|
    ensures forall i :: 0 <= i < |r| ==> r[i] == CustomerSummary(placed[i].0, placed[i].1, WeightOf(spend, placed[i].0))
    ensures forall name :: (exists i :: 0 <= i < |r| && r[i].name == name) <==> name in Keys(placed)
  {
    var r := seq(|placed|, i requires 0 <= i < |placed| =>
      CustomerSummary(placed[i].0, placed[i].1, WeightOf(spend, placed[i].0)));
    assert forall i :: 0 <= i < |r| ==> r[i].name == Keys(placed)[i];
    r
  }

  /** `groupby('Customer_Name').agg(Orders_Placed=nunique order ids,
      Total_Spending=sum)` over the order summary: one row per customer
      name that some order is filed under. */
  function CustomerSummaries(lines: seq<OrderLine>): (r: seq<CustomerSummary>)
    ensures forall i, j :: 0 <= i < j < |r| ==> r[i].name != r[j].name
    ensures forall name :: (exists i :: 0 <= i < |r| && r[i].name == name) <==> NamedOrders(lines, name) != {}
    ensures forall i :: 0 <= i < |r| ==> r[i].ordersPlaced == |NamedOrders(lines, r[i].name)|
    ensures forall i :: 0 <= i < |r| ==> r[i].totalSpending == SumWhere(OrderSummary(lines), SummaryName, PriceOf, r[i].name)
  {
    var placed := DistinctPerGroup(PlacedPairs(lines));
    PlacedNames(lines);
    PlacedCounts(lines);
    var r := Summarise(placed, SpendPairs(lines));
    forall i | 0 <= i < |r| ensures r[i].totalSpending == SumWhere(OrderSummary(lines), SummaryName, PriceOf, r[i].name) {
      DropMissingGroup(OrderSummary(lines), SummaryName, PriceOf, r[i].name);
    }
    r
  }

  lemma PlacedNames(lines: seq<OrderLine>)
    ensures forall name :: name in Keys(DistinctPerGroup(PlacedPairs(lines))) <==> NamedOrders(lines, name) != {}
  {
    forall name ensures name in Keys(DistinctPerGroup(PlacedPairs(lines))) <==> NamedOrders(lines, name) != {} {
      PlacedKey(lines, name);
    }
  }

  lemma PlacedCounts(lines: seq<OrderLine>)
    ensures forall i :: 0 <= i < |DistinctPerGroup(PlacedPairs(lines))| ==>
      DistinctPerGroup(PlacedPairs(lines))[i].1 == |NamedOrders(lines, DistinctPerGroup(PlacedPairs(lines))[i].0)|
  {
    var placed := DistinctPerGroup(PlacedPairs(lines));
    forall i | 0 <= i < |placed| ensures placed[i].1 == |NamedOrders(lines, placed[i].0)| {
      PlacedMembers(lines, placed[i].0);
    }
  }

  lemma PlacedMembers(lines: seq<OrderLine>, name: string)
    ensures MembersIn(PlacedPairs(lines), name) == NamedOrders(lines, name)
  {
    var p := PlacedPairs(lines);
    forall o | o in NamedOrders(lines, name) ensures o in MembersIn(p, name) {
      PlacedIff(lines, name, o);
      assert (name, Some(o)) in p;
    }
    forall o | o in MembersIn(p, name) ensures o in NamedOrders(lines, name) {
      PlacedIff(lines, name, o);
    }
  }
  /** The "Customer Order Summary" table: the summary rows with at least two
      distinct orders. */
  function RepeatSummary(lines: seq<OrderLine>): (r: seq<CustomerSummary>)
    ensures forall i, j :: 0 <= i < j < |r| ==> r[i].name != r[j].name
    ensures forall x :: x in r <==> x in CustomerSummaries(lines) && x.ordersPlaced >= 2
  {
    KeepRepeat(CustomerSummaries(lines))
  }

  function KeepRepeat(s: seq<CustomerSummary>): (r: seq<CustomerSummary>)
    requires forall i, j :: 0 <= i < j < |s| ==> s[i].name != s[j].name
    ensures forall i, j :: 0 <= i < j < |r| ==> r[i].name != r[j].name
    ensures forall x :: x in r <==> x in s && x.ordersPlaced >= 2
    decreases |s|
  {
    if |s| == 0 then []
    else
      var n := |s| - 1;
      var front := KeepRepeat(s[..n]);
      assert forall x :: x in s <==> x in s[..n] || x == s[n];
      assert forall x :: x in front ==> x.name != s[n].name by {
        forall x | x in front ensures x.name != s[n].name {
          var i :| 0 <= i < n && s[..n][i] == x;
        }
      }
      if s[n].ordersPlaced >= 2 then front + [s[n]] else front
  }

  /** Card "Repeat Customers": the number of customer names under which at
      least two distinct orders are filed. */
  function RepeatCustomers(lines: seq<OrderLine>): (n: nat)
    ensures n == |set name | name in NamesOf(lines) && |NamedOrders(lines, name)| >= 2|
  {
    RepeatCount(lines);
    |RepeatSummary(lines)|
  }

  lemma RepeatCount(lines: seq<OrderLine>)
    ensures |RepeatSummary(lines)| == |set name | name in NamesOf(lines) && |NamedOrders(lines, name)| >= 2|
  {
    var r := RepeatSummary(lines);
    var names := seq(|r|, i requires 0 <= i < |r| => r[i].name);
    RepeatNames(lines, names);
    NamesCount(r, names, set name | name in NamesOf(lines) && |NamedOrders(lines, name)| >= 2);
  }

  /** Rows with pairwise distinct names are as many as their names. */
  lemma NamesCount(r: seq<CustomerSummary>, names: seq<string>, all: set<string>)
    requires forall i, j :: 0 <= i < j < |r| ==> r[i].name != r[j].name
    requires |names| == |r| && forall i :: 0 <= i < |r| ==> names[i] == r[i].name
    requires (set x | x in names) == all
    ensures |r| == |all|
  {
    assert forall i, j :: 0 <= i < j < |names| ==> names[i] != names[j] by {
      forall i, j | 0 <= i < j < |names| ensures names[i] != names[j] {
        assert names[i] == r[i].name && names[j] == r[j].name;
      }
    }
    NoDuplicatesCard(names);
  }

  lemma RepeatNames(lines: seq<OrderLine>, names: seq<string>)
    requires |names| == |RepeatSummary(lines)|
    requires forall i :: 0 <= i < |names| ==> names[i] == RepeatSummary(lines)[i].name
    ensures (set x | x in names) == (set name | name in NamesOf(lines) && |NamedOrders(lines, name)| >= 2)
  {
    forall name ensures name in names <==> name in NamesOf(lines) && |NamedOrders(lines, name)| >= 2 {
      RepeatName(lines, names, name);
    }
  }

  lemma RepeatName(lines: seq<OrderLine>, names: seq<string>, name: string)
    requires |names| == |RepeatSummary(lines)|
    requires forall i :: 0 <= i < |names| ==> names[i] == RepeatSummary(lines)[i].name
    ensures name in names <==> name in NamesOf(lines) && |NamedOrders(lines, name)| >= 2
  {
    if name in names {
      RepeatNameSound(lines, names, name);
    }
    if name in NamesOf(lines) && |NamedOrders(lines, name)| >= 2 {
      RepeatNameComplete(lines, names, name);
    }
  }

  lemma RepeatNameSound(lines: seq<OrderLine>, names: seq<string>, name: string)
    requires |names| == |RepeatSummary(lines)|
    requires forall i :: 0 <= i < |names| ==> names[i] == RepeatSummary(lines)[i].name
    requires name in names
    ensures name in NamesOf(lines) && |NamedOrders(lines, name)| >= 2
  {
    var r := RepeatSummary(lines);
    var i :| 0 <= i < |names| && names[i] == name;
    var x := r[i];
    assert x in r;
    assert x in CustomerSummaries(lines) && x.ordersPlaced >= 2;
    SummaryRowCount(lines, x);
    NamedOrderHasLine(lines, name);
  }

  lemma SummaryRowCount(lines: seq<OrderLine>, x: CustomerSummary)
    requires x in CustomerSummaries(lines)
    ensures x.ordersPlaced == |NamedOrders(lines, x.name)|
  {
    var all := CustomerSummaries(lines);
    var j :| 0 <= j < |all| && all[j] == x;
  }

  lemma RepeatNameComplete(lines: seq<OrderLine>, names: seq<string>, name: string)
    requires |names| == |RepeatSummary(lines)|
    requires forall i :: 0 <= i < |names| ==> names[i] == RepeatSummary(lines)[i].name
    requires |NamedOrders(lines, name)| >= 2
    ensures name in names
  {
    var r := RepeatSummary(lines);
    var all := CustomerSummaries(lines);
    assert NamedOrders(lines, name) != {};
    var j :| 0 <= j < |all| && all[j].name == name;
    assert all[j] in r;
    var i :| 0 <= i < |r| && r[i] == all[j];
    assert names[i] == name;
  }

  lemma NamedOrderHasLine(lines: seq<OrderLine>, name: string)
    requires NamedOrders(lines, name) != {}
    ensures name in NamesOf(lines)
  {
    var o :| o in NamedOrders(lines, name);
    var p := NamePairs(lines);
    var i :| 0 <= i < |p| && p[i] == (o, Some(name));
    assert lines[i] in lines;
  }

  function Spend(x: (string, int)): int { x.1 }

  function LineName(l: OrderLine): Option<string> { l.customerName }

  function LinePrice(l: OrderLine): int { l.totalPrice }

  /** `drop_duplicates('Order_ID')` then `groupby('Customer_Name')
      ['Order_Total_Price'].sum()`: one row per name on some order's first
      line, with the summed price of the first lines naming it; the rows add
      up to the price of all named first lines. */
  function SpendByName(lines: seq<OrderLine>): (r: seq<(string, int)>)
    ensures forall i, j :: 0 <= i < j < |r| ==> r[i].0 != r[j].0
    ensures forall k :: k in Keys(r) <==> exists l :: l in Orders.FirstLines(lines) && l.customerName == Some(k)
    ensures forall i :: 0 <= i < |r| ==> r[i].1 == SumWhere(Orders.FirstLines(lines), LineName, LinePrice, r[i].0)
    ensures TotalWeight(r) == KeyedWeight(Orders.FirstLines(lines), LineName, LinePrice)
  {
    SumBy(Orders.FirstLines(lines), LineName, LinePrice)
  }

  /** A further line of an order already seen changes nobody's spend: an
      order's price counts once however many lines it has. */
  lemma SpendRepeatedOrderOnce(lines: seq<OrderLine>, m: OrderLine)
    requires exists l :: l in lines && l.orderId == m.orderId
    ensures SpendByName(lines + [m]) == SpendByName(lines)
  {
    var l :| l in lines && l.orderId == m.orderId;
    var i :| 0 <= i < |lines| && lines[i] == l;
    assert Orders.OrderKey(m) == Orders.OrderKey(lines[i]);
    FirstRowsSeen(lines, m, Orders.OrderKey);
  }

  /** Chart "Top N Customers by Total Order Price": `nlargest(50)` then
      `nlargest(n)` of the spend per name, largest first. */
  function TopCustomers(lines: seq<OrderLine>, n: nat): (r: seq<(string, int)>)
    requires 1 <= n <= 50
    ensures |r| == Ranking.Min(n, |SpendByName(lines)|)
    ensures Ranking.NonIncreasing(r, Spend)
    ensures multiset(r) <= multiset(SpendByName(lines))
    ensures forall y, z :: y in multiset(SpendByName(lines)) - multiset(r) && z in r ==> y.1 <= z.1
  {
    Ranking.LargestTwice(SpendByName(lines), 50, n, Spend)
  }

  /** Chart "Least N Customers by Total Order Price": `nsmallest(50)` then
      `nsmallest(n)`, smallest first. */
  function LeastCustomers(lines: seq<OrderLine>, n: nat): (r: seq<(string, int)>)
    requires 1 <= n <= 50
    ensures |r| == Ranking.Min(n, |SpendByName(lines)|)
    ensures Ranking.NonDecreasing(r, Spend)
    ensures multiset(r) <= multiset(SpendByName(lines))
    ensures forall y, z :: y in multiset(SpendByName(lines)) - multiset(r) && z in r ==> z.1 <= y.1
  {
    Ranking.SmallestTwice(SpendByName(lines), 50, n, Spend)
  }

  function CustomerId(c: Customer): int { c.id }

  /** The ids of the customers whose region is `g`. */
  function CustomersIn(cs: seq<Customer>, region: Customer -> Option<string>, g: string): set<int>
  {
    MembersWhere(cs, region, CustomerId, g)
  }

  /** `groupby(region)['Customer_ID'].nunique()`: one row per present region
      with the number of distinct customers in it. */
  function UniqueCustomersBy(cs: seq<Customer>, region: Customer -> Option<string>): (r: seq<(string, int)>)
    ensures forall i, j :: 0 <= i < j < |r| ==> r[i].0 != r[j].0
    ensures forall g :: g in Keys(r) <==> exists c :: c in cs && region(c) == Some(g)
    ensures forall i :: 0 <= i < |r| ==> r[i].1 == |CustomersIn(cs, region, r[i].0)|
  {
    NuniqueBy(cs, region, CustomerId)
  }

  function Province(c: Customer): Option<string> { c.province }

  function Country(c: Customer): Option<string> { c.country }

  /** Chart "Unique Customers by Province". */
  function ByProvince(cs: seq<Customer>): (r: seq<(string, int)>)
    ensures forall g :: g in Keys(r) <==> exists c :: c in cs && Province(c) == Some(g)
    ensures forall i :: 0 <= i < |r| ==> r[i].1 == |CustomersIn(cs, Province, r[i].0)|
  {
    UniqueCustomersBy(cs, Province)
  }

  /** Chart "Unique Customers by Country". */
  function ByCountry(cs: seq<Customer>): (r: seq<(string, int)>)
    ensures forall g :: g in Keys(r) <==> exists c :: c in cs && Country(c) == Some(g)
    ensures forall i :: 0 <= i < |r| ==> r[i].1 == |CustomersIn(cs, Country, r[i].0)|
  {
    UniqueCustomersBy(cs, Country)
  }

  /** No region holds more customers than the table lists. */
  lemma RegionWithinListed(cs: seq<Customer>, region: Customer -> Option<string>, g: string)
    ensures |CustomersIn(cs, region, g)| <= ListedCustomers(cs)
  {
    assert CustomersIn(cs, region, g) <= (set c | c in cs :: c.id);
    SubsetCard(CustomersIn(cs, region, g), set c | c in cs :: c.id);
  }
}
