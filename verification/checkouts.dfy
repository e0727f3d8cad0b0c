/** The abandoned-checkout page. Its cards and charts other than the two
    below are the order page's, applied to the abandoned-checkout lines
    (module `Orders`); here are the card "Most orders abandoned by a
    customer" and the referring-site chart, which counts orders per site
    over all lines with missing sites filed under "Unknown". */
module Checkouts {
  import opened Options
  import opened Tables
  import opened Groups
  import Ranking
  import Orders

  /** Card "Most orders abandoned by a customer": the largest number of
      distinct abandoned orders of one customer id, `None` when no line
      carries a customer id (where `int(NaN)` fails). */
  function MostAbandoned(lines: seq<OrderLine>): (r: Option<int>)
    ensures r.None? <==> forall l :: l in lines ==> l.customerId.None?
    ensures r.Some? ==> exists l :: l in lines && l.customerId.Some? && r.value == |Orders.OrdersOf(lines, l.customerId.value)|
    ensures r.Some? ==> forall l :: l in lines && l.customerId.Some? ==> |Orders.OrdersOf(lines, l.customerId.value)| <= r.value
  {
    Orders.MaxOrdersPerCustomer(lines)
  }

  const Unknown: string := "Unknown"

  /** `fillna('Unknown')` on the referring-site column. */
  function SiteLabel(l: OrderLine): (s: string)
    ensures l.referringSite.Some? ==> s == l.referringSite.value
    ensures l.referringSite.None? ==> s == Unknown
  {
    l.referringSite.GetOr(Unknown)
  }

  /** The distinct abandoned orders with a line from `site`. */
  function OrdersFrom(lines: seq<OrderLine>, site: string): set<int>
  {
    set l | l in lines && SiteLabel(l) == site :: l.orderId
  }

  function SiteKey(l: OrderLine): Option<string> { Some(SiteLabel(l)) }

  /** `groupby('Order_Referring_Site')['Order_ID'].nunique()` after the
      fill: one row per site label seen on some line, with the number of
      distinct orders having a line from it. */
  function AbandonedBySite(lines: seq<OrderLine>): (r: seq<(string, int)>)
    ensures forall i, j :: 0 <= i < j < |r| ==> r[i].0 != r[j].0
    ensures forall k :: k in Keys(r) <==> exists l :: l in lines && SiteLabel(l) == k
    ensures forall i :: 0 <= i < |r| ==> r[i].1 == |OrdersFrom(lines, r[i].0)|
  {
    var r := NuniqueBy(lines, SiteKey, Orders.OrderKey);
    assert forall k :: MembersWhere(lines, SiteKey, Orders.OrderKey, k) == OrdersFrom(lines, k);
    r
  }

  function Abandoned(x: (string, int)): int { x.1 }

  /** Chart "Top N Referring Sites by Abandoned Orders": `sort_values`
      descending, then the first `n` rows. */
  function TopAbandonedSites(lines: seq<OrderLine>, n: nat): (r: seq<(string, int)>)
    ensures |r| == Ranking.Min(n, |AbandonedBySite(lines)|)
    ensures Ranking.NonIncreasing(r, Abandoned)
    ensures multiset(r) <= multiset(AbandonedBySite(lines))
    ensures forall y, z :: y in multiset(AbandonedBySite(lines)) - multiset(r) && z in r ==> y.1 <= z.1
  {
    Ranking.Largest(AbandonedBySite(lines), n, Abandoned)
  }

  /** No site has more abandoned orders than the card "Total abandoned
      orders" shows. */
  lemma SiteWithinTotal(lines: seq<OrderLine>, site: string)
    ensures |OrdersFrom(lines, site)| <= Orders.TotalOrders(lines)
  {
    var all := set l | l in lines :: l.orderId;
    assert OrdersFrom(lines, site) <= all;
    assert all == OrdersFrom(lines, site) + (all - OrdersFrom(lines, site));
  }

  /** Every abandoned order is counted under the site (or "Unknown") of each
      of its lines, so an order whose line lacks a site shows up under
      "Unknown". */
  lemma MissingSiteIsUnknown(lines: seq<OrderLine>, i: int)
    requires 0 <= i < |lines| && lines[i].referringSite.None?
    ensures lines[i].orderId in OrdersFrom(lines, Unknown)
  {
    assert lines[i] in lines;
  }
}
