/** The customer-journey page, continued: popularity of products and
    collections, cart adds, when sessions start, time and viewers per page,
    and the two bounce measures. */
module JourneyPages {
  import opened Options
  import opened Tables
  import opened Groups
  import opened Buckets
  import opened Histograms
  import opened Journey
  import Ranking
  import ProductIds

  // ---- Row filters and the time they carry ----

  /** The rows filed under group `g` of `key`. */
  function InGroup<G(==)>(key: Visit -> Option<G>, g: G): Visit -> bool
  {
    v => key(v) == Some(g)
  }

  /** The rows with a present `key`. */
  function HasKey<G>(key: Visit -> Option<G>): Visit -> bool
  {
    v => key(v).Some?
  }

  lemma TimeSumSnoc(vs: seq<Visit>, v: Visit)
    ensures TimeSum(vs + [v]) == TimeSum(vs) + TimeOf(v)
  {
    assert (vs + [v])[..|vs|] == vs;
  }

  /** The time a `groupby(key).sum()` files under `g` is the time of the
      rows of that group. */
  lemma {:induction false} GroupTime<G>(vs: seq<Visit>, key: Visit -> Option<G>, g: G)
    ensures SumWhere(vs, key, TimeOf, g) == TimeSum(Where(vs, InGroup(key, g)))
    decreases |vs|
  {
    if |vs| > 0 {
      var n := |vs| - 1;
      GroupTime(vs[..n], key, g);
      if key(vs[n]) == Some(g) {
        TimeSumSnoc(Where(vs[..n], InGroup(key, g)), vs[n]);
      }
    }
  }

  /** ... and all groups together carry the time of the keyed rows. */
  lemma {:induction false} KeyedTime<G>(vs: seq<Visit>, key: Visit -> Option<G>)
    ensures KeyedWeight(vs, key, TimeOf) == TimeSum(Where(vs, HasKey(key)))
    decreases |vs|
  {
    if |vs| > 0 {
      var n := |vs| - 1;
      KeyedTime(vs[..n], key);
      if key(vs[n]).Some? {
        TimeSumSnoc(Where(vs[..n], HasKey(key)), vs[n]);
      }
    }
  }

  /** `groupby(key)['Time_On_Page'].sum()` over the journey rows: one row
      per present key with the time of that group's rows. */
  function TimeBy<G(==,!new)>(vs: seq<Visit>, key: Visit -> Option<G>): (r: seq<(G, int)>)
    ensures forall i, j :: 0 <= i < j < |r| ==> r[i].0 != r[j].0
    ensures forall g :: g in Keys(r) <==> exists v :: v in vs && key(v) == Some(g)
    ensures forall i :: 0 <= i < |r| ==> r[i].1 == TimeSum(Where(vs, InGroup(key, r[i].0)))
    ensures TotalWeight(r) == TimeSum(Where(vs, HasKey(key)))
  {
    var r := SumBy(vs, key, TimeOf);
    forall i | 0 <= i < |r| ensures r[i].1 == TimeSum(Where(vs, InGroup(key, r[i].0))) {
      GroupTime(vs, key, r[i].0);
    }
    KeyedTime(vs, key);
    r
  }

  function Visitors(x: (string, int)): int { x.1 }

  // ---- Most popular products and collections ----

  function ProductName(v: Visit): Option<string> { v.productName }

  function CollectionName(v: Visit): Option<string> { v.collectionName }

  /** The distinct IPs of the rows satisfying `p`. */
  function IpsWhere(vs: seq<Visit>, p: Visit -> bool): set<string>
  {
    set v | v in vs && p(v) :: v.ip
  }

  /** The IPs of any group are among all IPs. */
  lemma IpsBounded(vs: seq<Visit>, p: Visit -> bool)
    ensures |IpsWhere(vs, p)| <= TotalViewers(vs)
  {
    SubsetCard(IpsWhere(vs, p), set v | v in vs :: v.ip);
  }

  lemma MembersAreIps<G>(vs: seq<Visit>, key: Visit -> Option<G>, g: G)
    ensures MembersWhere(vs, key, Ip, g) == IpsWhere(vs, InGroup(key, g))
  {
  }

  /** `groupby(key)['Customer_IP'].nunique()`: per present key, how many
      distinct IPs viewed it, at least one and never more than all viewers. */
  function UniqueVisitors<G(==,!new)>(vs: seq<Visit>, key: Visit -> Option<G>): (r: seq<(G, int)>)
    ensures forall i, j :: 0 <= i < j < |r| ==> r[i].0 != r[j].0
    ensures forall g :: g in Keys(r) <==> exists v :: v in vs && key(v) == Some(g)
    ensures forall i :: 0 <= i < |r| ==> r[i].1 == |IpsWhere(vs, InGroup(key, r[i].0))|
    ensures forall i :: 0 <= i < |r| ==> 1 <= r[i].1 <= TotalViewers(vs)
  {
    var r := NuniqueBy(vs, key, Ip);
    forall i | 0 <= i < |r| ensures r[i].1 == |IpsWhere(vs, InGroup(key, r[i].0))| {
      MembersAreIps(vs, key, r[i].0);
    }
    forall i | 0 <= i < |r| ensures 1 <= r[i].1 <= TotalViewers(vs) {
      IpsBounded(vs, InGroup(key, r[i].0));
      assert Keys(r)[i] == r[i].0;
      var v :| v in vs && key(v) == Some(r[i].0);
      assert v.ip in IpsWhere(vs, InGroup(key, r[i].0));
    }
    r
  }

  /** Chart "Most Popular Products by Unique Visitors" for the slider value
      `n`: the `n` products with the most distinct visitors. */
  function TopProducts(vs: seq<Visit>, n: nat): (r: seq<(string, int)>)
    requires 1 <= n <= 50
    ensures |r| == Ranking.Min(n, |UniqueVisitors(vs, ProductName)|)
    ensures Ranking.NonIncreasing(r, Visitors)
    ensures multiset(r) <= multiset(UniqueVisitors(vs, ProductName))
    ensures forall y, z :: y in multiset(UniqueVisitors(vs, ProductName)) - multiset(r) && z in r ==> y.1 <= z.1
  {
    Ranking.Largest(UniqueVisitors(vs, ProductName), n, Visitors)
  }

  /** Chart "Most Popular collections by Unique Visitors". */
  function TopCollections(vs: seq<Visit>, n: nat): (r: seq<(string, int)>)
    requires 1 <= n <= 50
    ensures |r| == Ranking.Min(n, |UniqueVisitors(vs, CollectionName)|)
    ensures Ranking.NonIncreasing(r, Visitors)
    ensures multiset(r) <= multiset(UniqueVisitors(vs, CollectionName))
    ensures forall y, z :: y in multiset(UniqueVisitors(vs, CollectionName)) - multiset(r) && z in r ==> y.1 <= z.1
  {
    Ranking.Largest(UniqueVisitors(vs, CollectionName), n, Visitors)
  }

  // ---- Cart adds ----

  predicate IsCartAdd(v: Visit) { v.event == "Cart Add" }

  /** The rows of `Event == 'Cart Add'`. */
  function CartAdds(vs: seq<Visit>): (r: seq<Visit>)
    ensures forall v :: v in r <==> v in vs && v.event == "Cart Add"
  {
    Where(vs, IsCartAdd)
  }

  /** The rows adding product `p` to the cart. */
  function AddsOf(p: string): Visit -> bool
  {
    (v: Visit) => v.event == "Cart Add" && v.productName == Some(p)
  }

  lemma CartAddIps(vs: seq<Visit>, p: string)
    ensures IpsWhere(CartAdds(vs), InGroup(ProductName, p)) == IpsWhere(vs, AddsOf(p))
  {
    forall ip | ip in IpsWhere(vs, AddsOf(p)) ensures ip in IpsWhere(CartAdds(vs), InGroup(ProductName, p)) {
      var v :| v in vs && AddsOf(p)(v) && v.ip == ip;
      assert v.productName == Some(p) && v.event == "Cart Add";
      assert ProductName(v) == Some(p);
      assert v in CartAdds(vs) && InGroup(ProductName, p)(v);
    }
    forall ip | ip in IpsWhere(CartAdds(vs), InGroup(ProductName, p)) ensures ip in IpsWhere(vs, AddsOf(p)) {
      var v :| v in CartAdds(vs) && InGroup(ProductName, p)(v) && v.ip == ip;
      assert ProductName(v) == Some(p) && v.event == "Cart Add";
      assert AddsOf(p)(v);
    }
  }

  /** Per product name, how many distinct IPs added it to the cart. */
  function CartVisitors(vs: seq<Visit>): (r: seq<(string, int)>)
    ensures forall i, j :: 0 <= i < j < |r| ==> r[i].0 != r[j].0
    ensures forall p :: p in Keys(r) <==> exists v :: v in vs && AddsOf(p)(v)
    ensures forall i :: 0 <= i < |r| ==> r[i].1 == |IpsWhere(vs, AddsOf(r[i].0))|
  {
    var r := UniqueVisitors(CartAdds(vs), ProductName);
    forall i | 0 <= i < |r| ensures r[i].1 == |IpsWhere(vs, AddsOf(r[i].0))| {
      CartAddIps(vs, r[i].0);
    }
    r
  }

  /** Chart "Most Added Products to Cart"; its slider starts at 10. */
  function TopCartProducts(vs: seq<Visit>, n: nat): (r: seq<(string, int)>)
    requires 10 <= n <= 50
    ensures |r| == Ranking.Min(n, |CartVisitors(vs)|)
    ensures Ranking.NonIncreasing(r, Visitors)
    ensures multiset(r) <= multiset(CartVisitors(vs))
    ensures forall y, z :: y in multiset(CartVisitors(vs)) - multiset(r) && z in r ==> y.1 <= z.1
  {
    Ranking.Largest(CartVisitors(vs), n, Visitors)
  }

  /** The distinct (product name, IP) pairs of the cart adds. */
  function CartPairs(vs: seq<Visit>): set<(string, string)>
  {
    set v | v in vs && v.event == "Cart Add" && v.productName.Some? :: (v.productName.value, v.ip)
  }

  /** Card "Total added to cart products": the per-product visitor counts
      added up, which counts each (product, visitor) pair once; it is zero
      exactly when no cart add names a product. */
  function TotalCartAdds(vs: seq<Visit>): (n: int)
    ensures n == |CartPairs(vs)|
    ensures n == 0 <==> forall v :: v in vs && v.event == "Cart Add" ==> v.productName.None?
  {
    NuniqueTotal(CartAdds(vs), ProductName, Ip);
    assert PairsOf(CartAdds(vs), ProductName, Ip) == CartPairs(vs);
    CartPairsEmpty(vs);
    TotalWeight(CartVisitors(vs))
  }

  lemma CartPairsEmpty(vs: seq<Visit>)
    ensures |CartPairs(vs)| == 0 <==> forall v :: v in vs && v.event == "Cart Add" ==> v.productName.None?
  {
    if exists v :: v in vs && v.event == "Cart Add" && v.productName.Some? {
      var v :| v in vs && v.event == "Cart Add" && v.productName.Some?;
      assert (v.productName.value, v.ip) in CartPairs(vs);
    }
  }

  // ---- When sessions start ----

  /** Per row, its session and its timestamp. */
  function SessionTimestamps(vs: seq<Visit>): (s: seq<((string, int), Option<int>)>)
    ensures |s| == |vs| && forall i :: 0 <= i < |vs| ==> s[i] == (SessionOf(vs[i]), vs[i].eventTime)
  {
    seq(|vs|, i requires 0 <= i < |vs| => (SessionOf(vs[i]), vs[i].eventTime))
  }

  /** `groupby(['Customer_IP', 'session']).first()` of the timestamp: one
      row per session, carrying the time of the session's first dated row,
      or nothing when none of its rows is dated. */
  function SessionFirstTimes(vs: seq<Visit>): (r: seq<((string, int), Option<int>)>)
    ensures forall i, j :: 0 <= i < j < |r| ==> r[i].0 != r[j].0
    ensures forall k :: k in Keys(r) <==> exists v :: v in vs && SessionOf(v) == k
    ensures forall i :: 0 <= i < |r| ==> (r[i].1.Some? <==> exists v :: v in vs && SessionOf(v) == r[i].0 && Dated(v))
    ensures forall i :: 0 <= i < |r| && r[i].1.Some? ==>
      exists j :: 0 <= j < |vs| && SessionOf(vs[j]) == r[i].0 && vs[j].eventTime == r[i].1 &&
        forall l :: 0 <= l < j && SessionOf(vs[l]) == r[i].0 ==> !Dated(vs[l])
  {
    var s := SessionTimestamps(vs);
    var r := FirstPresentByKey(s);
    forall k ensures k in Keys(s) <==> exists v :: v in vs && SessionOf(v) == k {
      if k in Keys(s) {
        var j :| 0 <= j < |s| && Keys(s)[j] == k;
        assert vs[j] in vs;
      }
      if exists v :: v in vs && SessionOf(v) == k {
        var v :| v in vs && SessionOf(v) == k;
        var j :| 0 <= j < |vs| && vs[j] == v;
        assert Keys(s)[j] == k;
      }
    }
    forall i | 0 <= i < |r| ensures r[i].1.Some? <==> exists v :: v in vs && SessionOf(v) == r[i].0 && Dated(v) {
      if exists v :: v in vs && SessionOf(v) == r[i].0 && Dated(v) {
        var v :| v in vs && SessionOf(v) == r[i].0 && Dated(v);
        var j :| 0 <= j < |vs| && vs[j] == v;
        assert s[j].0 == r[i].0 && s[j].1.Some?;
      }
    }
    r
  }

  /** The time of the first dated row of session `k`, nothing when none of
      its rows is dated (`agg(Event_time=('Event_Time', 'first'))`). */
  function SessionStartTime(vs: seq<Visit>, k: (string, int)): (t: Option<int>)
    ensures t.Some? <==> exists v :: v in vs && SessionOf(v) == k && Dated(v)
    ensures t.Some? ==>
      exists j :: 0 <= j < |vs| && SessionOf(vs[j]) == k && vs[j].eventTime == t &&
        (forall l :: 0 <= l < j && SessionOf(vs[l]) == k ==> !Dated(vs[l]))
  {
    StartTimeFound(vs, k);
    FirstPresent(SessionTimestamps(vs), k)
  }

  /** A session with a dated row has a first dated time. */
  lemma StartTimeFound(vs: seq<Visit>, k: (string, int))
    ensures (exists v :: v in vs && SessionOf(v) == k && Dated(v)) ==> FirstPresent(SessionTimestamps(vs), k).Some?
  {
    var s := SessionTimestamps(vs);
    if exists v :: v in vs && SessionOf(v) == k && Dated(v) {
      var v :| v in vs && SessionOf(v) == k && Dated(v);
      var j :| 0 <= j < |vs| && vs[j] == v;
      assert s[j].0 == k && s[j].1.Some?;
    }
  }

  /** `d` is the calendar day of the first dated row of session `k`, and is
      missing exactly when no row of the session is dated. */
  predicate IsStartDay(vs: seq<Visit>, k: (string, int), d: Option<int>)
  {
    (d.Some? <==> exists v :: v in vs && SessionOf(v) == k && Dated(v)) &&
    (d.Some? ==>
      exists j :: 0 <= j < |vs| && SessionOf(vs[j]) == k && Dated(vs[j]) && d == Some(Day(vs[j])) &&
        (forall l :: 0 <= l < j && SessionOf(vs[l]) == k ==> !Dated(vs[l])))
  }

  /** The day of a session's first dated row (`.dt.date` of the first time). */
  function StartDay(vs: seq<Visit>, k: (string, int)): (d: Option<int>)
    ensures IsStartDay(vs, k, d)
  {
    match SessionStartTime(vs, k)
    case None => None
    case Some(t) => Some(Calendar.DayOf(t))
  }

  /** A row of table "Top 10 Customer IP List": the IP, the session's total
      time as `convert_seconds` writes it, and the day of its first dated
      row (the session number column is dropped). */
  datatype TopSessionRow = TopSessionRow(ip: string, duration: string, firstDay: Option<int>)

  /** Table "Top 10 Customer IP List" as shown: the ten longest sessions,
      longest first, each with the calendar day of its first dated row. */
  function TopSessionTable(vs: seq<Visit>): (r: seq<TopSessionRow>)
    ensures |r| == |TopSessions(vs)|
    ensures forall i :: 0 <= i < |r| ==>
      r[i].ip == TopSessions(vs)[i].0.1 && r[i].duration == DurationText(TopSessions(vs)[i].1)
    ensures forall i :: 0 <= i < |r| ==>
      IsStartDay(vs, (TopSessions(vs)[i].0.1, TopSessions(vs)[i].0.0), r[i].firstDay)
  {
    TopRows(vs, TopSessions(vs))
  }

  /** The shown rows of ranked session totals `top`. */
  function TopRows(vs: seq<Visit>, top: seq<((int, string), int)>): (r: seq<TopSessionRow>)
    ensures |r| == |top|
    ensures forall i :: 0 <= i < |r| ==> r[i].ip == top[i].0.1 && r[i].duration == DurationText(top[i].1)
    ensures forall i :: 0 <= i < |r| ==> IsStartDay(vs, (top[i].0.1, top[i].0.0), r[i].firstDay)
  {
    seq(|top|, i requires 0 <= i < |top| =>
      TopSessionRow(top[i].0.1, DurationText(top[i].1), StartDay(vs, (top[i].0.1, top[i].0.0))))
  }

  /** The sessions with at least one dated row. */
  function DatedSessions(vs: seq<Visit>): set<(string, int)>
  {
    set v | v in vs && Dated(v) :: SessionOf(v)
  }

  /** The keys of `r` whose present time satisfies `p`. */
  function PresentKeys<K>(r: seq<(K, Option<int>)>, p: int -> bool): set<K>
  {
    set x | x in r && x.1.Some? && p(x.1.value) :: x.0
  }

  function IsSlot(slot: int -> int, k: int): int -> bool
  {
    t => slot(t) == k
  }

  function AnyTime(t: int): bool { true }

  lemma PresentKeysSnoc<K>(r: seq<(K, Option<int>)>, x: (K, Option<int>), p: int -> bool)
    ensures PresentKeys(r + [x], p) == PresentKeys(r, p) + (if x.1.Some? && p(x.1.value) then {x.0} else {})
  {
  }

  lemma KeyNotBefore<K>(r: seq<(K, Option<int>)>, p: int -> bool)
    requires |r| > 0
    requires forall i, j :: 0 <= i < j < |r| ==> r[i].0 != r[j].0
    ensures r[|r| - 1].0 !in PresentKeys(r[..|r| - 1], p)
  {
    var n := |r| - 1;
    forall x | x in r[..n] ensures x.0 != r[n].0 {
      var j :| 0 <= j < n && r[..n][j] == x;
    }
  }

  /** With one row per key, the unit-weight rows of a distribution's slot
      `k` count the keys whose time falls in that slot. */
  lemma {:induction false} SlotCount<K>(r: seq<(K, Option<int>)>, slot: int -> int, k: int)
    requires forall i, j :: 0 <= i < j < |r| ==> r[i].0 != r[j].0
    ensures SlotWeight(Ones(Values(r)), slot, k) == |PresentKeys(r, IsSlot(slot, k))|
    decreases |r|
  {
    if |r| > 0 {
      var n := |r| - 1;
      SlotCount(r[..n], slot, k);
      assert Ones(Values(r))[..n] == Ones(Values(r[..n]));
      assert r == r[..n] + [r[n]];
      PresentKeysSnoc(r[..n], r[n], IsSlot(slot, k));
      KeyNotBefore(r, IsSlot(slot, k));
    }
  }

  /** ... and the timestamped rows count the keys with a time. */
  lemma {:induction false} PresentCount<K>(r: seq<(K, Option<int>)>)
    requires forall i, j :: 0 <= i < j < |r| ==> r[i].0 != r[j].0
    ensures Present(Ones(Values(r))) == |PresentKeys(r, AnyTime)|
    decreases |r|
  {
    if |r| > 0 {
      var n := |r| - 1;
      var front := r[..n];
      var rows := Ones(Values(r));
      PresentCount(front);
      assert Present(rows) == Present(Ones(Values(front))) + (if r[n].1.Some? then 1 else 0) by {
        assert rows[..n] == Ones(Values(front));
      }
      assert |PresentKeys(r, AnyTime)| == |PresentKeys(front, AnyTime)| + (if r[n].1.Some? then 1 else 0) by {
        assert r == front + [r[n]];
        PresentKeysSnoc(front, r[n], AnyTime);
        KeyNotBefore(r, AnyTime);
      }
    }
  }

  /** The sessions with a first time are exactly the dated sessions. */
  lemma FirstTimesDated(vs: seq<Visit>)
    ensures PresentKeys(SessionFirstTimes(vs), AnyTime) == DatedSessions(vs)
  {
    var r := SessionFirstTimes(vs);
    forall k | k in DatedSessions(vs) ensures k in PresentKeys(r, AnyTime) {
      var v :| v in vs && Dated(v) && SessionOf(v) == k;
      assert k in Keys(r);
      var i :| 0 <= i < |r| && Keys(r)[i] == k;
      assert r[i].1.Some?;
      assert r[i] in r;
    }
    forall k | k in PresentKeys(r, AnyTime) ensures k in DatedSessions(vs) {
      var x :| x in r && x.1.Some? && x.0 == k;
      var i :| 0 <= i < |r| && r[i] == x;
      var v :| v in vs && SessionOf(v) == r[i].0 && Dated(v);
    }
  }

  /** The first time of every session, one unit-weight row per session. */
  function SessionStartTimes(vs: seq<Visit>): (rows: seq<Row>)
    ensures Present(rows) == |DatedSessions(vs)|
    ensures PresentWeight(rows) == |DatedSessions(vs)|
  {
    var r := SessionFirstTimes(vs);
    PresentCount(r);
    FirstTimesDated(vs);
    CountsWeigh(Ones(Values(r)));
    Ones(Values(r))
  }

  /** Chart "Total sessions: days of week": per weekday, Monday first, the
      number of sessions whose first dated row falls on it; the seven counts
      add up to the number of dated sessions. */
  function SessionStartDays(vs: seq<Visit>): (r: Series)
    ensures |r| == 7
    ensures forall i :: 0 <= i < 7 ==> r[i] == (i, |PresentKeys(SessionFirstTimes(vs), IsSlot(WeekdaySlot, i))|)
    ensures Total(r) == |DatedSessions(vs)|
  {
    var r := DaysOfWeek(SessionStartTimes(vs));
    forall i | 0 <= i < 7 ensures r[i] == (i, |PresentKeys(SessionFirstTimes(vs), IsSlot(WeekdaySlot, i))|) {
      SlotCount(SessionFirstTimes(vs), WeekdaySlot, i);
    }
    r
  }

  /** Chart "Total sessions: hours of day": per hour slot 1..24, the number
      of sessions whose first dated row falls in that hour. */
  function SessionStartHours(vs: seq<Visit>): (r: Series)
    ensures |r| == 24
    ensures forall i :: 0 <= i < 24 ==> r[i] == (i + 1, |PresentKeys(SessionFirstTimes(vs), IsSlot(HourSlot, i + 1))|)
    ensures Total(r) == |DatedSessions(vs)|
  {
    var r := HoursOfDay(SessionStartTimes(vs));
    forall i | 0 <= i < 24 ensures r[i] == (i + 1, |PresentKeys(SessionFirstTimes(vs), IsSlot(HourSlot, i + 1))|) {
      SlotCount(SessionFirstTimes(vs), HourSlot, i + 1);
    }
    r
  }

  // ---- Time and viewers per page ----

  /** The four pages whose time and viewers the page charts. */
  const Pages: seq<string> := ["Cart", "Home", "Product", "Collection"]

  /** The page a row views, for rows of `Event.isin(Pages)`. */
  function PageOf(v: Visit): Option<string>
  {
    if v.event in Pages then Some(v.event) else None
  }

  /** The rows viewing page `e`. */
  function OnEvent(e: string): Visit -> bool
  {
    (v: Visit) => v.event == e
  }

  /** For one of the four pages, its group is its rows. */
  lemma PageGroup(e: string, v: Visit)
    requires e in Pages
    ensures InGroup(PageOf, e)(v) == OnEvent(e)(v)
  {
    assert InGroup(PageOf, e)(v) == (PageOf(v) == Some(e));
    assert OnEvent(e)(v) == (v.event == e);
  }

  lemma {:induction false} PageRows(vs: seq<Visit>, e: string)
    requires e in Pages
    ensures Where(vs, InGroup(PageOf, e)) == Where(vs, OnEvent(e))
    ensures IpsWhere(vs, InGroup(PageOf, e)) == IpsWhere(vs, OnEvent(e))
    decreases |vs|
  {
    forall v ensures InGroup(PageOf, e)(v) == OnEvent(e)(v) {
      PageGroup(e, v);
    }
    if |vs| > 0 {
      PageRows(vs[..|vs| - 1], e);
    }
  }

  /** A table keyed by pages has at most one row per page. */
  lemma PagesCard(r: seq<(string, int)>)
    requires forall i, j :: 0 <= i < j < |r| ==> r[i].0 != r[j].0
    requires forall i :: 0 <= i < |r| ==> r[i].0 in Pages
    ensures |r| <= 4
  {
    var ks := set i | 0 <= i < |r| :: r[i].0;
    TableCard(r, ks);
    SubsetCard(ks, {"Cart", "Home", "Product", "Collection"});
  }

  /** Chart "Total Time Spent on Each Event": per page viewed at least
      once, the time of its rows; at most four rows, adding up to the time
      of all page rows. */
  function TimePerPage(vs: seq<Visit>): (r: seq<(string, int)>)
    ensures forall i, j :: 0 <= i < j < |r| ==> r[i].0 != r[j].0
    ensures forall e :: e in Keys(r) <==> e in Pages && exists v :: v in vs && v.event == e
    ensures forall i :: 0 <= i < |r| ==> r[i].1 == TimeSum(Where(vs, OnEvent(r[i].0)))
    ensures TotalWeight(r) == TimeSum(Where(vs, HasKey(PageOf)))
    ensures |r| <= 4
  {
    var r := TimeBy(vs, PageOf);
    forall i | 0 <= i < |r| ensures r[i].0 in Pages && r[i].1 == TimeSum(Where(vs, OnEvent(r[i].0))) {
      assert Keys(r)[i] == r[i].0;
      PageRows(vs, r[i].0);
    }
    PagesCard(r);
    r
  }

  /** Chart "Total Viewers on Each Page": per page viewed at least once,
      its number of distinct IPs. */
  function ViewersPerPage(vs: seq<Visit>): (r: seq<(string, int)>)
    ensures forall i, j :: 0 <= i < j < |r| ==> r[i].0 != r[j].0
    ensures forall e :: e in Keys(r) <==> e in Pages && exists v :: v in vs && v.event == e
    ensures forall i :: 0 <= i < |r| ==> r[i].1 == |IpsWhere(vs, OnEvent(r[i].0))|
    ensures forall i :: 0 <= i < |r| ==> 1 <= r[i].1 <= TotalViewers(vs)
    ensures |r| <= 4
  {
    var r := UniqueVisitors(vs, PageOf);
    forall i | 0 <= i < |r| ensures r[i].0 in Pages && r[i].1 == |IpsWhere(vs, OnEvent(r[i].0))| {
      assert Keys(r)[i] == r[i].0;
      PageRows(vs, r[i].0);
    }
    PagesCard(r);
    r
  }

  function Spent<K>(x: (K, int)): int { x.1 }

  /** Table "Total Time Spent on Each Collections": the time per collection
      name, most time first. */
  function TimePerCollection(vs: seq<Visit>): (r: seq<(string, int)>)
    ensures multiset(r) == multiset(TimeBy(vs, CollectionName))
    ensures Ranking.NonIncreasing(r, Spent)
  {
    Ranking.SortDesc(TimeBy(vs, CollectionName), Spent)
  }

  /** The `Product_ID` column is read as floats once any id is missing. */
  predicate FloatIds(vs: seq<Visit>)
  {
    exists v :: v in vs && v.productId.None?
  }

  /** The (id text, name) key of the time-per-product table; rows without a
      product name are left out of the group-by. */
  function ProductKeyOf(floatColumn: bool): Visit -> Option<(string, string)>
  {
    (v: Visit) => if v.productName.Some? then Some((ProductIds.Key(v.productId, floatColumn), v.productName.value)) else None
  }

  /** With the intended id clean-up, rows of different products never share
      a row of the table. */
  lemma ProductKeysApart(v: Visit, w: Visit, floatColumn: bool)
    requires v.productName.Some? && w.productName.Some?
    requires v.productId != w.productId
    ensures ProductKeyOf(floatColumn)(v) != ProductKeyOf(floatColumn)(w)
  {
    if v.productId.Some? && w.productId.Some? {
      ProductIds.KeyInjective(v.productId.value, w.productId.value, floatColumn);
    } else if v.productId.Some? {
      ProductIds.KeyInjective(v.productId.value, v.productId.value, floatColumn);
    } else {
      ProductIds.KeyInjective(w.productId.value, w.productId.value, floatColumn);
    }
  }

  /** The key as the code builds it: the id text after
      `replace(".0", "", regex=True)`, with the product name. */
  function ProductKeyAsWritten(floatColumn: bool): Visit -> Option<(string, string)>
  {
    (v: Visit) => if v.productName.Some? then
      Some((ProductIds.StripAsWritten(ProductIds.Render(v.productId, floatColumn)), v.productName.value))
    else None
  }

  /** Table "Total Time Spent on Each Product" as written: the time per
      (cleaned id text, product name), most time first. Products whose id
      text the clean-up reduces to the same string share a row. */
  function TimePerProduct(vs: seq<Visit>): (r: seq<((string, string), int)>)
    ensures multiset(r) == multiset(TimeBy(vs, ProductKeyAsWritten(FloatIds(vs))))
    ensures Ranking.NonIncreasing(r, Spent)
  {
    Ranking.SortDesc(TimeBy(vs, ProductKeyAsWritten(FloatIds(vs))), Spent)
  }

  /** The table as evidently intended: one row per (product id, product
      name), the id stripped of its float suffix only. */
  function TimePerProductIntended(vs: seq<Visit>): (r: seq<((string, string), int)>)
    ensures multiset(r) == multiset(TimeBy(vs, ProductKeyOf(FloatIds(vs))))
    ensures Ranking.NonIncreasing(r, Spent)
  {
    Ranking.SortDesc(TimeBy(vs, ProductKeyOf(FloatIds(vs))), Spent)
  }

  /** Two five-second visits of products 10 and 20, both named "Mug", with
      no id missing: the table as written has the single row (("", "Mug"),
      10), the intended table keeps the two products apart. */
  lemma TimePerProductMerges()
    ensures var vs := [MugVisit(10), MugVisit(20)];
      TimePerProduct(vs) == [(("", "Mug"), 10)] &&
      ProductKeyOf(false)(vs[0]) != ProductKeyOf(false)(vs[1])
  {
    var vs := [MugVisit(10), MugVisit(20)];
    MugRows(vs);
    OneProductRow(vs, ("", "Mug"));
    MugKeys();
  }

  lemma MugRows(vs: seq<Visit>)
    requires vs == [MugVisit(10), MugVisit(20)]
    ensures |vs| > 0 && !FloatIds(vs) && TimeSum(vs) == 10
    ensures forall v :: v in vs ==> ProductKeyAsWritten(false)(v) == Some(("", "Mug"))
  {
    MugKeys();
    assert forall v :: v in vs ==> v == MugVisit(10) || v == MugVisit(20);
    assert vs[..1] == [MugVisit(10)] && vs[..1][..0] == [];
    assert TimeSum(vs[..1]) == 5;
  }

  /** When every product row falls under one key, the table as written is
      that key with all the time. */
  lemma OneProductRow(vs: seq<Visit>, k: (string, string))
    requires |vs| > 0 && !FloatIds(vs)
    requires forall v :: v in vs ==> ProductKeyAsWritten(false)(v) == Some(k)
    ensures TimePerProduct(vs) == [(k, TimeSum(vs))]
  {
    SingleGroup(vs, ProductKeyAsWritten(false), k);
    var t := TimeBy(vs, ProductKeyAsWritten(false));
    var r := Ranking.SortDesc(t, Spent);
    assert r[0] in multiset(r);
    assert r == [r[0]];
  }

  lemma MugKeys()
    ensures ProductKeyAsWritten(false)(MugVisit(10)) == Some(("", "Mug"))
    ensures ProductKeyAsWritten(false)(MugVisit(20)) == Some(("", "Mug"))
    ensures ProductKeyOf(false)(MugVisit(10)) != ProductKeyOf(false)(MugVisit(20))
  {
    ProductIds.StripAsWrittenMerges();
    ProductKeysApart(MugVisit(10), MugVisit(20), false);
  }

  /** Rows that all fall in one group give a one-row table carrying all
      their time. */
  lemma SingleGroup<G(!new)>(vs: seq<Visit>, key: Visit -> Option<G>, g: G)
    requires |vs| > 0 && forall v :: v in vs ==> key(v) == Some(g)
    ensures TimeBy(vs, key) == [(g, TimeSum(vs))]
  {
    var t := TimeBy(vs, key);
    SingleKey(vs, key, g);
    WhereAll(vs, InGroup(key, g));
    assert t[0] == (g, TimeSum(vs));
    assert t == [t[0]];
  }

  lemma SingleKey<G(!new)>(vs: seq<Visit>, key: Visit -> Option<G>, g: G)
    requires |vs| > 0 && forall v :: v in vs ==> key(v) == Some(g)
    ensures |TimeBy(vs, key)| == 1 && TimeBy(vs, key)[0].0 == g
  {
    var t := TimeBy(vs, key);
    assert vs[0] in vs;
    OneKeyTable(t, g);
  }

  lemma OneKeyTable<K(!new), V>(t: seq<(K, V)>, g: K)
    requires forall i, j :: 0 <= i < j < |t| ==> t[i].0 != t[j].0
    requires g in Keys(t) && forall k :: k in Keys(t) ==> k == g
    ensures |t| == 1 && t[0].0 == g
  {
    assert forall k :: k in Keys(t) <==> k in {g};
    TableCard(t, {g});
    assert Keys(t)[0] in Keys(t);
  }

  lemma {:induction false} WhereAll<T(!new)>(s: seq<T>, p: T -> bool)
    requires forall x :: x in s ==> p(x)
    ensures Where(s, p) == s
    decreases |s|
  {
    if |s| > 0 {
      var n := |s| - 1;
      assert forall x :: x in s[..n] ==> x in s;
      assert s[n] in s;
      WhereAll(s[..n], p);
      assert s == s[..n] + [s[n]];
    }
  }

  function MugVisit(id: int): Visit
  {
    Visit("1.2.3.4", 1, "Product", None, Some(5), Some(id), Some("Mug"), None)
  }

  // ---- Bounce measures ----

  function IpOf(v: Visit): Option<string> { Some(v.ip) }

  /** The time an IP spent over all its rows. */
  function IpTime(vs: seq<Visit>, ip: string): int
  {
    TimeSum(Where(vs, InGroup(IpOf, ip)))
  }

  /** The IPs that spent under 30 seconds in all. */
  function ShortVisitors(vs: seq<Visit>): set<string>
  {
    set v | v in vs && IpTime(vs, v.ip) < 30 :: v.ip
  }

  function UnderThirty(t: int): bool { t < 30 }

  lemma ShortKeys(vs: seq<Visit>)
    ensures KeysWhere(TimeBy(vs, IpOf), UnderThirty) == ShortVisitors(vs)
  {
    var t := TimeBy(vs, IpOf);
    forall ip | ip in KeysWhere(t, UnderThirty) ensures ip in ShortVisitors(vs) {
      var x :| x in t && UnderThirty(x.1) && x.0 == ip;
      var i :| 0 <= i < |t| && t[i] == x;
      assert Keys(t)[i] == ip;
      var v :| v in vs && IpOf(v) == Some(ip);
    }
    forall ip | ip in ShortVisitors(vs) ensures ip in KeysWhere(t, UnderThirty) {
      var v :| v in vs && IpTime(vs, v.ip) < 30 && v.ip == ip;
      assert IpOf(v) == Some(ip);
      var i :| 0 <= i < |t| && Keys(t)[i] == ip;
      assert t[i] in t;
    }
  }

  lemma IpTableCard(vs: seq<Visit>)
    ensures |TimeBy(vs, IpOf)| == TotalViewers(vs)
  {
    var t := TimeBy(vs, IpOf);
    forall ip ensures ip in Keys(t) <==> ip in set v | v in vs :: v.ip {
      if ip in set v | v in vs :: v.ip {
        var v :| v in vs && v.ip == ip;
        assert IpOf(v) == Some(ip);
      }
    }
    TableCard(t, set v | v in vs :: v.ip);
  }

  /** What the card's two counts are: the table's rows under 30 seconds
      are the short visitors, its rows are all viewers. */
  lemma ShortVisitCounts(vs: seq<Visit>)
    ensures CountWhere(TimeBy(vs, IpOf), UnderThirty) == |ShortVisitors(vs)|
    ensures |TimeBy(vs, IpOf)| == TotalViewers(vs)
    ensures |ShortVisitors(vs)| <= TotalViewers(vs)
    ensures TotalViewers(vs) == 0 <==> |vs| == 0
  {
    IpTableCard(vs);
    CountWhereCard(TimeBy(vs, IpOf), UnderThirty);
    ShortKeys(vs);
    SubsetCard(ShortVisitors(vs), set v | v in vs :: v.ip);
    assert |vs| > 0 ==> vs[0].ip in set v | v in vs :: v.ip;
  }

  /** Card "Customers Rate Under 30 Second": the percentage, among all
      IPs, of those whose time adds up to under 30 seconds (so between 0 and
      100 by `Percent`); `None` for an empty table, where the division
      fails. */
  function ShortVisitRate(vs: seq<Visit>): (r: Option<real>)
    ensures r == Percent(|ShortVisitors(vs)|, TotalViewers(vs))
    ensures |ShortVisitors(vs)| <= TotalViewers(vs)
    ensures r.None? <==> |vs| == 0
  {
    var c := ShortVisitTally(vs);
    Percent(c.0, c.1)
  }

  /** The card's two counts: the per-IP time table's rows under 30 seconds,
      and its rows. */
  function ShortVisitTally(vs: seq<Visit>): (c: (nat, nat))
    ensures c.0 == |ShortVisitors(vs)| && c.1 == TotalViewers(vs)
    ensures c.0 <= c.1
    ensures c.1 == 0 <==> |vs| == 0
  {
    var t := TimeBy(vs, IpOf);
    ShortVisitCounts(vs);
    (CountWhere(t, UnderThirty), |t|)
  }

  /** `part / whole * 100` for counts, `None` when `whole` is zero. */
  function Percent(part: nat, whole: nat): (r: Option<real>)
    ensures r.None? <==> whole == 0
    ensures r.Some? && part <= whole ==> 0.0 <= r.value <= 100.0
    ensures r.Some? ==> r.value * whole as real == 100.0 * part as real
  {
    if whole == 0 then None
    else
      var q := part as real / whole as real;
      assert q * whole as real == part as real;
      assert part <= whole ==> q <= 1.0;
      Some(q * 100.0)
  }

  predicate OnPage(v: Visit) { v.event in Pages }

  /** The rows of the four pages, sorted by IP and session, keeping the
      last row of every session (`drop_duplicates(keep='last')`). */
  function LastPageViews(vs: seq<Visit>): (r: seq<Visit>)
    ensures forall i, j :: 0 <= i < j < |r| ==> SessionOf(r[i]) != SessionOf(r[j])
    ensures KeySet(r, SessionOf) == KeySet(Where(vs, OnPage), SessionOf)
    ensures forall x :: x in r ==> x in vs && OnPage(x)
  {
    LastRows(Where(vs, OnPage), SessionOf)
  }

  /** A session's last page row bounces when its time is under 10 seconds;
      a missing time does not. */
  predicate Bounced(v: Visit) { v.timeOnPage.Some? && v.timeOnPage.value < 10 }

  /** The IPs with a bounced last page row on page `e`. */
  function BouncedIps(vs: seq<Visit>, e: string): set<string>
  {
    set x | x in LastPageViews(vs) && x.event == e && Bounced(x) :: x.ip
  }

  /** The rows of the four pages, in file order. */
  function PageViews(vs: seq<Visit>): seq<Visit>
  {
    Where(vs, OnPage)
  }

  /** Row `i` of `w` is on `e`, under 10 seconds, and the last of its
      session. */
  predicate BouncedLast(w: seq<Visit>, i: int, e: string)
  {
    0 <= i < |w| && w[i].event == e && Bounced(w[i]) && SessionOf(w[i]) !in KeySet(w[i + 1..], SessionOf)
  }

  /** An IP bounced from `e` exactly when some page row of it on `e`, under
      10 seconds, is the last page row of its session. */
  lemma BouncedIpsLast(vs: seq<Visit>, e: string, ip: string)
    ensures ip in BouncedIps(vs, e) <==> exists i :: BouncedLast(PageViews(vs), i, e) && PageViews(vs)[i].ip == ip
  {
    var w := PageViews(vs);
    if ip in BouncedIps(vs, e) {
      var x :| x in LastPageViews(vs) && x.event == e && Bounced(x) && x.ip == ip;
      LastRowsAreLast(w, SessionOf, x);
      var i :| 0 <= i < |w| && w[i] == x && SessionOf(x) !in KeySet(w[i + 1..], SessionOf);
      assert BouncedLast(w, i, e);
    }
    if exists i :: BouncedLast(w, i, e) && w[i].ip == ip {
      var i :| BouncedLast(w, i, e) && w[i].ip == ip;
      LastRowsKeepsLast(w, SessionOf, i);
      assert w[i] in LastPageViews(vs);
    }
  }

  /** Chart "Bounce Rate(%) by Event Type" for page `e`: the percentage of
      the IPs that viewed `e` whose bounced last page row is on `e`; 0 when
      nobody viewed `e`. */
  function BounceRate(vs: seq<Visit>, e: string): (r: real)
    ensures |IpsWhere(vs, OnEvent(e))| == 0 ==> r == 0.0
    ensures 0.0 <= r <= 100.0
    ensures r * |IpsWhere(vs, OnEvent(e))| as real == 100.0 * |BouncedIps(vs, e)| as real
  {
    assert BouncedIps(vs, e) <= IpsWhere(vs, OnEvent(e)) by {
      forall ip | ip in BouncedIps(vs, e) ensures ip in IpsWhere(vs, OnEvent(e)) {
        var x :| x in LastPageViews(vs) && x.event == e && Bounced(x) && x.ip == ip;
        assert OnEvent(e)(x);
      }
    }
    SubsetCard(BouncedIps(vs, e), IpsWhere(vs, OnEvent(e)));
    var p := Percent(|BouncedIps(vs, e)|, |IpsWhere(vs, OnEvent(e))|);
    if p.Some? then p.value else 0.0
  }
}
