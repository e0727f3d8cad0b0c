/** The products page: catalogue counts, best sellers, price rankings and the
    products nobody ordered. Only published catalogue rows (those with a
    `Product_Published_At`) take part, except in the best-seller chart,
    which reads the order lines. */
module Products {
  import opened Options
  import opened Tables
  import opened Groups
  import Ranking
  import Calendar

  predicate Published(p: Product) { p.publishedAt.Some? }

  /** `dropna(subset=['Product_Published_At'])`. */
  function PublishedRows(ps: seq<Product>): (r: seq<Product>)
    ensures forall p :: p in r <==> p in ps && Published(p)
  {
    Where(ps, Published)
  }

  /** The ids of the published catalogue rows. */
  function PublishedIds(ps: seq<Product>): set<int>
  {
    set p | p in ps && Published(p) :: p.id
  }

  /** Card "Total products": distinct ids among the published rows. */
  function TotalProducts(ps: seq<Product>): (n: nat)
    ensures n == |PublishedIds(ps)|
  {
    var rows := PublishedRows(ps);
    var ids := seq(|rows|, i requires 0 <= i < |rows| => rows[i].id);
    assert (set x | x in ids) == PublishedIds(ps) by {
      forall x | x in ids ensures x in PublishedIds(ps) {
        var i :| 0 <= i < |ids| && ids[i] == x;
        assert rows[i] in rows;
      }
      forall p | p in ps && Published(p) ensures p.id in ids {
        var i :| 0 <= i < |rows| && rows[i] == p;
        assert ids[i] == p.id;
      }
    }
    CountDistinct(ids)
  }

  // ---- Product count by type ----

  /** The type a product is counted under: an empty type string becomes
      "No Type"; a missing type (NaN) stays missing and the group-by drops
      it. */
  function TypeOf(p: Product): (t: Option<string>)
    ensures t.Some? <==> p.productType.Some?
    ensures t.Some? ==> t.value != ""
    ensures p.productType == Some("") ==> t == Some("No Type")
    ensures p.productType.Some? && p.productType.value != "" ==> t == p.productType
  {
    match p.productType
    case None => None
    case Some(s) => if s == "" then Some("No Type") else Some(s)
  }

  function Id(p: Product): int { p.id }

  /** The distinct ids of the published rows of type `t`. */
  function IdsOfType(ps: seq<Product>, t: string): set<int>
  {
    set p | p in ps && Published(p) && TypeOf(p) == Some(t) :: p.id
  }

  lemma TypeMembers(ps: seq<Product>, t: string)
    ensures MembersWhere(PublishedRows(ps), TypeOf, Id, t) == IdsOfType(ps, t)
  {
  }

  /** The distinct (type, id) pairs of the published rows. */
  function TypePairs(ps: seq<Product>): set<(string, int)>
  {
    set p | p in ps && Published(p) && p.productType.Some? :: (TypeOf(p).value, p.id)
  }

  /** `groupby('Product_Type')['Product_ID'].nunique()` over the published
      rows: one row per type with its number of distinct products, and no
      type left empty. */
  function TypeCounts(ps: seq<Product>): (r: seq<(string, int)>)
    ensures forall i, j :: 0 <= i < j < |r| ==> r[i].0 != r[j].0
    ensures forall t :: t in Keys(r) <==> exists p :: p in ps && Published(p) && TypeOf(p) == Some(t)
    ensures forall i :: 0 <= i < |r| ==> r[i].1 == |IdsOfType(ps, r[i].0)|
    ensures "" !in Keys(r)
  {
    var r := NuniqueBy(PublishedRows(ps), TypeOf, Id);
    forall i | 0 <= i < |r| ensures r[i].1 == |IdsOfType(ps, r[i].0)| {
      TypeMembers(ps, r[i].0);
    }
    r
  }

  /** The bars of the type chart add up to the number of distinct
      (type, product) pairs. */
  lemma TypeCountsTotal(ps: seq<Product>)
    ensures TotalWeight(TypeCounts(ps)) == |TypePairs(ps)|
  {
    NuniqueTotal(PublishedRows(ps), TypeOf, Id);
    assert PairsOf(PublishedRows(ps), TypeOf, Id) == TypePairs(ps);
  }

  function Count(x: (string, int)): int { x.1 }

  /** Chart "Product Count by Type" for the slider value `n`; `nlargest`
      shows the whole table when `n` exceeds it (the slider's default 5 can). */
  function TopTypes(ps: seq<Product>, n: nat): (r: seq<(string, int)>)
    ensures |r| == Ranking.Min(n, |TypeCounts(ps)|)
    ensures Ranking.NonIncreasing(r, Count)
    ensures multiset(r) <= multiset(TypeCounts(ps))
    ensures forall y, z :: y in multiset(TypeCounts(ps)) - multiset(r) && z in r ==> y.1 <= z.1
  {
    Ranking.Largest(TypeCounts(ps), n, Count)
  }

  // ---- Most sold products ----

  function NameOf(l: OrderLine): Option<string> { l.productName }

  /** A line's quantity; `sum` skips a missing quantity, which is the same
      as counting it as 0. */
  function Quantity(l: OrderLine): int { l.quantity.GetOr(0) }

  /** Reference: the quantities of the given lines added up. */
  function QuantitySum(lines: seq<OrderLine>): int
    decreases |lines|
  {
    if |lines| == 0 then 0 else QuantitySum(lines[..|lines| - 1]) + Quantity(lines[|lines| - 1])
  }

  function Named(l: OrderLine): bool { l.productName.Some? }

  /** The group-by drops the lines without a product name: what it adds up
      is the quantity of the named lines. */
  lemma {:induction false} NamedUnits(lines: seq<OrderLine>)
    ensures KeyedWeight(lines, NameOf, Quantity) == QuantitySum(Where(lines, Named))
    decreases |lines|
  {
    if |lines| > 0 {
      var n := |lines| - 1;
      NamedUnits(lines[..n]);
      var front := Where(lines[..n], Named);
      assert Where(lines, Named) == front + (if Named(lines[n]) then [lines[n]] else []);
      if Named(lines[n]) {
        assert (front + [lines[n]])[..|front|] == front;
      }
    }
  }

  /** `groupby('Product_Name')['Product_Quantity'].sum()`: the units sold
      per product name; the names' totals add up to the units of all named
      lines. */
  function UnitsSold(lines: seq<OrderLine>): (r: seq<(string, int)>)
    ensures forall i, j :: 0 <= i < j < |r| ==> r[i].0 != r[j].0
    ensures forall n :: n in Keys(r) <==> exists l :: l in lines && l.productName == Some(n)
    ensures forall i :: 0 <= i < |r| ==> r[i].1 == SumWhere(lines, NameOf, Quantity, r[i].0)
    ensures TotalWeight(r) == QuantitySum(Where(lines, Named))
  {
    NamedUnits(lines);
    SumBy(lines, NameOf, Quantity)
  }

  /** Chart "Most Sold Products": the `n` names with the most units. */
  function MostSold(lines: seq<OrderLine>, n: nat): (r: seq<(string, int)>)
    ensures |r| == Ranking.Min(n, |UnitsSold(lines)|)
    ensures Ranking.NonIncreasing(r, Count)
    ensures multiset(r) <= multiset(UnitsSold(lines))
    ensures forall y, z :: y in multiset(UnitsSold(lines)) - multiset(r) && z in r ==> y.1 <= z.1
  {
    Ranking.Largest(UnitsSold(lines), n, Count)
  }

  // ---- Most and least priced products ----

  /** Per published row, its (id, title) key and its variant price. */
  function PriceRows(ps: seq<Product>): (r: seq<((int, string), int)>)
    ensures |r| == |PublishedRows(ps)|
    ensures forall i :: 0 <= i < |r| ==> r[i] == ((PublishedRows(ps)[i].id, PublishedRows(ps)[i].title), PublishedRows(ps)[i].variantPrice)
  {
    var rows := PublishedRows(ps);
    seq(|rows|, i requires 0 <= i < |rows| => ((rows[i].id, rows[i].title), rows[i].variantPrice))
  }

  /** A published row of product `k` has price `price`. */
  predicate Priced(ps: seq<Product>, k: (int, string), price: int)
  {
    exists p :: p in ps && Published(p) && (p.id, p.title) == k && p.variantPrice == price
  }

  lemma PriceRowOf(ps: seq<Product>, i: int)
    requires 0 <= i < |PriceRows(ps)|
    ensures Priced(ps, PriceRows(ps)[i].0, PriceRows(ps)[i].1)
  {
    assert PublishedRows(ps)[i] in PublishedRows(ps);
  }

  lemma PriceRowFor(ps: seq<Product>, p: Product)
    requires p in ps && Published(p)
    ensures ((p.id, p.title), p.variantPrice) in PriceRows(ps)
  {
    var i :| 0 <= i < |PublishedRows(ps)| && PublishedRows(ps)[i] == p;
    assert PriceRows(ps)[i] == ((p.id, p.title), p.variantPrice);
  }

  function Price(x: ((int, string), int)): int { x.1 }

  /** `groupby(['Product_ID', 'Product_Title']).agg(max)` of the price:
      per product, its highest variant price. */
  function MaxPrices(ps: seq<Product>): (r: seq<((int, string), int)>)
    ensures forall i, j :: 0 <= i < j < |r| ==> r[i].0 != r[j].0
    ensures forall i :: 0 <= i < |r| ==> Priced(ps, r[i].0, r[i].1)
    ensures forall i, p :: 0 <= i < |r| && p in ps && Published(p) && (p.id, p.title) == r[i].0 ==> p.variantPrice <= r[i].1
    ensures forall p :: p in ps && Published(p) ==> (p.id, p.title) in Keys(r)
  {
    var s := PriceRows(ps);
    var r := MaxPerGroup(s);
    forall i | 0 <= i < |r| ensures Priced(ps, r[i].0, r[i].1) {
      var j :| 0 <= j < |s| && s[j] == r[i];
      PriceRowOf(ps, j);
    }
    forall i, p | 0 <= i < |r| && p in ps && Published(p) && (p.id, p.title) == r[i].0 ensures p.variantPrice <= r[i].1 {
      PriceRowFor(ps, p);
      var j :| 0 <= j < |s| && s[j] == ((p.id, p.title), p.variantPrice);
    }
    forall p | p in ps && Published(p) ensures (p.id, p.title) in Keys(r) {
      PriceRowFor(ps, p);
      var j :| 0 <= j < |s| && s[j] == ((p.id, p.title), p.variantPrice);
      assert Keys(s)[j] == (p.id, p.title);
    }
    r
  }

  /** ... and with `min`: per product, its lowest variant price. */
  function MinPrices(ps: seq<Product>): (r: seq<((int, string), int)>)
    ensures forall i, j :: 0 <= i < j < |r| ==> r[i].0 != r[j].0
    ensures forall i :: 0 <= i < |r| ==> Priced(ps, r[i].0, r[i].1)
    ensures forall i, p :: 0 <= i < |r| && p in ps && Published(p) && (p.id, p.title) == r[i].0 ==> r[i].1 <= p.variantPrice
    ensures forall p :: p in ps && Published(p) ==> (p.id, p.title) in Keys(r)
  {
    var s := PriceRows(ps);
    var r := MinPerGroup(s);
    forall i | 0 <= i < |r| ensures Priced(ps, r[i].0, r[i].1) {
      var j :| 0 <= j < |s| && s[j] == r[i];
      PriceRowOf(ps, j);
    }
    forall i, p | 0 <= i < |r| && p in ps && Published(p) && (p.id, p.title) == r[i].0 ensures r[i].1 <= p.variantPrice {
      PriceRowFor(ps, p);
      var j :| 0 <= j < |s| && s[j] == ((p.id, p.title), p.variantPrice);
    }
    forall p | p in ps && Published(p) ensures (p.id, p.title) in Keys(r) {
      PriceRowFor(ps, p);
      var j :| 0 <= j < |s| && s[j] == ((p.id, p.title), p.variantPrice);
      assert Keys(s)[j] == (p.id, p.title);
    }
    r
  }

  /** Chart "Most Priced Products": the `n` products with the highest
      prices, highest first. */
  function MostPriced(ps: seq<Product>, n: nat): (r: seq<((int, string), int)>)
    ensures |r| == Ranking.Min(n, |MaxPrices(ps)|)
    ensures Ranking.NonIncreasing(r, Price)
    ensures multiset(r) <= multiset(MaxPrices(ps))
    ensures forall y, z :: y in multiset(MaxPrices(ps)) - multiset(r) && z in r ==> y.1 <= z.1
  {
    Ranking.Largest(MaxPrices(ps), n, Price)
  }

  function IdOf(x: ((int, string), int)): int { x.0.0 }

  /** Chart "Least Priced Products" as written: the first `n` rows of the
      group-by table, which pandas orders by product id, not by price. */
  function LeastPricedAsWritten(ps: seq<Product>, n: nat): (r: seq<((int, string), int)>)
    ensures |r| == Ranking.Min(n, |MinPrices(ps)|)
    ensures Ranking.NonDecreasing(r, IdOf)
    ensures multiset(r) <= multiset(MinPrices(ps))
    ensures forall y, z :: y in multiset(MinPrices(ps)) - multiset(r) && z in r ==> z.0.0 <= y.0.0
  {
    Ranking.Smallest(MinPrices(ps), n, IdOf)
  }

  /** The intended chart: the `n` cheapest products, cheapest first. */
  function LeastPriced(ps: seq<Product>, n: nat): (r: seq<((int, string), int)>)
    ensures |r| == Ranking.Min(n, |MinPrices(ps)|)
    ensures Ranking.NonDecreasing(r, Price)
    ensures multiset(r) <= multiset(MinPrices(ps))
    ensures forall y, z :: y in multiset(MinPrices(ps)) - multiset(r) && z in r ==> z.1 <= y.1
  {
    Ranking.Smallest(MinPrices(ps), n, Price)
  }

  /** A catalogue of two published products: product 1 at 5.00 and
      product 2 at 1.00. */
  predicate TwoProducts(ps: seq<Product>)
  {
    |ps| == 2 && ps[0] == Product(1, "A", None, 500, Some("2023-01-01")) && ps[1] == Product(2, "B", None, 100, Some("2023-01-01"))
  }

  lemma {:induction false} AllPublished(ps: seq<Product>)
    requires forall i :: 0 <= i < |ps| ==> Published(ps[i])
    ensures PublishedRows(ps) == ps
    decreases |ps|
  {
    if |ps| > 0 {
      AllPublished(ps[..|ps| - 1]);
      assert ps[..|ps| - 1] + [ps[|ps| - 1]] == ps;
    }
  }

  lemma TwoPriceRows(ps: seq<Product>)
    requires TwoProducts(ps)
    ensures PriceRows(ps) == [((1, "A"), 500), ((2, "B"), 100)]
  {
    AllPublished(ps);
  }

  lemma TwoRowTable(s: seq<((int, string), int)>)
    requires s == [((1, "A"), 500), ((2, "B"), 100)]
    ensures MinPerGroup(s) == [((1, "A"), 500), ((2, "B"), 100)] ||
            MinPerGroup(s) == [((2, "B"), 100), ((1, "A"), 500)]
  {
    var a := ((1, "A"), 500);
    var b := ((2, "B"), 100);
    var t := MinPerGroup(s);
    assert forall l :: 0 <= l < |t| ==> t[l] == a || t[l] == b by {
      forall l | 0 <= l < |t| ensures t[l] == a || t[l] == b {
        assert t[l] in s;
      }
    }
    assert |t| == 2 by {
      forall k ensures k in Keys(t) <==> k in {(1, "A"), (2, "B")} {
        assert Keys(s)[0] == (1, "A") && Keys(s)[1] == (2, "B");
        assert k in Keys(s) <==> k in {(1, "A"), (2, "B")};
      }
      TableCard(t, {(1, "A"), (2, "B")});
    }
    assert t[0].0 != t[1].0;
  }

  /** Its price table holds the two products, in some order. */
  lemma TwoProductsTable(ps: seq<Product>)
    requires TwoProducts(ps)
    ensures MinPrices(ps) == [((1, "A"), 500), ((2, "B"), 100)] ||
            MinPrices(ps) == [((2, "B"), 100), ((1, "A"), 500)]
  {
    TwoPriceRows(ps);
    TwoRowTable(PriceRows(ps));
  }

  lemma EitherOrder<T>(t: seq<T>, a: T, b: T)
    requires t == [a, b] || t == [b, a]
    ensures multiset(t) == multiset{a, b}
  {
  }

  /** On that table, in either row order, the head by id and the cheapest
      row differ. */
  lemma TableHeads(t: seq<((int, string), int)>)
    requires t == [((1, "A"), 500), ((2, "B"), 100)] || t == [((2, "B"), 100), ((1, "A"), 500)]
    ensures Ranking.Smallest(t, 1, IdOf) == [((1, "A"), 500)]
    ensures Ranking.Smallest(t, 1, Price) == [((2, "B"), 100)]
  {
    var a, b := ((1, "A"), 500), ((2, "B"), 100);
    EitherOrder(t, a, b);
    assert Ranking.Smallest(t, 1, IdOf) == [a] by {
      assert IdOf(a) < IdOf(b);
      Ranking.SmallestOfTwo(t, a, b, IdOf);
    }
    assert Ranking.Smallest(t, 1, Price) == [b] by {
      assert Price(b) < Price(a);
      Ranking.SmallestOfTwo(t, b, a, Price);
    }
  }

  /** With product 1 at 5.00 and product 2 at 1.00, the chart as written
      shows product 1 as the least priced, the intended chart product 2. */
  lemma LeastPricedShowsFirstId(ps: seq<Product>)
    requires TwoProducts(ps)
    ensures |MinPrices(ps)| == 2
    ensures LeastPricedAsWritten(ps, 1) == [((1, "A"), 500)]
    ensures LeastPriced(ps, 1) == [((2, "B"), 100)]
  {
    TwoProductsTable(ps);
    TableHeads(MinPrices(ps));
  }

  // ---- Unsold products ----

  /** `df_orders['Product_ID'].unique()`. */
  function SoldIds(lines: seq<OrderLine>): set<int>
  {
    set l | l in lines :: l.productId
  }

  predicate Unsold(lines: seq<OrderLine>, p: Product)
  {
    Published(p) && p.id !in SoldIds(lines)
  }

  /** The (id, title, publication text) key of the unsold table. */
  function UnsoldKey(p: Product): (int, string, string)
  {
    (p.id, p.title, p.publishedAt.GetOr(""))
  }

  /** `groupby(['Product_ID', 'Product_Title', 'Product_Published_At']).first()`
      of the published rows whose id no order line carries: the publication
      time is grouped as the text the file holds. */
  function UnsoldRows(ps: seq<Product>, lines: seq<OrderLine>): (r: seq<(int, string, string)>)
    ensures forall i, j :: 0 <= i < j < |r| ==> r[i] != r[j]
    ensures forall x :: x in r <==> exists p :: p in ps && Unsold(lines, p) && UnsoldKey(p) == x
  {
    var first := FirstRows(Where(ps, UnsoldIn(lines)), UnsoldKey);
    forall x ensures x in KeyColumn(first) <==> exists p :: p in ps && Unsold(lines, p) && UnsoldKey(p) == x {
      UnsoldKeyFound(ps, lines, x);
      ColumnKeys(first, x);
    }
    KeyColumn(first)
  }

  function KeyColumn(first: seq<Product>): (r: seq<(int, string, string)>)
    ensures |r| == |first| && forall i :: 0 <= i < |first| ==> r[i] == UnsoldKey(first[i])
  {
    seq(|first|, i requires 0 <= i < |first| => UnsoldKey(first[i]))
  }

  lemma ColumnKeys(first: seq<Product>, x: (int, string, string))
    ensures x in KeyColumn(first) <==> x in KeySet(first, UnsoldKey)
  {
    var r := KeyColumn(first);
    if x in KeySet(first, UnsoldKey) {
      var i :| 0 <= i < |first| && UnsoldKey(first[i]) == x;
      assert r[i] == x;
    }
    if x in r {
      var i :| 0 <= i < |r| && r[i] == x;
      assert UnsoldKey(first[i]) == x;
    }
  }

  function UnsoldIn(lines: seq<OrderLine>): Product -> bool
  {
    p => Unsold(lines, p)
  }

  lemma UnsoldKeyFound(ps: seq<Product>, lines: seq<OrderLine>, x: (int, string, string))
    ensures x in KeySet(Where(ps, UnsoldIn(lines)), UnsoldKey) <==> exists p :: p in ps && Unsold(lines, p) && UnsoldKey(p) == x
  {
    var w := Where(ps, UnsoldIn(lines));
    if x in KeySet(w, UnsoldKey) {
      var k :| 0 <= k < |w| && UnsoldKey(w[k]) == x;
      assert w[k] in w && UnsoldIn(lines)(w[k]);
    }
    if exists p :: p in ps && Unsold(lines, p) && UnsoldKey(p) == x {
      var p :| p in ps && Unsold(lines, p) && UnsoldKey(p) == x;
      assert UnsoldIn(lines)(p);
      var k :| 0 <= k < |w| && w[k] == p;
    }
  }

  /** `str.split("T").str[0]`: the text before the first "T", all of it
      when there is none. For an ISO 8601 time with an offset this is the
      local calendar date. */
  function DatePart(s: string): (r: string)
    ensures |r| <= |s| && r == s[..|r|]
    ensures 'T' !in r
    ensures |r| < |s| ==> s[|r|] == 'T'
    decreases |s|
  {
    if |s| == 0 || s[0] == 'T' then "" else [s[0]] + DatePart(s[1..])
  }

  /** Splitting a date and a time joined by "T" gives the date back. */
  lemma {:induction false} DatePartOfJoin(d: string, t: string)
    requires 'T' !in d
    ensures DatePart(d + "T" + t) == d
    decreases |d|
  {
    if |d| > 0 {
      assert d[0] in d;
      assert forall c :: c in d[1..] ==> c in d;
      DatePartOfJoin(d[1..], t);
      assert (d + "T" + t)[1..] == d[1..] + "T" + t;
    }
  }

  /** A publication time at 23:30 on 1 March 2023 at UTC-5 is listed under
      1 March, its local date, although it falls on 2 March in UTC. */
  lemma LocalDateListed()
    ensures DatePart("2023-03-01T23:30:00-05:00") == "2023-03-01"
  {
    var d, t := "2023-03-01", "23:30:00-05:00";
    assert 'T' !in d;
    DatePartOfJoin(d, t);
    assert d + "T" + t == "2023-03-01T23:30:00-05:00";
  }

  /** A row of the displayed table: id, title and the parsed date. */
  type UnsoldLine = (int, string, int)

  function ListedDay(x: UnsoldLine): int { x.2 }

  function Later(x: UnsoldLine): int { -x.2 }

  /** Whether `pd.to_datetime` accepts the date part of every unsold row;
      `toDate` stands for it, giving the day number of a date text. */
  predicate AllDatesParse(rows: seq<(int, string, string)>, toDate: string -> Option<int>)
  {
    forall i :: 0 <= i < |rows| ==> toDate(DatePart(rows[i].2)).Some?
  }

  /** The unsold rows with their publication text replaced by the date
      `toDate` reads from its date part. */
  function DatedRows(rows: seq<(int, string, string)>, toDate: string -> Option<int>): (r: seq<UnsoldLine>)
    requires AllDatesParse(rows, toDate)
    ensures |r| == |rows|
    ensures forall i :: 0 <= i < |rows| ==>
      r[i] == (rows[i].0, rows[i].1, toDate(DatePart(rows[i].2)).value)
  {
    seq(|rows|, i requires 0 <= i < |rows| && AllDatesParse(rows, toDate) =>
      (rows[i].0, rows[i].1, toDate(DatePart(rows[i].2)).value))
  }

  /** Table "Unsold Products Summary": the unsold rows with the date of
      their publication text, earliest date first. `None` when a date part
      does not parse, where `pd.to_datetime` raises. */
  function UnsoldProducts(ps: seq<Product>, lines: seq<OrderLine>, toDate: string -> Option<int>): (r: Option<seq<UnsoldLine>>)
    ensures r.None? <==> exists x :: x in UnsoldRows(ps, lines) && toDate(DatePart(x.2)).None?
    ensures r.Some? ==> multiset(r.value) == multiset(DatedRows(UnsoldRows(ps, lines), toDate))
    ensures r.Some? ==> Ranking.NonDecreasing(r.value, ListedDay)
  {
    var rows := UnsoldRows(ps, lines);
    if AllDatesParse(rows, toDate) then
      Some(Ranking.SortDesc(DatedRows(rows, toDate), Later))
    else
      None
  }

  /** The ids of the unsold table and the sold published ids split the
      published ids between them. */
  lemma UnsoldPartition(ps: seq<Product>, lines: seq<OrderLine>, toDate: string -> Option<int>)
    ensures (set x | x in UnsoldRows(ps, lines) :: x.0) == PublishedIds(ps) - SoldIds(lines)
    ensures UnsoldProducts(ps, lines, toDate).Some? ==>
      (set x | x in UnsoldProducts(ps, lines, toDate).value :: x.0) == PublishedIds(ps) - SoldIds(lines)
  {
    var u := UnsoldRows(ps, lines);
    UnsoldRowIds(ps, lines);
    if UnsoldProducts(ps, lines, toDate).Some? {
      ListedIds(u, toDate, UnsoldProducts(ps, lines, toDate).value);
    }
  }

  lemma UnsoldRowIds(ps: seq<Product>, lines: seq<OrderLine>)
    ensures (set x | x in UnsoldRows(ps, lines) :: x.0) == PublishedIds(ps) - SoldIds(lines)
  {
    var u := UnsoldRows(ps, lines);
    forall x | x in u ensures x.0 in PublishedIds(ps) - SoldIds(lines) {
      var p :| p in ps && Unsold(lines, p) && UnsoldKey(p) == x;
      assert p.id in PublishedIds(ps);
    }
    forall id | id in PublishedIds(ps) - SoldIds(lines) ensures id in (set x | x in u :: x.0) {
      var p :| p in ps && Published(p) && p.id == id;
      assert Unsold(lines, p);
      assert UnsoldKey(p) in u;
    }
  }

  /** Replacing the publication text by its date and reordering keeps the
      ids. */
  lemma ListedIds(u: seq<(int, string, string)>, toDate: string -> Option<int>, r: seq<UnsoldLine>)
    requires AllDatesParse(u, toDate)
    requires multiset(r) == multiset(DatedRows(u, toDate))
    ensures (set x | x in r :: x.0) == (set y | y in u :: y.0)
  {
    var d := DatedRows(u, toDate);
    forall x | x in r ensures x.0 in (set y | y in u :: y.0) {
      assert x in multiset(d);
      var i :| 0 <= i < |d| && d[i] == x;
      assert u[i] in u;
    }
    forall y | y in u ensures y.0 in (set x | x in r :: x.0) {
      var i :| 0 <= i < |u| && u[i] == y;
      assert d[i] in multiset(r);
    }
  }
}
