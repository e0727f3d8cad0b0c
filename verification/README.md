# Shopify sales dashboard: the aggregations, in Dafny

The dashboard is a single Streamlit script, `Multiple_Datasets.py`. It loads
five exported tables:

- orders: one row per line item;
- abandoned checkouts: same columns as orders;
- customers;
- the customer journey: one row per page event, keyed by customer IP and
  session number;
- products: one row per variant.

It then draws six pages of cards, tables and charts. This project models the
computations behind every card and chart as pure Dafny functions over
sequences of rows. The modelled parts are:

- the sidebar date filter;
- distinct counts;
- first-row de-duplication by order id or session;
- group-by sums and distinct counts;
- the top-N / bottom-N sliders (`nlargest` / `nsmallest`);
- weekday/weekend splits and day-of-week and hour-of-day histograms;
- the zero-filled daily series with monthly, quarterly and yearly rollups;
- the revenue rollups;
- bounce and short-visit rates;
- the unsold-products table.

Properties are stated and proved about these functions.

Representation choices:

- Timestamps are `Option<int>`: seconds since 1970-01-01 UTC, `None` where
  pandas holds `NaT`.
- Money is an integer number of cents.
- Session durations are integer seconds.
- A missing cell is `None` throughout.
- Every chart takes its input table as a parameter. "Today" and the slider
  values are parameters too.

The modules follow the script's structure:

| module | what it holds |
|---|---|
| `Options`, `Tables` | the `Option` type and the four row types |
| `Calendar` | day numbers, civil dates, weekday, hour, month/quarter/year indices |
| `Decimal`, `Labels` | `str()` of integers; the `%Y-%m` and `YYYYQn` labels and their order |
| `Groups`, `Buckets`, `Ranking` | the pandas building blocks: `unique`, `nunique`, `drop_duplicates`, `groupby(...).first/sum/nunique/max/min`, `reindex`, `sort_values`, `nlargest`, `nsmallest` |
| `Histograms`, `TimeBuckets` | weekday/weekend split, 7-day and 24-hour charts, zero-filled daily series and its rollups |
| `DateFilter` | `filter_by_date` |
| `Customers`, `Journey`, `JourneyPages`, `Orders`, `Checkouts`, `Products`, `ProductIds`, `Revenue` | one module per dashboard page |

Every chart is computed from the full, unfiltered table, as in the code. The
result of `filter_by_date` is only shown as the page's preview table (for
example `Multiple_Datasets.py:1122`).

Behaviours of the code that the model keeps as written:

- **Date filter window.** The end date is compared as midnight of that day
  (131-133), so the end day's rows after 00:00 are dropped. This is the
  date-filter row under Findings.
- **Bounce rate.** The rate counts distinct IPs, not sessions
  (`Customer_IP.nunique()` at 1061-1062). A page nobody viewed gets 0
  (1063).
- **Short-visit rate.** It divides by the number of viewers (1037-1039),
  which is zero for an empty journey table.
- **Least-priced chart.** It takes the head of the table ordered by id, not
  by price (1969). This is a row under Findings.
- **Day-of-week charts.** On the order, abandoned-checkout and revenue
  pages the chart stops when any creation time is missing (1172-1173,
  2178-2179). These are rows under Findings.
- **Time per product.** The id clean-up at 962 removes every character
  followed by `0`, so distinct products can share a row. This is a row
  under Findings.
- **Unsold products.** `Product_Published_At` is not among the parsed
  columns (108). The table groups by its text (2004) and lists the date
  before the "T" (2006-2010), which is the local date of the time written.

## Model

| member | source | states |
|---|---|---|
| Calendar.DayOf | Multiple_Datasets.py:1242 | `.dt.date` of a UTC timestamp is the day `d` with `86400*d <= t < 86400*(d+1)`: floor division, also before 1970 |
| Calendar.HourOf | Multiple_Datasets.py:1203 | `.dt.hour` is 0..23 and names the one-hour slice of the timestamp's day that contains it |
| Calendar.WeekdayProgression | Multiple_Datasets.py:1172 | `.dt.dayofweek` (Monday 0): 1970-01-01 is a Thursday, the next day has the next weekday modulo 7, and the weekday repeats every 7 days |
| Calendar.CivilFromDays | Multiple_Datasets.py:1254-1256 | the civil date of a day number is a valid Gregorian date whose day number is that day |
| Calendar.CivilRoundTrip | Multiple_Datasets.py:1254-1256 | every valid civil date comes back from its own day number, so dates and day numbers correspond one to one |
| Calendar.MonthIndex | Multiple_Datasets.py:1254 | `to_period('M')`: for index `k`, `k mod 12 + 1` is the civil month and `k div 12` the civil year of the day |
| Calendar.QuarterIndex | Multiple_Datasets.py:1255 | `to_period('Q')` is the month index divided by 3; its quarter number is `(month - 1) div 3 + 1` |
| Calendar.YearOf | Multiple_Datasets.py:1256 | `.dt.year` is the month index divided by 12 |
| Calendar.DayInItsMonth | Multiple_Datasets.py:1254 | every day lies between the first day of its month and the first day of the next month |
| Calendar.MonthOfMonthStart | Multiple_Datasets.py:1254 | the first day of month `k` belongs to month `k` |
| Calendar.MonthIndexMonotone | Multiple_Datasets.py:1254 | a later day never falls in an earlier month |
| Calendar.MonthsCovered | Multiple_Datasets.py:1248-1251 | every month between the months of two days has a day between them, so a gap-free day range reaches every month in between |
| Decimal.NatToString | Multiple_Datasets.py:443 | `str(n)` of a natural number is all digits, has no leading zero, and spells `n` back |
| Decimal.IntToString | Multiple_Datasets.py:443 | `str(i)` starts with a minus sign exactly when `i` is negative, followed by the digits of `abs(i)` |
| Decimal.IntRoundTrip | Multiple_Datasets.py:962 | parsing `str(i)` gives back `i` |
| Decimal.PadDigits | Multiple_Datasets.py:564 | a zero-padded `%Y` or `%m` field is all digits and spells its number back |
| Decimal.PadOrder | Multiple_Datasets.py:564 | zero-padded numbers of one width compare as strings exactly as their values compare |
| Decimal.PadInjective | Multiple_Datasets.py:564 | two zero-padded fields of one width are equal exactly when their numbers are |
| Labels.MonthLabel | Multiple_Datasets.py:564 | the `%Y-%m` label has 7 characters with the dash at position 4 |
| Labels.MonthLabelRoundTrip | Multiple_Datasets.py:568 | `pd.to_datetime(label, format='%Y-%m')` recovers the year and month the label was made from |
| Labels.MonthIndexLabel | Multiple_Datasets.py:1254 | the label of month index `k` parses back to year `k div 12`, month `k mod 12 + 1` |
| Labels.MonthLabelOfDay | Multiple_Datasets.py:1254 | the label of a day's month spells that day's civil year and month |
| Labels.MonthLabelOrder | Multiple_Datasets.py:565 | `groupby('month')` sorts the labels as strings, and that order is the chronological order of (year, month), in both directions |
| Labels.MonthIndexLabelOrder | Multiple_Datasets.py:1258 | the same for month indices: label `k` sorts before label `k'` exactly when `k < k'` |
| Labels.QuarterLabel | Multiple_Datasets.py:1255 | the `YYYYQn` label has 6 characters with `Q` at position 4 |
| Labels.QuarterLabelRoundTrip | Multiple_Datasets.py:1255 | the quarter label parses back to its year and quarter |
| Labels.QuarterIndexLabel | Multiple_Datasets.py:571 | the label of quarter index `q` parses back to year `q div 4`, quarter `q mod 4 + 1` |
| Labels.QuarterLabelOrder | Multiple_Datasets.py:572 | `groupby('quarter')` string order on the labels is the chronological order of (year, quarter), in both directions |
| Labels.QuarterIndexLabelOrder | Multiple_Datasets.py:1261 | quarter label `q` sorts before label `q'` exactly when `q < q'` |
| Labels.UndatedSortsLast | Multiple_Datasets.py:2253-2254 | the `NaT` label an undated order gets sorts after every month and every quarter label |
| Buckets.GroupSum | Multiple_Datasets.py:1244 | `groupby(key).sum()` on integer keys: keys strictly ascending, keys exactly the images of the rows, and under any selection of keys the buckets hold the same weight as the rows mapping into them |
| Buckets.GroupSumConserves | Multiple_Datasets.py:1258 | each bucket holds exactly the weight of the rows mapping to it, and grouping keeps the total |
| Buckets.GroupByIdentity | Multiple_Datasets.py:1244 | grouping by the key itself merges equal keys without changing any sum |
| Buckets.Reindexed | Multiple_Datasets.py:1251 | `reindex(range, fill_value=0)`: one row per key of the range, in order, holding the observed value or 0 |
| Buckets.ReindexedSumIf | Multiple_Datasets.py:1251 | any selection of keys sums, over the reindexed series, to the observed weight of the selected keys inside the range |
| Buckets.ReindexedTotal | Multiple_Datasets.py:1251 | when every observation lies in the range, reindexing keeps the total |
| TimeBuckets.MinKey | Multiple_Datasets.py:1246 | `min()` of the day column is an observed day no later than any other |
| TimeBuckets.Daily | Multiple_Datasets.py:1246-1251 | `None` exactly when nothing is observed (where `date_range(NaT, today)` raises); otherwise one row per day from the first observed day to today, each holding that day's count |
| TimeBuckets.DailyAgreesWithRaw | Multiple_Datasets.py:1251 | the zero-filled daily series and the raw observations agree on every selection of days up to today |
| TimeBuckets.DailyTotal | Multiple_Datasets.py:1251 | zero-filling keeps the count of observations up to today, which is all of them when none is later |
| TimeBuckets.CountViews | Multiple_Datasets.py:1253-1262 | the day/month/quarter/year views: the rollups are ascending by period and each adds up to the daily total |
| TimeBuckets.RollupAgreesWithRaw | Multiple_Datasets.py:1258-1262 | each month, quarter or year row holds the raw count of observations up to today in that period |
| TimeBuckets.MonthlyChronological | Multiple_Datasets.py:1259-1260 | the monthly rows are in chronological order: an earlier row's days precede a later row's |
| TimeBuckets.ViewsGapFree | Multiple_Datasets.py:1258-1262 | the monthly, quarterly and yearly rollups have a row for every period from the first observed day's to today's, and no other |
| Histograms.HourSlot | Multiple_Datasets.py:1203 | `dt.hour + 1` is between 1 and 24 |
| Histograms.WeekdaySlot | Multiple_Datasets.py:1172 | `dt.dayofweek` is between 0 and 6 |
| Histograms.Observations | Multiple_Datasets.py:1205 | `dropna` then keying by slot: one observation per dated row, total equal to the dated weight, and every slot's value equal to the weight of the rows in it |
| Histograms.HoursOfDay | Multiple_Datasets.py:1204-1207 | the hour chart: 24 rows keyed 1..24, each the weight of the rows in that hour; undated rows fall out, so the total is the dated weight |
| Histograms.DaysOfWeek | Multiple_Datasets.py:1176-1178 | the intended day-of-week chart: 7 rows Monday..Sunday, each the weight of the rows on that weekday, totalling the dated weight |
| Histograms.DaysOfWeekAsWritten | Multiple_Datasets.py:1172-1173 | the chart as written: it stops exactly when some row lacks a timestamp, and otherwise equals the intended chart |
| Histograms.DaysOfWeekMissingTimestamp | Multiple_Datasets.py:1172-1173 | one dated and one undated row: the written chart stops, the intended one shows a Thursday count of 1 |
| Histograms.WeekSplit | Multiple_Datasets.py:1131-1136 | weekday plus weekend is the weight of all rows, and the weekend is the Saturday and Sunday weight; both are non-negative for non-negative weights |
| Histograms.MissingIsWeekday | Multiple_Datasets.py:1131-1133 | `NaN >= 5` is false, so an undated row adds its weight to the weekday side |
| Histograms.WeekendFromDaysOfWeek | Multiple_Datasets.py:1131-1136 | the weekend total equals the Saturday and Sunday bars of the day-of-week chart |
| Histograms.Shares | Multiple_Datasets.py:1143 | percentages: `None` exactly when the total is zero; otherwise they add up to 100, lie in [0, 100] for non-negative sides, and the weekday percentage times the total is 100 times the weekday side |
| Histograms.CountsCoverRows | Multiple_Datasets.py:1135-1136 | counting rows, weekday plus weekend is the number of rows, and the hour chart adds up to the number of dated rows |
| Groups.Distinct | Multiple_Datasets.py:2000 | `unique()`: no element twice, and exactly the elements of the input |
| Groups.CountDistinct | Multiple_Datasets.py:1110 | `nunique()` is the size of the set of values, at most the number of rows |
| Groups.FirstRows | Multiple_Datasets.py:2089 | `drop_duplicates(keep='first')`: one row per key, the same keys, only input rows, and every row whose key is new at its position is kept |
| Groups.FirstRowsSeen | Multiple_Datasets.py:2089 | appending a row whose key was already seen leaves the result unchanged |
| Groups.LastRows | Multiple_Datasets.py:1056 | `drop_duplicates(keep='last')`: one row per key, the same keys, only input rows |
| Groups.LastRowsKeepsLast | Multiple_Datasets.py:1056 | every row whose key appears in no later row is kept |
| Groups.LastRowsAreLast | Multiple_Datasets.py:1056 | every kept row is the last row of its key |
| Groups.FirstPresent | Multiple_Datasets.py:168 | `agg('first')` for one key: the first non-missing value, with no earlier value present; missing only when every value is missing |
| Groups.FirstPresentByKey | Multiple_Datasets.py:166-169 | `groupby(key).agg('first')`: one row per key, the same keys, each holding that key's first non-missing value |
| Groups.Tally | Multiple_Datasets.py:1258 | one row per key, the same keys as the input, each holding the sum of that key's weights |
| Groups.TallyTotal | Multiple_Datasets.py:1258 | the per-key sums add up to the total weight |
| Groups.DropMissing | Multiple_Datasets.py:198 | `groupby` leaves out the rows with a missing key and keeps every other pair |
| Groups.DropMissingSnoc | Multiple_Datasets.py:198 | the kept pairs stay in table order: an appended row is appended to the result exactly when its key is present |
| Groups.FirstPresentDropMissing | Multiple_Datasets.py:1388-1390 | leaving out the rows with a missing key changes no key's first present value |
| Groups.DistinctPerGroup | Multiple_Datasets.py:172 | `nunique` per group: one row per group, each the number of distinct present members |
| Groups.NuniqueBy | Multiple_Datasets.py:292 | `groupby(g)[m].nunique()`: one row per present group, each the number of distinct members of that group |
| Groups.NuniqueTotal | Multiple_Datasets.py:292 | the per-group distinct counts add up to the number of distinct (group, member) pairs |
| Groups.SumBy | Multiple_Datasets.py:197 | `groupby(g)[w].sum()`: one row per present group, each the weight of its rows; the total is the weight of the rows with a key |
| Groups.DropMissingGroup | Multiple_Datasets.py:197-198 | dropping rows with a missing key keeps every group's weight |
| Groups.DropMissingTotal | Multiple_Datasets.py:197-198 | dropping rows with a missing key keeps the weight of the keyed rows |
| Groups.MaxPerGroup | Multiple_Datasets.py:1916 | `groupby(k).max()`: one row per key, each an input row no smaller than any row of its key |
| Groups.MinPerGroup | Multiple_Datasets.py:1959 | `groupby(k).min()`: one row per key, each an input row no larger than any row of its key |
| Groups.MaxValue | Multiple_Datasets.py:1341 | `max()` of a column: `None` (NaN) for an empty table, otherwise a value that occurs and bounds every value |
| Groups.Where | Multiple_Datasets.py:1036 | a boolean mask keeps only rows of the table that satisfy the condition, and every such row |
| Groups.WhereCount | Multiple_Datasets.py:1036 | each qualifying row is kept as many times as the table holds it; every other row is dropped |
| Groups.WhereSnoc | Multiple_Datasets.py:1036 | the mask keeps table order: a row appended to the table is appended to the selection exactly when it qualifies |
| Groups.CountWhereCard | Multiple_Datasets.py:372-373 | in a table with one row per key, the rows whose value qualifies are as many as the qualifying keys |
| Ranking.SortDesc | Multiple_Datasets.py:689 | `sort_values(ascending=False)`: a permutation of the input, largest first |
| Ranking.SortDescSorted | Multiple_Datasets.py:689 | the sort is stable: an input already largest-first is returned unchanged |
| Ranking.Largest | Multiple_Datasets.py:199 | `nlargest(n)`: `min(n, len)` rows, largest first, taken from the input, and no row left out is larger than a kept one |
| Ranking.Smallest | Multiple_Datasets.py:200 | `nsmallest(n)`: `min(n, len)` rows, smallest first, taken from the input, and no row left out is smaller than a kept one |
| Ranking.LargestOfLargest | Multiple_Datasets.py:199-205 | `nlargest(top_n)` of `nlargest(50)` is `nlargest(top_n)` of the table when `top_n <= 50` |
| Ranking.SmallestOfSmallest | Multiple_Datasets.py:200-242 | the same for `nsmallest` |
| Customers.ListedCustomers | Multiple_Datasets.py:143 | card "Total listed customers": the number of distinct customer ids, at most the number of rows |
| Customers.PayingCustomers | Multiple_Datasets.py:154 | card "Paying customers": the number of distinct customer ids present in the orders; `nunique` skips a missing id |
| Customers.OrderSummary | Multiple_Datasets.py:166-169 | one row per order id, holding the order's first non-missing customer name and its first price |
| Customers.CustomerSummaries | Multiple_Datasets.py:276-283 | one row per name that is the first name of some order; "Orders Placed" is the number of such orders, and "Total Spending" is the sum of the first prices of the orders whose first name it is |
| Customers.RepeatSummary | Multiple_Datasets.py:284-285 | the summary table keeps exactly the rows with at least two orders placed |
| Customers.RepeatCustomers | Multiple_Datasets.py:165-177 | card "Repeat customers": the number of names that are the first name of at least two orders |
| Customers.RepeatCount | Multiple_Datasets.py:176-177 | the filtered table has exactly as many rows as that set of names |
| Customers.PlacedMembers | Multiple_Datasets.py:172 | `Order_ID.nunique()` per name counts exactly the orders whose first name it is |
| Customers.SpendByName | Multiple_Datasets.py:196-198 | per name, the summed price of the orders whose first line names it; a name is a row exactly when some order's first line carries it; the rows add up to the price of the named first lines |
| Customers.SpendRepeatedOrderOnce | Multiple_Datasets.py:196-198 | another line of an order already present changes no customer's spending |
| Customers.TopCustomers | Multiple_Datasets.py:199-205 | chart "Top customers": the `top_n` best spenders, largest first, and no customer left out spent more than one shown |
| Customers.LeastCustomers | Multiple_Datasets.py:200-242 | chart "Least customers": the `top_n` lowest spenders, smallest first, and no customer left out spent less than one shown |
| Customers.UniqueCustomersBy | Multiple_Datasets.py:292-295 | per present region, the number of distinct customer ids in it |
| Customers.ByProvince | Multiple_Datasets.py:292-293 | chart "Unique customers by province": one row per province present, each the number of its distinct customers |
| Customers.ByCountry | Multiple_Datasets.py:294-295 | the same per country |
| Customers.RegionWithinListed | Multiple_Datasets.py:292-295 | no province or country holds more customers than the listed-customers card counts |
| Orders.TotalOrders | Multiple_Datasets.py:1110 | card "Total orders": the number of distinct order ids, at most the number of line items |
| Orders.OrderTimes | Multiple_Datasets.py:1127 | `groupby('Order_ID').agg(first)`: one row per order, holding its first non-missing creation time |
| Orders.OrderRows | Multiple_Datasets.py:1127-1129 | one unit-weight row per order, stamped with that order's creation time |
| Orders.WeekdayWeekend | Multiple_Datasets.py:1127-1136 | weekday and weekend counts add up to the number of orders, and the weekend count is the orders on Saturday or Sunday |
| Orders.WeekdayWeekendShares | Multiple_Datasets.py:1143 | the pie percentages: `None` exactly when there are no orders, otherwise in [0, 100] and adding up to 100 |
| Orders.DaysOfWeekChart | Multiple_Datasets.py:1172-1178 | the chart as written: it stops exactly when an order has no creation time, and otherwise equals the intended chart |
| Orders.DaysOfWeekFixed | Multiple_Datasets.py:1176-1178 | the intended chart: 7 counts, Monday..Sunday, adding up to the number of dated orders |
| Orders.HoursChart | Multiple_Datasets.py:1197-1207 | 24 counts keyed 1..24, each the orders created in that hour, adding up to the number of dated orders |
| Orders.DayCounts | Multiple_Datasets.py:1242-1244 | orders per calendar day: one observation per dated order, each on a day some order was created |
| Orders.OrderViews | Multiple_Datasets.py:1236-1262 | the order page's day/month/quarter/year views: absent exactly when no order is dated; otherwise one row per day from the first order to today, and every rollup adds up to the daily total |
| Orders.CancelledLines | Multiple_Datasets.py:1338 | the card as written counts line items with a cancellation time: zero exactly when none has one |
| Orders.CancelledOrders | Multiple_Datasets.py:1338 | the intended card: the number of distinct orders with a cancellation time |
| Orders.CancelledOrdersAtMostLines | Multiple_Datasets.py:1338 | the written card never shows fewer than the intended one |
| Orders.CancelledCountedPerLine | Multiple_Datasets.py:1338 | one cancelled order with two line items: the written card shows 2, the intended card 1 |
| Orders.OrdersPerCustomer | Multiple_Datasets.py:1334 | one row per customer id present on some line, each the number of that customer's distinct orders; lines without an id fall out |
| Orders.MaxOrdersPerCustomer | Multiple_Datasets.py:1340-1341 | card "Most orders by a customer": `None` (NaN) exactly when no line carries a customer id, otherwise some customer's order count that no customer exceeds |
| Orders.MaxOverCustomers | Multiple_Datasets.py:1340-1341 | `max()` of the per-customer table is exactly that number |
| Orders.FirstPriceByName | Multiple_Datasets.py:1388-1390 | `groupby('Customer_Name').agg(first)`: one row per present name, holding the price of the first line of the table that names that customer |
| Orders.FirstNamedLine | Multiple_Datasets.py:1388-1390 | a name's first named price is the price on the first line naming it, no earlier line naming that customer |
| Orders.HighestValued | Multiple_Datasets.py:1391-1399 | chart "Highest valued orders": the `top_n` names by first price, largest first, none left out larger |
| Orders.LeastValued | Multiple_Datasets.py:1392-1431 | chart "Least valued orders": the `least_n` names by first price, smallest first, none left out smaller |
| Orders.FirstLines | Multiple_Datasets.py:1460 | `drop_duplicates('Order_ID', keep='first')`: one line per order, every order represented |
| Orders.OrdersPerSite | Multiple_Datasets.py:1460-1462 | per referring site present on an order's first line, the number of such orders; orders without a site are not counted |
| Orders.TopSites | Multiple_Datasets.py:1468-1470 | the `top_n` sites by orders, largest first, none left out larger |
| Orders.FourOrdersExample | Multiple_Datasets.py:1131-1143 | orders on a Monday, Tuesday, Saturday and Sunday split 2/2, which is 50% each |
| Checkouts.MostAbandoned | Multiple_Datasets.py:1748-1749 | card "Most abandoned by a customer": `None` exactly when no line carries a customer id, otherwise some customer's abandoned-order count that no customer exceeds |
| Checkouts.SiteLabel | Multiple_Datasets.py:1761 | `fillna('Unknown')`: the site when present, `Unknown` otherwise |
| Checkouts.AbandonedBySite | Multiple_Datasets.py:1761-1765 | one row per site label, each the number of distinct abandoned orders with a line from that site |
| Checkouts.TopAbandonedSites | Multiple_Datasets.py:1765-1768 | the `top_n` sites by abandoned orders, largest first, none left out larger |
| Checkouts.SiteWithinTotal | Multiple_Datasets.py:1763 | no site holds more abandoned orders than the abandoned-orders card counts |
| Checkouts.MissingSiteIsUnknown | Multiple_Datasets.py:1761 | an order with a line lacking the site is counted under `Unknown` |
| Journey.TotalViewers | Multiple_Datasets.py:359 | card "Total viewers": the number of distinct IPs |
| Journey.MaxSessions | Multiple_Datasets.py:501 | `groupby('Customer_IP')['session'].max()`: one row per IP, holding a session number of that IP that no row of it exceeds; as many rows as viewers |
| Journey.RepeatViewers | Multiple_Datasets.py:371-373 | card "Repeat viewers": the number of IPs with a session number of at least 2 |
| Journey.RepeatCount | Multiple_Datasets.py:372-373 | the rows of the per-IP maximum table with a session of at least 2 are exactly those IPs |
| Journey.RepeatViewerExample | Multiple_Datasets.py:371-373 | an IP with rows in sessions 1, 1 and 2 has maximum session 2 and is counted as a repeat viewer |
| Journey.TotalSessions | Multiple_Datasets.py:385-386 | card "Total sessions": the sum, over the distinct IPs, of each IP's highest session number |
| Journey.HighestSession | Multiple_Datasets.py:385 | an IP's highest session number: absent exactly when the IP has no row, otherwise attained by one of its rows and exceeded by none |
| Journey.SessionsAtLeast | Multiple_Datasets.py:371-386 | with session numbers starting at 1, the total is at least the viewers plus the repeat viewers |
| Journey.SessionStarts | Multiple_Datasets.py:416 | `groupby(['Customer_IP', 'session']).first()`: one input row per session, as many as there are sessions |
| Journey.SessionWeekSplit | Multiple_Datasets.py:411-418 | session weekday and weekend counts add up to the number of sessions; the weekend ones are the sessions whose first row is on Saturday or Sunday |
| Journey.SessionShares | Multiple_Datasets.py:421-426 | the session percentages: `None` exactly when there are no events, otherwise in [0, 100] and adding up to 100 |
| Journey.ConvertSeconds | Multiple_Datasets.py:440-442 | `convert_seconds`: minutes 0..59, and hours and minutes name the minute that contains the duration |
| Journey.ConvertSecondsUnique | Multiple_Datasets.py:440-442 | those are the only hours and minutes with that property |
| Journey.DurationTextInjective | Multiple_Datasets.py:443 | two durations get the same "h hr m mini" text exactly when they are in the same whole minute |
| Journey.SessionDurations | Multiple_Datasets.py:446-449 | one row per (session, IP), each the summed time on page of its rows; the rows add up to the whole column |
| Journey.TotalDuration | Multiple_Datasets.py:449-451 | card "Total session duration": the duration text of the summed time on page |
| Journey.TopSessions | Multiple_Datasets.py:488-493 | table "Top 10": the ten longest sessions, longest first, none left out longer |
| JourneyPages.TopSessionTable | Multiple_Datasets.py:488-499 | the table as shown: per top session its IP, its total time as `convert_seconds` writes it, and the day of its first dated row, missing exactly when none of its rows is dated; the session number is dropped |
| JourneyPages.SessionStartTime | Multiple_Datasets.py:488-491 | a session's `first` event time: present exactly when one of its rows is dated, and then the time of its first dated row |
| JourneyPages.StartDay | Multiple_Datasets.py:491 | `.dt.date` of that time: the calendar day of the session's first dated row |
| Journey.TopSessionIps | Multiple_Datasets.py:511-512 | chart "Maximum sessions per IP": `top_n` IPs by maximum session, largest first, none left out larger |
| Journey.SessionDays | Multiple_Datasets.py:551 | one dated row per (IP, day, session), covering every such triple of the dated rows |
| Journey.SessionDayCounts | Multiple_Datasets.py:551-552 | one unit observation per distinct (IP, day, session), keyed by a day some event happened |
| Journey.SessionDayTotal | Multiple_Datasets.py:552 | the observations add up to the number of distinct (IP, day, session) triples |
| Journey.SessionDayValue | Multiple_Datasets.py:552 | each day's value is the number of (IP, session) pairs active that day |
| Journey.SessionViews | Multiple_Datasets.py:547-575 | the session views: absent exactly when no event is dated; otherwise one row per day from the first event to today, and every rollup adds up to the daily total |
| Journey.SessionViewsTotal | Multiple_Datasets.py:556-559 | when no event is dated after today, the daily series adds up to all (IP, day, session) triples |
| JourneyPages.UniqueVisitors | Multiple_Datasets.py:687-692 | `groupby(name)['Customer_IP'].nunique()`: one row per present name, each the number of distinct IPs that viewed it, between 1 and the number of viewers |
| JourneyPages.TopProducts | Multiple_Datasets.py:689-702 | chart "Most popular products": `top_n` products by unique visitors, largest first, none left out larger |
| JourneyPages.TopCollections | Multiple_Datasets.py:692-741 | the same for collections |
| JourneyPages.CartAdds | Multiple_Datasets.py:773 | exactly the rows with event `Cart Add` |
| JourneyPages.CartVisitors | Multiple_Datasets.py:773-775 | per product name, the number of distinct IPs that added it to the cart |
| JourneyPages.TopCartProducts | Multiple_Datasets.py:798-801 | chart "Most added to cart": `top_n` (10..50) products, largest first, none left out larger |
| JourneyPages.TotalCartAdds | Multiple_Datasets.py:832-839 | card total: the number of distinct (product, IP) cart adds; zero exactly when no cart add names a product |
| JourneyPages.SessionFirstTimes | Multiple_Datasets.py:863 | one row per session, holding the time of its first dated row, missing exactly when the session has no dated row |
| JourneyPages.FirstTimesDated | Multiple_Datasets.py:859-863 | the sessions with a first time are exactly the sessions with a dated row |
| JourneyPages.SlotCount | Multiple_Datasets.py:864 | with one row per session, a slot's count is the number of sessions whose first dated time falls in it |
| JourneyPages.PresentCount | Multiple_Datasets.py:864 | the dated rows of that table count the sessions that have a time |
| JourneyPages.SessionStartDays | Multiple_Datasets.py:858-865 | sessions per weekday of their first dated event, adding up to the number of dated sessions |
| JourneyPages.SessionStartHours | Multiple_Datasets.py:889-894 | sessions per hour (1..24) of their first dated event, adding up to the number of dated sessions |
| JourneyPages.PageRows | Multiple_Datasets.py:1054 | for each of the four pages, its group is exactly its rows and the same IPs |
| JourneyPages.TimePerPage | Multiple_Datasets.py:916-921 | at most four rows, one per page viewed, each the summed time of that page's rows |
| JourneyPages.ViewersPerPage | Multiple_Datasets.py:993-996 | at most four rows, one per page viewed, each the number of distinct IPs that viewed it |
| JourneyPages.TimePerCollection | Multiple_Datasets.py:978-979 | per collection, its summed time, largest first, a permutation of the group sums |
| JourneyPages.ProductKeysApart | Multiple_Datasets.py:962-963 | with the intended clean-up, two products with different ids never share a group |
| JourneyPages.TimePerProduct | Multiple_Datasets.py:962-964 | the table as written: per (id text after the `.0` clean-up, name), the summed time, largest first, a permutation of the group sums |
| JourneyPages.TimePerProductIntended | Multiple_Datasets.py:962-964 | the intended table: the same grouped by (id with only the float suffix removed, name), so distinct ids keep distinct rows |
| JourneyPages.TimePerProductMerges | Multiple_Datasets.py:962-964 | products 10 and 20, both named "Mug", 5 seconds each: as written one row (("", "Mug"), 10); the intended keys differ |
| JourneyPages.OneProductRow | Multiple_Datasets.py:963-964 | when every row falls under one key, the table as written is that key with all the time |
| JourneyPages.ShortKeys | Multiple_Datasets.py:1035-1036 | the IPs whose total time is under 30 seconds are exactly the qualifying rows of the per-IP table |
| JourneyPages.ShortVisitCounts | Multiple_Datasets.py:1035-1038 | the per-IP table has one row per viewer; the short-visit IPs are at most the viewers; there are no viewers exactly when there are no events |
| JourneyPages.ShortVisitRate | Multiple_Datasets.py:1035-1039 | the short-visit percentage of all viewers; `None` exactly when there are no events |
| JourneyPages.Percent | Multiple_Datasets.py:1039 | `part / whole * 100`: `None` exactly for a zero whole, within [0, 100] when `part <= whole`, and the result times the whole is 100 times the part |
| JourneyPages.LastPageViews | Multiple_Datasets.py:1053-1056 | one row per session that viewed one of the four pages, each one of that session's page-view rows; `BouncedIpsLast` shows it is the session's last |
| JourneyPages.BouncedIpsLast | Multiple_Datasets.py:1056-1062 | an IP bounced on a page exactly when some session's last page view is on that page and lasted under 10 seconds |
| JourneyPages.BounceRate | Multiple_Datasets.py:1058-1064 | the bounced share of a page's distinct visitors: 0 when nobody viewed the page, within [0, 100], and the rate times the visitors is 100 times the bounced IPs |
| JourneyPages.IpsBounded | Multiple_Datasets.py:1061 | no group holds more IPs than the total-viewers card |
| ProductIds.Render | Multiple_Datasets.py:962 | `astype(str)` of an id: `nan` for a missing one, and a `.0` suffix exactly when the column is float |
| ProductIds.StripAsWritten | Multiple_Datasets.py:962 | `replace(".0", "", regex=True)` only deletes characters, two at a time, keeping the order of the rest; a text with no `0` after its first character is unchanged |
| ProductIds.StripAsWrittenMerges | Multiple_Datasets.py:962 | as written, ids 10 and 20 both become the empty string and 1203 becomes `13` |
| ProductIds.StripSuffix | Multiple_Datasets.py:962 | the intended clean-up removes a trailing `.0` and nothing else |
| ProductIds.KeyOfPresent | Multiple_Datasets.py:962 | after the intended clean-up an id reads as plain `str(id)` whatever the column type |
| ProductIds.KeyInjective | Multiple_Datasets.py:962-963 | after the intended clean-up distinct ids keep distinct keys, and none equals the key of a missing id |
| Products.PublishedRows | Multiple_Datasets.py:1795 | `dropna(subset=['Product_Published_At'])`: exactly the published rows |
| Products.TotalProducts | Multiple_Datasets.py:1795-1796 | card "Total products": the number of distinct ids among the published rows |
| Products.TypeOf | Multiple_Datasets.py:1827 | an empty type becomes `No Type`, any other type is kept as it is, and a missing type stays missing |
| Products.TypeCounts | Multiple_Datasets.py:1826-1830 | one row per type of a published row (never the empty type), each the number of distinct ids of that type |
| Products.TypeCountsTotal | Multiple_Datasets.py:1829 | the type counts add up to the number of distinct (type, id) pairs |
| Products.TopTypes | Multiple_Datasets.py:1835-1837 | `min(top_n, len(table))` types by count, largest first, none left out larger (the whole table when `top_n`, default 5, exceeds it) |
| Products.UnitsSold | Multiple_Datasets.py:1869 | one row per product name present, each the summed quantity of its lines (a missing quantity counts 0); the rows add up to the quantity of the named lines |
| Products.NamedUnits | Multiple_Datasets.py:1869 | the group-by adds up exactly the quantity of the lines that have a product name |
| Products.MostSold | Multiple_Datasets.py:1871-1879 | chart "Most sold": the `min(top_n, len(table))` names with the most units, largest first, none left out larger |
| Products.PriceRows | Multiple_Datasets.py:1913-1915 | one (id, title) key and variant price per published row |
| Products.MaxPrices | Multiple_Datasets.py:1913-1918 | one row per published (id, title), holding the largest of its variant prices |
| Products.MinPrices | Multiple_Datasets.py:1955-1961 | one row per published (id, title), holding the smallest of its variant prices |
| Products.MostPriced | Multiple_Datasets.py:1918-1925 | chart "Most priced": the `min(top_n, len(table))` dearest products, dearest first, none left out dearer |
| Products.LeastPricedAsWritten | Multiple_Datasets.py:1957-1969 | the chart as written: the first `min(top_n, len(table))` rows of the table ordered by id, which need not be the cheapest |
| Products.LeastPriced | Multiple_Datasets.py:1963 | the intended chart: the `min(top_n, len(table))` cheapest products, cheapest first, none left out cheaper |
| Products.LeastPricedShowsFirstId | Multiple_Datasets.py:1957-1969 | product 1 at 5.00 and product 2 at 1.00: as written the chart shows product 1, as intended product 2 |
| Products.UnsoldRows | Multiple_Datasets.py:1999-2004 | one row per distinct (id, title, publication text) of the published products whose id no order line carries |
| Products.UnsoldProducts | Multiple_Datasets.py:2004-2011 | `None` exactly when some row's date part does not parse; otherwise those rows with the date of their date part, earliest first |
| Products.UnsoldPartition | Multiple_Datasets.py:2000-2003 | the ids in the grouped table, and in the listed table, are exactly the published ids minus the sold ids |
| Products.DatePart | Multiple_Datasets.py:2006-2007 | `split("T").str[0]`: the longest prefix without a `T`, followed in the text by a `T` when shorter |
| Products.DatePartOfJoin | Multiple_Datasets.py:2006-2007 | a date joined to a time by `T` splits back into that date |
| Products.LocalDateListed | Multiple_Datasets.py:2006-2010 | `2023-03-01T23:30:00-05:00` is listed under 1 March, its local date, not 2 March (UTC) |
| Revenue.RevenueRows | Multiple_Datasets.py:2089 | as many (creation time, price) rows as there are distinct orders, one from each order's first line |
| Revenue.TotalRevenue | Multiple_Datasets.py:2089-2090 | card "Total revenue": the summed price of the distinct orders, non-negative for non-negative prices |
| Revenue.RepeatedOrderCountedOnce | Multiple_Datasets.py:2089-2090 | another line of an order already present does not change the total |
| Revenue.SpendAddsUpToRevenue | Multiple_Datasets.py:196-198 | when every order names its customer, the customers' spending adds up to the total revenue |
| Revenue.WeekdayWeekendRevenue | Multiple_Datasets.py:2141-2146 | weekday and weekend revenue add up to the total, and the weekend revenue is that of the orders on Saturday or Sunday |
| Revenue.RevenueShares | Multiple_Datasets.py:2153 | the revenue percentages: `None` exactly for a zero total, otherwise adding up to 100 and within [0, 100] for non-negative sides |
| Revenue.RevenueByDayOfWeekAsWritten | Multiple_Datasets.py:2178-2179 | the chart as written stops exactly when an order has no creation time, and otherwise equals the intended chart |
| Revenue.RevenueByDayOfWeek | Multiple_Datasets.py:2173-2185 | the intended chart: 7 revenue totals, Monday..Sunday, adding up to the dated revenue |
| Revenue.RevenueByHour | Multiple_Datasets.py:2207-2215 | 24 revenue totals keyed 1..24, adding up to the dated revenue |
| Revenue.ChartsMissOnlyUndated | Multiple_Datasets.py:2173-2215 | the day-of-week and hour charts miss exactly the revenue of the undated orders |
| Revenue.RollupRows | Multiple_Datasets.py:2252-2261 | day, month, quarter and year tables: ascending keys, each day only where an order was made (no zero-fill), each period summing to the dated revenue, and a `NaT` month/quarter group exactly when some order is undated, holding that revenue |
| Revenue.Rollups | Multiple_Datasets.py:2247-2261 | the monthly and quarterly rollups, with the `NaT` group, add up to the total revenue |
| Revenue.RollupsAccountForAll | Multiple_Datasets.py:2253-2260 | for any rows, the month and quarter tables with the `NaT` group add up to the weight of all rows |
| Revenue.DaysObserved | Multiple_Datasets.py:2258 | every day in the daily revenue table has an order on it |
| Revenue.MonthsFromDays | Multiple_Datasets.py:2258-2259 | regrouping the daily table by month gives the monthly table |
| Revenue.RevenueBySite | Multiple_Datasets.py:2344-2346 | per referring site on an order's first line, the summed price of those orders; the rows add up to the revenue of the orders with a site |
| Revenue.TopRevenueSites | Multiple_Datasets.py:2352-2354 | the `top_n` sites by revenue, largest first, none left out larger |
| DateFilter.Midnight | Multiple_Datasets.py:130-131 | a picked date as a UTC timestamp: midnight, on that calendar day |
| DateFilter.FilterByDate | Multiple_Datasets.py:129-135 | with both dates, exactly the rows between midnight of the start and midnight of the end, each as often as in the table: every row of the start day up to the day before the end, and no row of the end day after midnight; without dates, the table unchanged |
| DateFilter.FilterIdempotent | Multiple_Datasets.py:132-133 | filtering again with the same dates changes nothing |
| DateFilter.FiltersSnoc | Multiple_Datasets.py:133 | both filters keep table order: an appended row is appended to the result exactly when it is selected |
| DateFilter.DefaultWindow | Multiple_Datasets.py:125-126 | the default dates are the first and last day of the column: none exactly when nothing is dated, otherwise they bound every dated row and both are attained |
| DateFilter.DefaultFilter | Multiple_Datasets.py:125-134 | with the default dates the filter keeps only input rows, all of them dated |
| DateFilter.DefaultFilterDropsLastDay | Multiple_Datasets.py:133 | rows at midnight and 01:00 of 1970-01-01: the default window is that one day, and the written filter drops the 01:00 row that the intended one keeps |
| DateFilter.FilterWholeDays | Multiple_Datasets.py:133 | the intended filter: exactly the rows whose calendar day lies between the two dates, both included, each as often as in the table |
| DateFilter.DefaultFilterWholeDays | Multiple_Datasets.py:125-133 | with the default dates the intended filter keeps exactly the dated rows, each as often as in the table |

## Left out

- Page layout, CSS, cards' HTML, Altair chart styling, tooltips, and the sidebar navigation: presentation only.
- The table loader and its `pd.to_datetime` parsing (Multiple_Datasets.py:106-122). The tables come in already typed. An unparsable timestamp arrives as `None`, which is what `errors='coerce'` produces.
- The word cloud of product names (780-786): image rendering.
- The price-range binning chart (2019-2052): floating-point bin edges.
- Averages and rounding: average session time (450, 455-456), mean time per event (919), average orders per customer (1335-1336), average order value (1344-1345), average abandoned orders (1736), average products per customer (1791-1793), average revenue and total refund (2092-2094), and every `round(…, 2)`. These are float means and sums of float columns. The counts and sums they divide are modelled.
- Widget state: sliders and date pickers become parameters. The rankings whose slider runs up to `len(table)` accept any `n` and return `min(n, |table|)` rows, as `nlargest`, `nsmallest` and `head` do. That covers the default 5 on a shorter table and the empty table. Whether Streamlit accepts a default outside the slider's range is not modelled.
- Tie order among equal values in `nlargest`, `nsmallest` and `sort_values`. The model breaks ties stably; pandas does not promise this for the default quicksort.
- `drop_duplicates(keep='last')` after the two-column sort at 1055 is modelled on the rows in file order. This relies on pandas' multi-column sort being stable.
- The row order of a `groupby` result. The model keeps first-seen order. pandas sorts the keys, which only matters for display, except where the model states it (`Buckets`, `Labels`).
- Order ids, IPs, session numbers, order total prices, product ids in orders, product titles, variant prices and customer-table ids are plain values, assumed always present. The exports always fill them, and the code never guards against them missing. Customer ids, customer names, product names, quantities, product types, timestamps and referring sites can be missing and are `Option`s.
- Products.TypeOf: a missing (NaN) type is dropped by the group-by and is not replaced by `No Type`; only a literal empty string is.
- DateFilter.DefaultWindow: returns `None` when no row is dated. pandas gives `NaT` for both dates there and hands them to the date pickers. The model does not follow the pickers' behaviour on `NaT`.
- TimeBuckets.Daily: returns `None` for an empty series. `pd.date_range(NaT, today)` raises there.
- Revenue.RevenueShares: does not state the exact ratio of each percentage to its side. `Histograms.Shares`, which it calls, does state it.
- Journey.SessionShares: returns `None` when there are no events. The code divides by zero there and stops.
- JourneyPages.ShortVisitRate: returns `None` when there are no viewers. The code divides by zero there (1039) and stops.
- Products.UnsoldProducts: `toDate` stands for `pd.to_datetime` on the date part; it is a parameter, and its reading of date texts is not modelled.
- Money is exact integer cents. The source sums floats, whose rounding is not modelled.

## Findings

| source | as written | input that shows it | evidently intended | confidence | as-written member | corrected member |
|---|---|---|---|---|---|---|
| Multiple_Datasets.py:1172-1173 | the day name is looked up with `dayofweek`, which is a float once any creation time is `NaT`, so the list index raises and the order page stops | one order at 1970-01-01 and one order with no parsable creation time | count the dated orders only, as the session chart does after `dropna` (859) | not executed | Histograms.DaysOfWeekAsWritten | Histograms.DaysOfWeek |
| Multiple_Datasets.py:1172-1178 | the order page's day-of-week chart stops on any undated order | an order without `Order_Created_At` | 7 counts over the dated orders | not executed | Orders.DaysOfWeekChart | Orders.DaysOfWeekFixed |
| Multiple_Datasets.py:2178-2179 | the revenue day-of-week chart stops the same way | an order without `Order_Created_At` | 7 revenue totals over the dated orders | not executed | Revenue.RevenueByDayOfWeekAsWritten | Revenue.RevenueByDayOfWeek |
| Multiple_Datasets.py:1338 | "Total cancelled orders" counts line items with a cancellation time | one cancelled order with two line items shows 2 | count distinct cancelled order ids | not executed | Orders.CancelledLines | Orders.CancelledOrders |
| Multiple_Datasets.py:962 | `replace(".0", "", regex=True)` removes any character followed by `0`, not just the float suffix | ids 10 and 20 in a float column both become the empty string | strip a trailing `.0` only | not executed | ProductIds.StripAsWritten | ProductIds.StripSuffix |
| Multiple_Datasets.py:1969 | "Least priced products" shows the head of the table ordered by id, not by price | product 1 at 5.00 and product 2 at 1.00, top 1 | the `top_n` cheapest products | not executed | Products.LeastPricedAsWritten | Products.LeastPriced |
| Multiple_Datasets.py:962-964 | the id clean-up deletes every character followed by `0`, so products whose ids clean up alike share a row of the time-per-product table | products 10 and 20, both named "Mug", 5 seconds each, no id missing: one row (("", "Mug"), 10) | one row per product | not executed | JourneyPages.TimePerProduct | JourneyPages.TimePerProductIntended |
| Multiple_Datasets.py:133 | the end date is compared as midnight, so the end day's rows after 00:00 are dropped | rows at 00:00 and 01:00 of the same last day, default dates | keep the whole end day | not executed | DateFilter.FilterByDate | DateFilter.FilterWholeDays |

Each finding has a lemma that exhibits it:

- `Histograms.DaysOfWeekMissingTimestamp` for the day-of-week rows;
- `Orders.CancelledCountedPerLine` for the cancelled-orders row;
- `ProductIds.StripAsWrittenMerges` for the Product_ID row;
- `JourneyPages.TimePerProductMerges` for the time-per-product row;
- `Products.LeastPricedShowsFirstId` for the least-priced row;
- `DateFilter.DefaultFilterDropsLastDay` for the date-filter row.

The first lemma exhibits the crash. The others show the discrepancy on the
named input.

The matching corrected members carry the intended property:

- `DaysOfWeek` and its order and revenue versions total the dated weight;
- `CancelledOrders` counts distinct ids and never exceeds the line count (`Orders.CancelledOrdersAtMostLines`);
- `KeyInjective` keeps distinct ids apart, and `ProductKeysApart` keeps distinct products in distinct rows of `TimePerProductIntended`;
- `LeastPriced` is the `nsmallest` by price;
- `FilterWholeDays` keeps exactly the rows on the chosen days.
