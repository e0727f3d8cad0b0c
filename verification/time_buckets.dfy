/** The time-bucketing engine: per-day series zero-filled from the earliest
    observed day through "today", and its month, quarter and year rollups.
    The dashboard builds this three times (orders, abandoned checkouts,
    journey sessions) from observations (day number, value). */
module TimeBuckets {
  import opened Options
  import opened Buckets
  import Calendar

  /** The earliest observed key (pandas `min()` of the day column). */
  function MinKey(s: Series): (m: int)
    requires |s| > 0
    ensures HasKey(s, m)
    ensures forall i :: 0 <= i < |s| ==> m <= s[i].0
    decreases |s|
  {
    if |s| == 1 then s[0].0
    else
      var n := |s| - 1;
      var m' := MinKey(s[..n]);
      assert forall i :: 0 <= i < n ==> s[..n][i] == s[i];
      if s[n].0 < m' then s[n].0 else m'
  }

  /** Number of days in the inclusive range [start, today]; pandas'
      `date_range(start, today)` is empty when start is after today. */
  function SpanLength(start: int, today: int): nat {
    if today < start then 0 else today - start + 1
  }

  /** Zero-filled daily series: exactly one entry per calendar day from the
      earliest observed day through `today` inclusive, each holding the sum
      of that day's observations (0 for a day without any). There is none
      when nothing is observed: the source cannot pick a start day then. */
  function Daily(obs: Series, today: int): (r: Option<Series>)
    ensures r.None? <==> |obs| == 0
    ensures r.Some? ==> |r.value| == SpanLength(MinKey(obs), today)
    ensures r.Some? ==> forall i :: 0 <= i < |r.value| ==>
      r.value[i].0 == MinKey(obs) + i && r.value[i].1 == ValueAt(obs, MinKey(obs) + i)
  {
    if |obs| == 0 then None
    else
      var start := MinKey(obs);
      Some(Reindexed(obs, start, SpanLength(start, today)))
  }

  /** Observed on or before `today`. */
  function UpTo(p: int -> bool, today: int): int -> bool {
    x => p(x) && x <= today
  }

  /** Summing the daily series over any set of days equals summing the raw
      observations on those days, except the ones after `today`, which the
      reindex drops. */
  lemma DailyAgreesWithRaw(obs: Series, today: int, p: int -> bool)
    requires |obs| > 0
    ensures SumIf(Daily(obs, today).value, p) == SumIf(obs, UpTo(p, today))
  {
    var start := MinKey(obs);
    var n := SpanLength(start, today);
    ReindexedSumIf(obs, start, n, p);
    SumIfAgree(obs, Within(p, start, start + n), UpTo(p, today));
  }

  /** Conservation of totals: the daily series adds up to every observation
      up to `today`, and to all of them when none lies in the future. */
  lemma DailyTotal(obs: Series, today: int)
    requires |obs| > 0
    ensures Total(Daily(obs, today).value) == SumIf(obs, UpTo(Any(), today))
    ensures (forall i :: 0 <= i < |obs| ==> obs[i].0 <= today) ==>
      Total(Daily(obs, today).value) == Total(obs)
  {
    DailyAgreesWithRaw(obs, today, Any());
    if forall i :: 0 <= i < |obs| ==> obs[i].0 <= today {
      SumIfAgree(obs, UpTo(Any(), today), Any());
    }
  }

  /** The four views the dashboard offers over one zero-filled daily series. */
  datatype Views = Views(perDay: Series, perMonth: Series, perQuarter: Series, perYear: Series)

  /** Daily series plus its month, quarter and year rollups (pandas groupby on
      the "YYYY-MM", "YYYYQn" and year labels of the reindexed days). */
  function CountViews(obs: Series, today: int): (r: Option<Views>)
    ensures r.None? <==> |obs| == 0
    ensures r.Some? ==> r.value.perDay == Daily(obs, today).value
    ensures r.Some? ==> Ascending(r.value.perMonth) && Ascending(r.value.perQuarter) && Ascending(r.value.perYear)
    ensures r.Some? ==> Total(r.value.perMonth) == Total(r.value.perDay)
    ensures r.Some? ==> Total(r.value.perQuarter) == Total(r.value.perDay)
    ensures r.Some? ==> Total(r.value.perYear) == Total(r.value.perDay)
  {
    match Daily(obs, today)
    case None => None
    case Some(days) =>
      GroupSumConserves(days, Calendar.MonthIndex, 0);
      GroupSumConserves(days, Calendar.QuarterIndex, 0);
      GroupSumConserves(days, Calendar.YearOf, 0);
      Some(Views(days,
                 GroupSum(days, Calendar.MonthIndex),
                 GroupSum(days, Calendar.QuarterIndex),
                 GroupSum(days, Calendar.YearOf)))
  }

  /** Rolling up the zero-filled days gives, for every bucket, the same value
      as rolling up the raw observations directly (up to `today`). */
  lemma RollupAgreesWithRaw(obs: Series, today: int, bucket: int -> int, k: int)
    requires |obs| > 0
    ensures ValueAt(GroupSum(Daily(obs, today).value, bucket), k) == SumIf(obs, UpTo(Pre(Eq(k), bucket), today))
  {
    var days := Daily(obs, today).value;
    GroupSumConserves(days, bucket, k);
    DailyAgreesWithRaw(obs, today, Pre(Eq(k), bucket));
  }

  /** Month buckets are chronological: every day of an earlier bucket precedes
      every day of a later one. */
  lemma MonthlyChronological(obs: Series, today: int, i: int, j: int, d1: int, d2: int)
    requires |obs| > 0
    requires 0 <= i < j < |CountViews(obs, today).value.perMonth|
    requires Calendar.MonthIndex(d1) == CountViews(obs, today).value.perMonth[i].0
    requires Calendar.MonthIndex(d2) == CountViews(obs, today).value.perMonth[j].0
    ensures d1 < d2
  {
    if d2 <= d1 {
      Calendar.MonthIndexMonotone(d2, d1);
    }
  }

  /** A rollup of a gap-free run of days [lo, hi] into month-aligned buckets
      (months, quarters = 3 months, years = 12 months) is itself gap-free: its
      keys are exactly the buckets from lo's through hi's. */
  lemma RollupGapFree(days: Series, lo: int, hi: int, bucket: int -> int, c: int)
    requires lo <= hi && |days| == hi - lo + 1
    requires forall i :: 0 <= i < |days| ==> days[i].0 == lo + i
    requires c == 1 || c == 3 || c == 12
    requires forall d :: bucket(d) == Calendar.MonthIndex(d) / c
    ensures forall q :: HasKey(GroupSum(days, bucket), q) <==> bucket(lo) <= q <= bucket(hi)
  {
    forall q
      ensures HasKey(GroupSum(days, bucket), q) <==> bucket(lo) <= q <= bucket(hi)
    {
      if HasKey(GroupSum(days, bucket), q) {
        var i :| 0 <= i < |days| && bucket(days[i].0) == q;
        BucketWithin(lo, days[i].0, hi, bucket, c);
      }
      if bucket(lo) <= q <= bucket(hi) {
        var i := BucketReached(days, lo, hi, bucket, c, q);
      }
    }
  }

  /** A day in [lo, hi] has its bucket between lo's and hi's. */
  lemma BucketWithin(lo: int, d: int, hi: int, bucket: int -> int, c: int)
    requires lo <= d <= hi
    requires c == 1 || c == 3 || c == 12
    requires forall d :: bucket(d) == Calendar.MonthIndex(d) / c
    ensures bucket(lo) <= bucket(d) <= bucket(hi)
  {
    Calendar.MonthIndexMonotone(lo, d);
    Calendar.MonthIndexMonotone(d, hi);
    DivMonotone(Calendar.MonthIndex(lo), Calendar.MonthIndex(d), c);
    DivMonotone(Calendar.MonthIndex(d), Calendar.MonthIndex(hi), c);
  }

  /** Every bucket between lo's and hi's holds one of the days. */
  lemma BucketReached(days: Series, lo: int, hi: int, bucket: int -> int, c: int, q: int) returns (i: int)
    requires lo <= hi && |days| == hi - lo + 1
    requires forall i :: 0 <= i < |days| ==> days[i].0 == lo + i
    requires c == 1 || c == 3 || c == 12
    requires forall d :: bucket(d) == Calendar.MonthIndex(d) / c
    requires bucket(lo) <= q <= bucket(hi)
    ensures 0 <= i < |days| && bucket(days[i].0) == q
  {
    Calendar.MonthIndexMonotone(lo, hi);
    var k := MonthWithBucket(Calendar.MonthIndex(lo), Calendar.MonthIndex(hi), q, c);
    Calendar.MonthsCovered(lo, hi, k);
    var day :| lo <= day <= hi && Calendar.MonthIndex(day) == k;
    i := day - lo;
    assert days[i].0 == day;
  }

  lemma DivMonotone(a: int, b: int, c: int)
    requires a <= b
    requires c == 1 || c == 3 || c == 12
    ensures a / c <= b / c
  {
  }

  /** A month in [lo, hi] whose bucket of `c` months is `q`. */
  lemma MonthWithBucket(lo: int, hi: int, q: int, c: int) returns (k: int)
    requires lo <= hi
    requires c == 1 || c == 3 || c == 12
    requires lo / c <= q <= hi / c
    ensures lo <= k <= hi && k / c == q
  {
    if c == 1 {
      k := q;
    } else if c == 3 {
      assert 3 * q <= 3 * (hi / 3) <= hi;
      k := if 3 * q < lo then lo else 3 * q;
    } else {
      assert 12 * q <= 12 * (hi / 12) <= hi;
      k := if 12 * q < lo then lo else 12 * q;
    }
  }

  /** The three rollups of a non-empty span are gap-free. */
  lemma ViewsGapFree(obs: Series, today: int)
    requires |obs| > 0 && MinKey(obs) <= today
    ensures forall q :: HasKey(CountViews(obs, today).value.perMonth, q) <==>
      Calendar.MonthIndex(MinKey(obs)) <= q <= Calendar.MonthIndex(today)
    ensures forall q :: HasKey(CountViews(obs, today).value.perQuarter, q) <==>
      Calendar.QuarterIndex(MinKey(obs)) <= q <= Calendar.QuarterIndex(today)
    ensures forall q :: HasKey(CountViews(obs, today).value.perYear, q) <==>
      Calendar.YearOf(MinKey(obs)) <= q <= Calendar.YearOf(today)
  {
    var days := Daily(obs, today).value;
    var lo := MinKey(obs);
    assert forall d :: Calendar.MonthIndex(d) == Calendar.MonthIndex(d) / 1;
    RollupGapFree(days, lo, today, Calendar.MonthIndex, 1);
    assert forall d :: Calendar.QuarterIndex(d) == Calendar.MonthIndex(d) / 3;
    RollupGapFree(days, lo, today, Calendar.QuarterIndex, 3);
    assert forall d :: Calendar.YearOf(d) == Calendar.MonthIndex(d) / 12;
    RollupGapFree(days, lo, today, Calendar.YearOf, 12);
  }
}
