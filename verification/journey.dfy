/** The customer-journey page: one row per page-view event, grouped by
    visitor IP and by the IP's session number. */
module Journey {
  import opened Options
  import opened Tables
  import opened Groups
  import opened Buckets
  import opened Histograms
  import opened TimeBuckets
  import Ranking
  import Calendar
  import Decimal
  import ProductIds

  function Ip(v: Visit): string { v.ip }

  /** A session is identified by the IP and its session number. */
  function SessionOf(v: Visit): (string, int) { (v.ip, v.session) }

  /** Card "Total Viewers": the number of distinct IPs. */
  function TotalViewers(vs: seq<Visit>): (n: nat)
    ensures n == |set v | v in vs :: v.ip|
    ensures n <= |vs|
  {
    var ips := seq(|vs|, i requires 0 <= i < |vs| => vs[i].ip);
    assert (set x | x in ips) == (set v | v in vs :: v.ip) by {
      forall x | x in ips ensures x in (set v | v in vs :: v.ip) {
        var i :| 0 <= i < |ips| && ips[i] == x;
        assert vs[i] in vs;
      }
      forall v | v in vs ensures v.ip in ips {
        var i :| 0 <= i < |vs| && vs[i] == v;
        assert ips[i] == v.ip;
      }
    }
    CountDistinct(ips)
  }

  /** The IP column. */
  function Ips(vs: seq<Visit>): (r: seq<string>)
    ensures |r| == |vs| && forall i :: 0 <= i < |vs| ==> r[i] == vs[i].ip
  {
    seq(|vs|, i requires 0 <= i < |vs| => vs[i].ip)
  }

  function SessionNumbers(vs: seq<Visit>): (r: seq<(string, int)>)
    ensures |r| == |vs| && forall i :: 0 <= i < |vs| ==> r[i] == (vs[i].ip, vs[i].session)
  {
    seq(|vs|, i requires 0 <= i < |vs| => (vs[i].ip, vs[i].session))
  }

  /** `groupby('Customer_IP')['session'].max()` (the row `idxmax` picks
      carries that same number): per IP, its highest session number. */
  function MaxSessions(vs: seq<Visit>): (r: seq<(string, int)>)
    ensures forall i, j :: 0 <= i < j < |r| ==> r[i].0 != r[j].0
    ensures forall ip :: ip in Keys(r) <==> exists v :: v in vs && v.ip == ip
    ensures forall i :: 0 <= i < |r| ==> exists v :: v in vs && v.ip == r[i].0 && v.session == r[i].1
    ensures forall i, v :: 0 <= i < |r| && v in vs && v.ip == r[i].0 ==> v.session <= r[i].1
    ensures |r| == TotalViewers(vs)
    ensures Keys(r) == Distinct(Ips(vs))
  {
    var s := SessionNumbers(vs);
    var r := MaxPerGroup(s);
    SessionIps(vs);
    forall i | 0 <= i < |r| ensures exists v :: v in vs && v.ip == r[i].0 && v.session == r[i].1 {
      var j :| 0 <= j < |s| && s[j] == r[i];
      assert vs[j] in vs;
    }
    forall i, v | 0 <= i < |r| && v in vs && v.ip == r[i].0 ensures v.session <= r[i].1 {
      var j :| 0 <= j < |vs| && vs[j] == v;
      assert s[j].0 == r[i].0;
    }
    TableCard(r, set v | v in vs :: v.ip);
    r
  }

  lemma SessionIps(vs: seq<Visit>)
    ensures Keys(SessionNumbers(vs)) == Ips(vs)
    ensures forall ip :: ip in Keys(SessionNumbers(vs)) <==> exists v :: v in vs && v.ip == ip
  {
    var s := SessionNumbers(vs);
    assert Keys(s) == Ips(vs);
    forall ip ensures ip in Keys(s) <==> exists v :: v in vs && v.ip == ip {
      if ip in Keys(s) {
        var i :| 0 <= i < |s| && Keys(s)[i] == ip;
        assert vs[i] in vs;
      }
      if exists v :: v in vs && v.ip == ip {
        var v :| v in vs && v.ip == ip;
        var i :| 0 <= i < |vs| && vs[i] == v;
        assert Keys(s)[i] == ip;
      }
    }
  }

  function AtLeastTwo(k: int): bool { k >= 2 }

  /** Card "Repeat Viewers": the IPs whose highest session number is at
      least 2, which are exactly the IPs with some row of a session number of
      2 or more. */
  function RepeatViewers(vs: seq<Visit>): (n: nat)
    ensures n == |RepeatIps(vs)|
  {
    RepeatCount(vs);
    CountWhere(MaxSessions(vs), AtLeastTwo)
  }

  function RepeatIps(vs: seq<Visit>): set<string>
  {
    set v | v in vs && v.session >= 2 :: v.ip
  }

  lemma RepeatCount(vs: seq<Visit>)
    ensures CountWhere(MaxSessions(vs), AtLeastTwo) == |RepeatIps(vs)|
  {
    var per := MaxSessions(vs);
    CountWhereCard(per, AtLeastTwo);
    RepeatSet(vs, per);
  }

  lemma RepeatSet(vs: seq<Visit>, per: seq<(string, int)>)
    requires per == MaxSessions(vs)
    ensures KeysWhere(per, AtLeastTwo) == RepeatIps(vs)
  {
    RepeatSound(vs, per);
    RepeatComplete(vs, per);
  }

  lemma RepeatSound(vs: seq<Visit>, per: seq<(string, int)>)
    requires per == MaxSessions(vs)
    ensures forall x :: x in per && AtLeastTwo(x.1) ==> x.0 in RepeatIps(vs)
  {
    forall x | x in per && AtLeastTwo(x.1) ensures x.0 in RepeatIps(vs) {
      var i :| 0 <= i < |per| && per[i] == x;
      var v :| v in vs && v.ip == per[i].0 && v.session == per[i].1;
    }
  }

  lemma RepeatComplete(vs: seq<Visit>, per: seq<(string, int)>)
    requires per == MaxSessions(vs)
    ensures forall ip :: ip in RepeatIps(vs) ==> ip in KeysWhere(per, AtLeastTwo)
  {
    forall ip | ip in RepeatIps(vs) ensures ip in KeysWhere(per, AtLeastTwo) {
      var v :| v in vs && v.session >= 2 && v.ip == ip;
      assert v.ip in Keys(per);
      var i :| 0 <= i < |per| && Keys(per)[i] == v.ip;
      assert per[i] in per;
    }
  }

  /** The highest session number of `ip`, `None` when it has no row. */
  function HighestSession(vs: seq<Visit>, ip: string): (m: Option<int>)
    ensures m.None? <==> forall v :: v in vs ==> v.ip != ip
    ensures m.Some? ==> exists v :: v in vs && v.ip == ip && v.session == m.value
    ensures m.Some? ==> forall v :: v in vs && v.ip == ip ==> v.session <= m.value
    decreases |vs|
  {
    if |vs| == 0 then None
    else
      var n := |vs| - 1;
      var m := HighestSession(vs[..n], ip);
      assert forall v :: v in vs <==> v in vs[..n] || v == vs[n];
      if vs[n].ip == ip && (m.None? || vs[n].session > m.value) then Some(vs[n].session) else m
  }

  /** Reference for the total: the highest session numbers of `ips` added
      up. */
  function SumOfHighest(ips: seq<string>, vs: seq<Visit>): int
    decreases |ips|
  {
    if |ips| == 0 then 0
    else SumOfHighest(ips[..|ips| - 1], vs) + HighestSession(vs, ips[|ips| - 1]).GetOr(0)
  }

  /** Card "Total Sessions": `session` summed over the row `idxmax` picks for
      each IP, that is the highest session number of every distinct IP added
      up. */
  function TotalSessions(vs: seq<Visit>): (n: int)
    ensures n == SumOfHighest(Distinct(Ips(vs)), vs)
  {
    var per := MaxSessions(vs);
    forall i | 0 <= i < |per| ensures per[i].1 == HighestSession(vs, per[i].0).GetOr(0) {
      var v :| v in vs && v.ip == per[i].0 && v.session == per[i].1;
    }
    SumOfTable(per, vs);
    TotalWeight(per)
  }

  lemma {:induction false} SumOfTable(per: seq<(string, int)>, vs: seq<Visit>)
    requires forall i :: 0 <= i < |per| ==> per[i].1 == HighestSession(vs, per[i].0).GetOr(0)
    ensures TotalWeight(per) == SumOfHighest(Keys(per), vs)
    decreases |per|
  {
    if |per| > 0 {
      var n := |per| - 1;
      assert Keys(per)[..n] == Keys(per[..n]);
      SumOfTable(per[..n], vs);
    }
  }

  /** When session numbers start at 1 every IP contributes at least one
      session to the total and every repeat viewer at least two. */
  lemma SessionsAtLeast(vs: seq<Visit>)
    requires forall v :: v in vs ==> v.session >= 1
    ensures TotalSessions(vs) >= TotalViewers(vs) + RepeatViewers(vs)
  {
    var per := MaxSessions(vs);
    forall i | 0 <= i < |per| ensures per[i].1 >= 1 {
      var v :| v in vs && v.ip == per[i].0 && v.session == per[i].1;
    }
    SessionsBound(per);
  }

  lemma {:induction false} SessionsBound(per: seq<(string, int)>)
    requires forall i :: 0 <= i < |per| ==> per[i].1 >= 1
    ensures TotalWeight(per) >= |per| + CountWhere(per, AtLeastTwo)
    decreases |per|
  {
    if |per| > 0 {
      var n := |per| - 1;
      SessionsBound(per[..n]);
    }
  }

  // ---- Sessions on weekdays and weekends ----

  /** The first row of every (IP, session): pandas `groupby([ip, session]).first()`
      on a label column that is never missing. */
  function SessionStarts(vs: seq<Visit>): (r: seq<Visit>)
    ensures forall i, j :: 0 <= i < j < |r| ==> SessionOf(r[i]) != SessionOf(r[j])
    ensures forall v :: v in r ==> v in vs
    ensures |r| == |KeySet(vs, SessionOf)|
  {
    var r := FirstRows(vs, SessionOf);
    DistinctKeysCard(r, SessionOf);
    r
  }

  function Times(r: seq<Visit>): (ts: seq<Option<int>>)
    ensures |ts| == |r| && forall i :: 0 <= i < |r| ==> ts[i] == r[i].eventTime
  {
    seq(|r|, i requires 0 <= i < |r| => r[i].eventTime)
  }

  /** One weight-1 row per session, stamped with its first event time. */
  function SessionStartRows(vs: seq<Visit>): (rows: seq<Row>)
    ensures |rows| == |KeySet(vs, SessionOf)|
  {
    Ones(Times(SessionStarts(vs)))
  }

  /** Chart "Total sessions: weekday vs weekend": every distinct (IP, session)
      lands in exactly one bucket, decided by the first row of the session; a
      session whose first row has no time is a weekday session. */
  function SessionWeekSplit(vs: seq<Visit>): (r: Split)
    ensures r.weekday + r.weekend == |KeySet(vs, SessionOf)|
    ensures r.weekday >= 0 && r.weekend >= 0
    ensures r.weekend == SlotWeight(SessionStartRows(vs), WeekdaySlot, 5) + SlotWeight(SessionStartRows(vs), WeekdaySlot, 6)
  {
    CountsWeigh(SessionStartRows(vs));
    WeekSplit(SessionStartRows(vs))
  }

  /** The two percentages; the source divides by the session total without a
      guard, so an empty table has none. */
  function SessionShares(vs: seq<Visit>): (r: Option<(real, real)>)
    ensures r.None? <==> |vs| == 0
    ensures r.Some? ==> r.value.0 + r.value.1 == 100.0
    ensures r.Some? ==> 0.0 <= r.value.0 <= 100.0 && 0.0 <= r.value.1 <= 100.0
  {
    assert |vs| > 0 ==> SessionOf(vs[0]) in KeySet(vs, SessionOf);
    Shares(SessionWeekSplit(vs))
  }

  // ---- Durations ----

  datatype Duration = Duration(hours: int, minutes: int)

  /** `convert_seconds`: whole hours, then whole minutes of the remainder
      (floor division, as Python's `//` and `%` on a positive divisor). */
  function ConvertSeconds(s: int): (d: Duration)
    ensures 0 <= d.minutes <= 59
    ensures 3600 * d.hours + 60 * d.minutes <= s < 3600 * d.hours + 60 * d.minutes + 60
  {
    Duration(s / 3600, (s % 3600) / 60)
  }

  /** The hours and minutes are the only ones with that property. */
  lemma ConvertSecondsUnique(s: int, h: int, m: int)
    requires 0 <= m <= 59
    requires 3600 * h + 60 * m <= s < 3600 * h + 60 * m + 60
    ensures ConvertSeconds(s) == Duration(h, m)
  {
    var d := ConvertSeconds(s);
    var a, b := 60 * h + m, 60 * d.hours + d.minutes;
    assert 60 * a <= s < 60 * a + 60 && 60 * b <= s < 60 * b + 60;
    assert a <= b && b <= a;
    assert h <= d.hours && d.hours <= h;
  }

  /** The "{h} hr {m} mini" text the cards and tables show. */
  function DurationText(s: int): string
  {
    var d := ConvertSeconds(s);
    Decimal.IntToString(d.hours) + " hr " + Decimal.IntToString(d.minutes) + " mini"
  }

  predicate NoSpace(a: string)
  {
    forall k :: 0 <= k < |a| ==> a[k] != ' '
  }

  lemma IntTextNoSpace(i: int)
    ensures NoSpace(Decimal.IntToString(i))
  {
    Decimal.IntToStringChars(i);
  }

  /** Position of the first space, or the length when there is none. */
  function SpaceIndex(x: string): nat
  {
    if |x| == 0 || x[0] == ' ' then 0 else 1 + SpaceIndex(x[1..])
  }

  lemma {:induction false} SpaceIndexAfter(a: string, rest: string)
    requires NoSpace(a)
    ensures SpaceIndex(a + " " + rest) == |a|
  {
    if |a| > 0 {
      SpaceIndexAfter(a[1..], rest);
      assert (a + " " + rest)[1..] == a[1..] + " " + rest;
    }
  }

  /** Two texts of the "{a} hr {b} mini" shape agree only when their space-free
      fields agree. */
  lemma {:induction false} FieldsAgree(a: string, b: string, a': string, b': string)
    requires NoSpace(a) && NoSpace(a') && NoSpace(b) && NoSpace(b')
    requires a + " hr " + b + " mini" == a' + " hr " + b' + " mini"
    ensures a == a' && b == b'
  {
    var x := a + " hr " + b + " mini";
    var y := a' + " hr " + b' + " mini";
    assert x == a + " " + ("hr " + b + " mini");
    assert y == a' + " " + ("hr " + b' + " mini");
    SpaceIndexAfter(a, "hr " + b + " mini");
    SpaceIndexAfter(a', "hr " + b' + " mini");
    assert a == x[..|a|] == y[..|a'|] == a';
    assert |b| == |b'|;
    assert b == x[|a| + 4..|a| + 4 + |b|] == y[|a'| + 4..|a'| + 4 + |b'|] == b';
  }

  /** Two durations read the same exactly when they fall in the same whole
      minute. */
  lemma DurationTextInjective(s: int, t: int)
    ensures DurationText(s) == DurationText(t) <==> s / 60 == t / 60
  {
    MinutesOf(s);
    MinutesOf(t);
    if DurationText(s) == DurationText(t) {
      SameTextSameDuration(s, t);
    }
    if s / 60 == t / 60 {
      SameMinuteSameDuration(s, t);
    }
  }

  lemma SameMinuteSameDuration(s: int, t: int)
    requires s / 60 == t / 60
    ensures ConvertSeconds(s) == ConvertSeconds(t)
  {
    var e := ConvertSeconds(t);
    MinutesOf(t);
    ConvertSecondsUnique(s, e.hours, e.minutes);
  }

  lemma MinutesOf(s: int)
    ensures s / 60 == 60 * ConvertSeconds(s).hours + ConvertSeconds(s).minutes
  {
  }

  lemma SameTextSameDuration(s: int, t: int)
    requires DurationText(s) == DurationText(t)
    ensures ConvertSeconds(s) == ConvertSeconds(t)
  {
    var d, e := ConvertSeconds(s), ConvertSeconds(t);
    IntTextNoSpace(d.hours);
    IntTextNoSpace(d.minutes);
    IntTextNoSpace(e.hours);
    IntTextNoSpace(e.minutes);
    FieldsAgree(Decimal.IntToString(d.hours), Decimal.IntToString(d.minutes),
                Decimal.IntToString(e.hours), Decimal.IntToString(e.minutes));
    Decimal.IntRoundTrip(d.hours);
    Decimal.IntRoundTrip(e.hours);
    Decimal.IntRoundTrip(d.minutes);
    Decimal.IntRoundTrip(e.minutes);
  }

  // ---- Time on page per session ----

  /** `Time_On_Page` as pandas sums it: a missing value adds nothing. */
  function TimeOf(v: Visit): int { v.timeOnPage.GetOr(0) }

  /** The (session, IP) group key; both columns are always present. */
  function SessionKey(v: Visit): Option<(int, string)> { Some((v.session, v.ip)) }

  /** Reference: the time of every row added up. */
  function TimeSum(vs: seq<Visit>): int
    decreases |vs|
  {
    if |vs| == 0 then 0 else TimeSum(vs[..|vs| - 1]) + TimeOf(vs[|vs| - 1])
  }

  lemma {:induction false} KeyedTimeSum(vs: seq<Visit>)
    ensures KeyedWeight(vs, SessionKey, TimeOf) == TimeSum(vs)
    decreases |vs|
  {
    if |vs| > 0 {
      KeyedTimeSum(vs[..|vs| - 1]);
    }
  }

  /** `groupby(['session', 'Customer_IP'])['Time_On_Page'].sum()`: one row
      per session with its total time; the session totals add up to the time
      of all rows. */
  function SessionDurations(vs: seq<Visit>): (r: seq<((int, string), int)>)
    ensures forall i, j :: 0 <= i < j < |r| ==> r[i].0 != r[j].0
    ensures forall k :: k in Keys(r) <==> exists v :: v in vs && (v.session, v.ip) == k
    ensures forall i :: 0 <= i < |r| ==> r[i].1 == SumWhere(vs, SessionKey, TimeOf, r[i].0)
    ensures TotalWeight(r) == TimeSum(vs)
  {
    KeyedTimeSum(vs);
    SumBy(vs, SessionKey, TimeOf)
  }

  /** Card "Total session duration". */
  function TotalDuration(vs: seq<Visit>): (text: string)
    ensures text == DurationText(TimeSum(vs))
  {
    DurationText(TotalWeight(SessionDurations(vs)))
  }

  function Seconds(x: ((int, string), int)): int { x.1 }

  /** Table "Top 10 Customer IP List": `nlargest(10)` of the session totals. */
  function TopSessions(vs: seq<Visit>): (r: seq<((int, string), int)>)
    ensures |r| == Ranking.Min(10, |SessionDurations(vs)|)
    ensures Ranking.NonIncreasing(r, Seconds)
    ensures multiset(r) <= multiset(SessionDurations(vs))
    ensures forall y, z :: y in multiset(SessionDurations(vs)) - multiset(r) && z in r ==> y.1 <= z.1
  {
    Ranking.Largest(SessionDurations(vs), 10, Seconds)
  }

  function SessionCount(x: (string, int)): int { x.1 }

  /** Chart "Maximum Sessions per Customer IP" for the slider value `n`. */
  function TopSessionIps(vs: seq<Visit>, n: nat): (r: seq<(string, int)>)
    requires 1 <= n <= 50
    ensures |r| == Ranking.Min(n, TotalViewers(vs))
    ensures Ranking.NonIncreasing(r, SessionCount)
    ensures multiset(r) <= multiset(MaxSessions(vs))
    ensures forall y, z :: y in multiset(MaxSessions(vs)) - multiset(r) && z in r ==> y.1 <= z.1
  {
    Ranking.Largest(MaxSessions(vs), n, SessionCount)
  }

  // ---- Sessions per day, month, quarter and year ----

  predicate Dated(v: Visit) { v.eventTime.Some? }

  /** The calendar day of a dated visit. */
  function Day(v: Visit): int { Calendar.DayOf(v.eventTime.GetOr(0)) }

  /** A session counted on a day: (IP, day, session). */
  function DayKey(v: Visit): (string, int, int) { (v.ip, Day(v), v.session) }

  /** The distinct (IP, day, session) triples of the dated visits. */
  function SessionDaysSeen(vs: seq<Visit>): set<(string, int, int)>
  {
    set v | v in vs && Dated(v) :: DayKey(v)
  }

  /** The same, restricted to day `d`. */
  function SessionsOnDay(vs: seq<Visit>, d: int): set<(string, int, int)>
  {
    set v | v in vs && Dated(v) && Day(v) == d :: DayKey(v)
  }

  /** One dated row per (IP, day, session). */
  function SessionDays(vs: seq<Visit>): (r: seq<Visit>)
    ensures forall i, j :: 0 <= i < j < |r| ==> DayKey(r[i]) != DayKey(r[j])
    ensures forall v :: v in r ==> v in vs && Dated(v)
    ensures KeySet(r, DayKey) == KeySet(Where(vs, Dated), DayKey)
  {
    FirstRows(Where(vs, Dated), DayKey)
  }

  /** Each row keyed by its day, weight 1. */
  function DaySeries(r: seq<Visit>): (obs: Series)
    ensures |obs| == |r| && forall i :: 0 <= i < |r| ==> obs[i] == (Day(r[i]), 1)
  {
    seq(|r|, i requires 0 <= i < |r| => (Day(r[i]), 1))
  }

  lemma {:induction false} DaySeriesCount(r: seq<Visit>, d: int)
    requires forall i, j :: 0 <= i < j < |r| ==> DayKey(r[i]) != DayKey(r[j])
    ensures ValueAt(DaySeries(r), d) == |set v | v in r && Day(v) == d :: DayKey(v)|
    decreases |r|
  {
    if |r| > 0 {
      var n := |r| - 1;
      DaySeriesCount(r[..n], d);
      assert DaySeries(r) == DaySeries(r[..n]) + [(Day(r[n]), 1)];
      SumIfSnoc(DaySeries(r[..n]), (Day(r[n]), 1), Eq(d));
      DayKeysSnoc(r, d);
    }
  }

  /** The keys of day `d` grow by the last row's key, which is new, exactly
      when that row is of day `d`. */
  lemma DayKeysSnoc(r: seq<Visit>, d: int)
    requires |r| > 0
    requires forall i, j :: 0 <= i < j < |r| ==> DayKey(r[i]) != DayKey(r[j])
    ensures var n := |r| - 1;
      DayKey(r[n]) !in (set v | v in r[..n] && Day(v) == d :: DayKey(v)) &&
      (set v | v in r && Day(v) == d :: DayKey(v)) ==
        (set v | v in r[..n] && Day(v) == d :: DayKey(v)) + (if Day(r[n]) == d then {DayKey(r[n])} else {})
  {
    var n := |r| - 1;
    var before := set v | v in r[..n] && Day(v) == d :: DayKey(v);
    var after := set v | v in r && Day(v) == d :: DayKey(v);
    assert forall v :: v in r <==> v in r[..n] || v == r[n];
    assert DayKey(r[n]) !in before by {
      forall v | v in r[..n] ensures DayKey(v) != DayKey(r[n]) {
        var i :| 0 <= i < n && r[..n][i] == v;
      }
    }
    assert r[n] in r;
    if Day(r[n]) == d {
      assert after == before + {DayKey(r[n])};
    } else {
      assert after == before;
    }
  }

  lemma {:induction false} UnitSeriesTotal(s: Series)
    requires forall i :: 0 <= i < |s| ==> s[i].1 == 1
    ensures Total(s) == |s|
    decreases |s|
  {
    if |s| > 0 {
      UnitSeriesTotal(s[..|s| - 1]);
    }
  }

  lemma SessionDaysOnDay(vs: seq<Visit>, d: int)
    ensures (set v | v in SessionDays(vs) && Day(v) == d :: DayKey(v)) == SessionsOnDay(vs, d)
  {
    var r := SessionDays(vs);
    var w := Where(vs, Dated);
    forall v | v in vs && Dated(v) && Day(v) == d ensures DayKey(v) in (set v | v in r && Day(v) == d :: DayKey(v)) {
      assert v in w;
      var i :| 0 <= i < |w| && w[i] == v;
      assert DayKey(v) in KeySet(w, DayKey);
      var j :| 0 <= j < |r| && DayKey(r[j]) == DayKey(v);
      assert r[j] in r;
    }
  }

  lemma SessionDaysAll(vs: seq<Visit>)
    ensures KeySet(SessionDays(vs), DayKey) == SessionDaysSeen(vs)
  {
    var w := Where(vs, Dated);
    forall k | k in KeySet(w, DayKey) ensures k in SessionDaysSeen(vs) {
      var i :| 0 <= i < |w| && DayKey(w[i]) == k;
      assert w[i] in w;
    }
    forall v | v in vs && Dated(v) ensures DayKey(v) in KeySet(w, DayKey) {
      assert v in w;
      var i :| 0 <= i < |w| && w[i] == v;
    }
  }

  /** Sessions per calendar day, keyed by day number: one unit observation
      per distinct dated (IP, day, session). */
  function SessionDayCounts(vs: seq<Visit>): (obs: Series)
    ensures |obs| == |SessionDaysSeen(vs)|
    ensures forall i :: 0 <= i < |obs| ==> obs[i].1 == 1 && exists v :: v in vs && Dated(v) && obs[i].0 == Day(v)
  {
    var r := SessionDays(vs);
    DistinctKeysCard(r, DayKey);
    SessionDaysAll(vs);
    assert forall i :: 0 <= i < |r| ==> r[i] in r;
    DaySeries(r)
  }

  /** All the sessions of all days are counted once. */
  lemma SessionDayTotal(vs: seq<Visit>)
    ensures Total(SessionDayCounts(vs)) == |SessionDaysSeen(vs)|
  {
    UnitSeriesTotal(SessionDayCounts(vs));
  }

  /** The value filed under day `d` is the number of distinct (IP, session)
      pairs seen on `d`, which is what summing the per-IP `nunique` of
      sessions gives. */
  lemma SessionDayValue(vs: seq<Visit>, d: int)
    ensures ValueAt(SessionDayCounts(vs), d) == |SessionsOnDay(vs, d)|
  {
    DaySeriesCount(SessionDays(vs), d);
    SessionDaysOnDay(vs, d);
  }

  /** Chart "Sessions per Day / Month / Quarter / Year". `None` when no visit
      has a time, since the date range then has no start. The daily view is
      the zero-filled series of `SessionDayCounts`, so day `d` shows
      `|SessionsOnDay(vs, d)|` (`SessionDayValue`). */
  function SessionViews(vs: seq<Visit>, today: int): (r: Option<Views>)
    ensures r.None? <==> forall v :: v in vs ==> !Dated(v)
    ensures r.Some? ==> |r.value.perDay| == SpanLength(MinKey(SessionDayCounts(vs)), today)
    ensures r.Some? ==> r.value.perDay == Daily(SessionDayCounts(vs), today).value
    ensures r.Some? ==> Total(r.value.perMonth) == Total(r.value.perDay) &&
                        Total(r.value.perQuarter) == Total(r.value.perDay) &&
                        Total(r.value.perYear) == Total(r.value.perDay)
    ensures r.Some? && (forall v :: v in vs && Dated(v) ==> Day(v) <= today) ==>
              Total(r.value.perDay) == |SessionDaysSeen(vs)|
  {
    SessionViewsNone(vs, today);
    SessionViewsTotal(vs, today);
    CountViews(SessionDayCounts(vs), today)
  }

  lemma SessionViewsNone(vs: seq<Visit>, today: int)
    ensures CountViews(SessionDayCounts(vs), today).None? <==> forall v :: v in vs ==> !Dated(v)
  {
    DatedSeen(vs, SessionDayCounts(vs));
  }

  lemma DatedSeen(vs: seq<Visit>, obs: Series)
    requires |obs| == |SessionDaysSeen(vs)|
    ensures |obs| == 0 <==> forall v :: v in vs ==> !Dated(v)
  {
    if |obs| > 0 {
      var k :| k in SessionDaysSeen(vs);
      var v :| v in vs && Dated(v) && DayKey(v) == k;
    } else {
      assert forall v :: v in vs && Dated(v) ==> DayKey(v) in SessionDaysSeen(vs);
    }
  }

  lemma SessionViewsTotal(vs: seq<Visit>, today: int)
    ensures var r := CountViews(SessionDayCounts(vs), today);
      r.Some? && (forall v :: v in vs && Dated(v) ==> Day(v) <= today) ==>
        Total(r.value.perDay) == |SessionDaysSeen(vs)|
  {
    var obs := SessionDayCounts(vs);
    SessionDayTotal(vs);
    if |obs| > 0 {
      DailyTotalSeen(vs, obs, today);
    }
  }

  lemma DailyTotalSeen(vs: seq<Visit>, obs: Series, today: int)
    requires |obs| > 0
    requires Total(obs) == |SessionDaysSeen(vs)|
    requires forall i :: 0 <= i < |obs| ==> exists v :: v in vs && Dated(v) && obs[i].0 == Day(v)
    ensures (forall v :: v in vs && Dated(v) ==> Day(v) <= today) ==>
      Total(Daily(obs, today).value) == |SessionDaysSeen(vs)|
  {
    DailyTotal(obs, today);
    if forall v :: v in vs && Dated(v) ==> Day(v) <= today {
      forall i | 0 <= i < |obs| ensures obs[i].0 <= today {
        var v :| v in vs && Dated(v) && obs[i].0 == Day(v);
      }
    }
  }

  /** An IP seen in sessions 1, 1 and 2 is one viewer, a repeat viewer, with
      two sessions. */
  lemma RepeatViewerExample()
    ensures var vs := [Event("1.2.3.4", 1), Event("1.2.3.4", 1), Event("1.2.3.4", 2)];
      TotalViewers(vs) == 1 && RepeatViewers(vs) == 1
  {
    var vs := [Event("1.2.3.4", 1), Event("1.2.3.4", 1), Event("1.2.3.4", 2)];
    assert (set v | v in vs :: v.ip) == {"1.2.3.4"};
    assert vs[2] in vs && vs[2].session >= 2;
    assert (set v | v in vs && v.session >= 2 :: v.ip) == {"1.2.3.4"};
  }

  function Event(ip: string, session: int): Visit
  {
    Visit(ip, session, "Home", None, None, None, None, None)
  }
}
