/** The text labels the dashboard groups by: pandas `Period` strings
    `YYYY-MM` (months, also `strftime('%Y-%m')`) and `YYYYQn` (quarters),
    and `NaT`, the label a missing timestamp gets. Groupby sorts these
    strings, so their string order is what fixes the order of the charts. */
module Labels {
  import opened Options
  import opened Decimal
  import Calendar

  const MaxYears: nat := 10000

  lemma Widths()
    ensures Power10(4) == MaxYears && Power10(2) == 100 && Power10(1) == 10
  {
  }

  /** `YYYY-MM` for a year and a month 1..12. */
  function MonthLabel(year: nat, month: nat): (s: string)
    requires year < MaxYears && 1 <= month <= 12
    ensures |s| == 7 && s[4] == '-'
  {
    assert year < Power10(4) && month < Power10(2) by { Widths(); }
    Pad(year, 4) + "-" + Pad(month, 2)
  }

  /** `pd.to_datetime(label, format='%Y-%m')` reduced to (year, month);
      `None` for anything that is not a well-formed month label. */
  function ParseMonthLabel(s: string): (r: Option<(nat, nat)>)
    ensures r.Some? ==> r.value.0 < MaxYears && 1 <= r.value.1 <= 12
  {
    if |s| == 7 && s[4] == '-' && AllDigits(s[..4]) && AllDigits(s[5..]) &&
       1 <= DigitsValue(s[5..]) <= 12
    then
      Widths();
      DigitsBelow(s[..4]);
      Some((DigitsValue(s[..4]), DigitsValue(s[5..])))
    else None
  }

  lemma {:induction false} DigitsBelow(s: string)
    requires AllDigits(s)
    ensures DigitsValue(s) < Power10(|s|)
    decreases |s|
  {
    if |s| > 0 {
      DigitsBelow(s[..|s| - 1]);
    }
  }

  lemma MonthLabelRoundTrip(year: nat, month: nat)
    requires year < MaxYears && 1 <= month <= 12
    ensures ParseMonthLabel(MonthLabel(year, month)) == Some((year, month))
  {
    Widths();
    PadDigits(year, 4);
    PadDigits(month, 2);
    var s := MonthLabel(year, month);
    assert s[..4] == Pad(year, 4) && s[5..] == Pad(month, 2);
  }

  /** The `%Y-%m` label of a month index `12 * year + month - 1`. */
  function MonthIndexLabel(k: int): (s: string)
    requires 0 <= k < 12 * MaxYears
    ensures ParseMonthLabel(s) == Some((k / 12, k % 12 + 1))
  {
    MonthLabelRoundTrip(k / 12, k % 12 + 1);
    MonthLabel(k / 12, k % 12 + 1)
  }

  /** The label of a day's month spells its civil year and month. */
  lemma MonthLabelOfDay(day: int)
    requires 0 <= Calendar.MonthIndex(day) < 12 * MaxYears
    ensures ParseMonthLabel(MonthIndexLabel(Calendar.MonthIndex(day))) ==
      Some((Calendar.CivilFromDays(day).year as nat, Calendar.CivilFromDays(day).month as nat))
  {
  }

  /** Sorting month labels as strings sorts them chronologically. */
  lemma MonthLabelOrder(y: nat, m: nat, y': nat, m': nat)
    requires y < MaxYears && 1 <= m <= 12 && y' < MaxYears && 1 <= m' <= 12
    ensures Less(MonthLabel(y, m), MonthLabel(y', m')) <==> 12 * y + m < 12 * y' + m'
  {
    assert y < Power10(4) && y' < Power10(4) && m < Power10(2) && m' < Power10(2) by { Widths(); }
    assert Less(MonthLabel(y, m), MonthLabel(y', m')) <==>
      Less(Pad(y, 4), Pad(y', 4)) || (Pad(y, 4) == Pad(y', 4) && Less(Pad(m, 2), Pad(m', 2))) by {
     
      FieldOrder(Pad(y, 4), '-', Pad(m, 2), Pad(y', 4), Pad(m', 2));
    }
    assert Less(Pad(y, 4), Pad(y', 4)) <==> y < y' by { PadOrder(y, y', 4); }
    assert Pad(y, 4) == Pad(y', 4) <==> y == y' by { PadInjective(y, y', 4); }
    assert Less(Pad(m, 2), Pad(m', 2)) <==> m < m' by { PadOrder(m, m', 2); }
    assert 12 * y + m < 12 * y' + m' <==> y < y' || (y == y' && m < m');
  }

  /** Two labels made of a fixed-width field, one separator and a non-empty
      tail compare by the field first and by the tail on a tie. */
  lemma FieldOrder(a: string, sep: char, c: string, b: string, d: string)
    requires |a| == |b| && |c| > 0 && |d| > 0
    ensures Less(a + [sep] + c, b + [sep] + d) <==> Less(a, b) || (a == b && Less(c, d))
  {
    assert a + [sep] + c == a + ([sep] + c) && b + [sep] + d == b + ([sep] + d);
    LessAppend(a, [sep] + c, b, [sep] + d);
    LessAppend([sep], c, [sep], d);
    assert !Less([sep], [sep]);
  }

  /** The month-index form: label order is index order. */
  lemma MonthIndexLabelOrder(k: int, k': int)
    requires 0 <= k < 12 * MaxYears && 0 <= k' < 12 * MaxYears
    ensures Less(MonthIndexLabel(k), MonthIndexLabel(k')) <==> k < k'
  {
    MonthLabelOrder(k / 12, k % 12 + 1, k' / 12, k' % 12 + 1);
  }

  /** `YYYYQn` for a year and a quarter 1..4. */
  function QuarterLabel(year: nat, quarter: nat): (s: string)
    requires year < MaxYears && 1 <= quarter <= 4
    ensures |s| == 6 && s[4] == 'Q'
  {
    assert year < Power10(4) by { Widths(); }
    Pad(year, 4) + "Q" + [DigitChar(quarter)]
  }

  /** `Period(label, 'Q')` reduced to (year, quarter). */
  function ParseQuarterLabel(s: string): (r: Option<(nat, nat)>)
    ensures r.Some? ==> r.value.0 < MaxYears && 1 <= r.value.1 <= 4
  {
    if |s| == 6 && s[4] == 'Q' && AllDigits(s[..4]) && AllDigits(s[5..]) &&
       1 <= DigitsValue(s[5..]) <= 4
    then
      Widths();
      DigitsBelow(s[..4]);
      Some((DigitsValue(s[..4]), DigitsValue(s[5..])))
    else None
  }

  lemma QuarterLabelRoundTrip(year: nat, quarter: nat)
    requires year < MaxYears && 1 <= quarter <= 4
    ensures ParseQuarterLabel(QuarterLabel(year, quarter)) == Some((year, quarter))
  {
    Widths();
    PadDigits(year, 4);
    var s := QuarterLabel(year, quarter);
    assert s[..4] == Pad(year, 4) && s[5..] == [DigitChar(quarter)];
    assert [DigitChar(quarter)][..0] == [];
    assert DigitsValue([DigitChar(quarter)]) == quarter;
  }

  /** The label of a quarter index `4 * year + quarter - 1`. */
  function QuarterIndexLabel(q: int): (s: string)
    requires 0 <= q < 4 * MaxYears
    ensures ParseQuarterLabel(s) == Some((q / 4, q % 4 + 1))
  {
    QuarterLabelRoundTrip(q / 4, q % 4 + 1);
    QuarterLabel(q / 4, q % 4 + 1)
  }

  /** Sorting quarter labels as strings sorts them chronologically. */
  lemma QuarterLabelOrder(y: nat, n: nat, y': nat, n': nat)
    requires y < MaxYears && 1 <= n <= 4 && y' < MaxYears && 1 <= n' <= 4
    ensures Less(QuarterLabel(y, n), QuarterLabel(y', n')) <==> 4 * y + n < 4 * y' + n'
  {
    assert y < Power10(4) && y' < Power10(4) by { Widths(); }
    assert Less(QuarterLabel(y, n), QuarterLabel(y', n')) <==>
      Less(Pad(y, 4), Pad(y', 4)) || (Pad(y, 4) == Pad(y', 4) && Less([DigitChar(n)], [DigitChar(n')])) by {
     
      FieldOrder(Pad(y, 4), 'Q', [DigitChar(n)], Pad(y', 4), [DigitChar(n')]);
    }
    assert Less(Pad(y, 4), Pad(y', 4)) <==> y < y' by { PadOrder(y, y', 4); }
    assert Pad(y, 4) == Pad(y', 4) <==> y == y' by { PadInjective(y, y', 4); }
    assert Less([DigitChar(n)], [DigitChar(n')]) <==> n < n';
    assert 4 * y + n < 4 * y' + n' <==> y < y' || (y == y' && n < n');
  }

  lemma QuarterIndexLabelOrder(q: int, q': int)
    requires 0 <= q < 4 * MaxYears && 0 <= q' < 4 * MaxYears
    ensures Less(QuarterIndexLabel(q), QuarterIndexLabel(q')) <==> q < q'
  {
    QuarterLabelOrder(q / 4, q % 4 + 1, q' / 4, q' % 4 + 1);
  }

  /** The label pandas gives a missing timestamp's month or quarter. */
  const Undated: string := "NaT"

  /** `NaT` sorts after every month and quarter label, so the undated group
      comes last. */
  lemma UndatedSortsLast(y: nat, m: nat, n: nat)
    requires y < MaxYears && 1 <= m <= 12 && 1 <= n <= 4
    ensures Less(MonthLabel(y, m), Undated) && !Less(Undated, MonthLabel(y, m))
    ensures Less(QuarterLabel(y, n), Undated) && !Less(Undated, QuarterLabel(y, n))
  {
    Widths();
    PadDigits(y, 4);
    assert MonthLabel(y, m)[0] == Pad(y, 4)[0] && QuarterLabel(y, n)[0] == Pad(y, 4)[0];
    assert IsDigit(Pad(y, 4)[0]);
  }
}
