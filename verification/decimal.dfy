/** Decimal rendering of integers as Python's `str()` and `%Y`/`%m` do it,
    and the character-by-character string order Python and pandas use to
    sort labels. */
module Decimal {
  import opened Options

  predicate IsDigit(c: char) { '0' <= c <= '9' }

  predicate AllDigits(s: string) { forall i :: 0 <= i < |s| ==> IsDigit(s[i]) }

  function DigitChar(d: int): (c: char)
    requires 0 <= d < 10
    ensures IsDigit(c)
  {
    ('0' as int + d) as char
  }

  function DigitValue(c: char): int
    requires IsDigit(c)
  {
    c as int - '0' as int
  }

  /** The number a digit string spells. */
  function DigitsValue(s: string): nat
    requires AllDigits(s)
    decreases |s|
  {
    if |s| == 0 then 0
    else 10 * DigitsValue(s[..|s| - 1]) + DigitValue(s[|s| - 1])
  }

  /** `str(n)` for a natural number: no leading zeros. */
  function NatToString(n: nat): (s: string)
    ensures |s| >= 1 && AllDigits(s)
    ensures s[0] == '0' ==> n == 0 && |s| == 1
    ensures DigitsValue(s) == n
    decreases n
  {
    var last := [DigitChar(n % 10)];
    if n < 10 then last
    else
      var front := NatToString(n / 10);
      var s := front + last;
      assert s[..|s| - 1] == front;
      s
  }

  /** `str(i)` for any integer. */
  function IntToString(i: int): (s: string)
    ensures |s| >= 1
    ensures i < 0 <==> s[0] == '-'
    ensures i >= 0 ==> s == NatToString(i)
    ensures i < 0 ==> s[1..] == NatToString(-i)
  {
    if i < 0 then "-" + NatToString(-i) else NatToString(i)
  }

  /** `str(i)` holds nothing but a minus sign and digits. */
  lemma IntToStringChars(i: int)
    ensures forall k :: 0 <= k < |IntToString(i)| ==> IntToString(i)[k] == '-' || IsDigit(IntToString(i)[k])
  {
    var s := IntToString(i);
    if i < 0 {
      forall k | 1 <= k < |s| ensures IsDigit(s[k]) {
        assert s[k] == NatToString(-i)[k - 1];
      }
    }
  }

  /** Reads back what `IntToString` writes; `None` for anything else than an
      optional minus sign followed by at least one digit. */
  function ParseInt(s: string): Option<int>
  {
    if |s| >= 2 && s[0] == '-' && AllDigits(s[1..]) then Some(-(DigitsValue(s[1..]) as int))
    else if |s| >= 1 && AllDigits(s) then Some(DigitsValue(s) as int)
    else None
  }

  lemma IntRoundTrip(i: int)
    ensures ParseInt(IntToString(i)) == Some(i)
  {
  }

  /** `n` written with exactly `width` digits, zero-padded on the left, as
      `%04d`-style fields. */
  function Pad(n: nat, width: nat): (s: string)
    requires n < Power10(width)
    ensures |s| == width
    decreases width
  {
    if width == 0 then ""
    else Pad(n / 10, width - 1) + [DigitChar(n % 10)]
  }

  /** A padded field is all digits and spells `n` back. */
  lemma {:induction false} PadDigits(n: nat, width: nat)
    requires n < Power10(width)
    ensures AllDigits(Pad(n, width)) && DigitsValue(Pad(n, width)) == n
    decreases width
  {
    if width > 0 {
      var front := Pad(n / 10, width - 1);
      PadDigits(n / 10, width - 1);
      var s := Pad(n, width);
      assert s == front + [DigitChar(n % 10)];
      assert s[..|s| - 1] == front;
    }
  }

  function Power10(w: nat): (p: nat)
    ensures p >= 1
  {
    if w == 0 then 1 else 10 * Power10(w - 1)
  }

  /** Python's `<` on two strings: the first differing character decides and
      a proper prefix comes first. */
  predicate Less(a: string, b: string)
    decreases |a|
  {
    |b| > 0 && (|a| == 0 || a[0] < b[0] || (a[0] == b[0] && Less(a[1..], b[1..])))
  }

  /** Comparing strings that start with equally long parts: the first parts
      decide unless they are equal. */
  lemma {:induction false} LessAppend(p: string, q: string, p': string, q': string)
    requires |p| == |p'| && |q| > 0 && |q'| > 0
    ensures Less(p + q, p' + q') <==> Less(p, p') || (p == p' && Less(q, q'))
    decreases |p|
  {
    if |p| > 0 {
      assert (p + q)[1..] == p[1..] + q;
      assert (p' + q')[1..] == p'[1..] + q';
      LessAppend(p[1..], q, p'[1..], q');
      if p[0] == p'[0] && p[1..] == p'[1..] {
        assert p == p';
      }
      if p == p' {
        assert p[1..] == p'[1..];
      }
    } else {
      assert p + q == q && p' + q' == q';
    }
  }

  /** Zero-padded numbers of one width sort as their values do. */
  lemma {:induction false} PadOrder(a: nat, b: nat, width: nat)
    requires a < Power10(width) && b < Power10(width)
    ensures Less(Pad(a, width), Pad(b, width)) <==> a < b
    decreases width
  {
    if width > 0 {
      PadOrder(a / 10, b / 10, width - 1);
      var ca, cb := DigitChar(a % 10), DigitChar(b % 10);
      LessAppend(Pad(a / 10, width - 1), [ca], Pad(b / 10, width - 1), [cb]);
      assert Less([ca], [cb]) <==> ca < cb;
      PadInjective(a / 10, b / 10, width - 1);
    } else {
      assert a == 0 && b == 0;
    }
  }

  lemma PadInjective(a: nat, b: nat, width: nat)
    requires a < Power10(width) && b < Power10(width)
    ensures Pad(a, width) == Pad(b, width) <==> a == b
  {
    PadDigits(a, width);
    PadDigits(b, width);
    if Pad(a, width) == Pad(b, width) {
      assert DigitsValue(Pad(a, width)) == DigitsValue(Pad(b, width));
    }
  }
}
