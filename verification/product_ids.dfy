/** How the journey page turns the `Product_ID` column into the text key of
    its time-per-product table: `astype(str)` followed by
    `replace(".0", "", regex=True)`. */
module ProductIds {
  import opened Options
  import opened Decimal

  /** `astype(str)` of one `Product_ID` cell. The column is `float64` as soon
      as one id is missing, and then a present id renders with a ".0"
      suffix and a missing one as "nan"; otherwise ids render as integers. */
  function Render(id: Option<int>, floatColumn: bool): (s: string)
    ensures id.None? ==> s == "nan"
    ensures id.Some? && floatColumn ==> s == IntToString(id.value) + ".0"
    ensures id.Some? && !floatColumn ==> s == IntToString(id.value)
  {
    match id
    case None => "nan"
    case Some(n) => IntToString(n) + (if floatColumn then ".0" else "")
  }

  /** `re.sub(".0", "", s)` as the code writes it: `.` is the regular
      expression wildcard, so every character other than a newline that is
      followed by '0' is removed together with that '0', scanning left to
      right over non-overlapping matches. */
  function StripAsWritten(s: string): (r: string)
    ensures |r| <= |s| && (|s| - |r|) % 2 == 0
    ensures forall c :: c in r ==> c in s
    ensures Deletes(r, s)
    ensures (forall i :: 1 <= i < |s| ==> s[i] != '0') ==> r == s
    decreases |s|
  {
    if |s| == 0 then []
    else if |s| >= 2 && s[0] != '\n' && s[1] == '0' then
      var r := StripAsWritten(s[2..]);
      DeletesSkip(r, s[1..]);
      assert s[1..][1..] == s[2..];
      r
    else
      var rest := StripAsWritten(s[1..]);
      assert forall c :: c in rest ==> c in s[1..];
      var r := [s[0]] + rest;
      assert r[1..] == rest;
      assert (forall i :: 1 <= i < |s| ==> s[i] != '0') ==> forall i :: 1 <= i < |s[1..]| ==> s[1..][i] != '0';
      assert (forall i :: 1 <= i < |s| ==> s[i] != '0') ==> s == [s[0]] + s[1..];
      r
  }

  /** `r` is `s` with some characters deleted: each character of `r` is
      matched, in order, by a character of `s`. */
  predicate Deletes(r: string, s: string)
    decreases |s|
  {
    if |s| == 0 then |r| == 0
    else (|r| > 0 && r[0] == s[0] && Deletes(r[1..], s[1..])) || Deletes(r, s[1..])
  }

  /** Deleting the first character of `s` as well still deletes. */
  lemma DeletesSkip(r: string, s: string)
    requires |s| > 0 && Deletes(r, s[1..])
    ensures Deletes(r, s)
  {
  }

  /** Product 10 and product 20, both rendered from a float column, end up
      with the same (empty) key, and product 1203 is shown as "13"; from an
      integer column product 10 loses its key too. */
  lemma StripAsWrittenMerges()
    ensures Render(Some(10), true) != Render(Some(20), true)
    ensures StripAsWritten(Render(Some(10), true)) == ""
    ensures StripAsWritten(Render(Some(20), true)) == ""
    ensures StripAsWritten(Render(Some(1203), true)) == "13"
    ensures StripAsWritten(Render(Some(10), false)) == ""
  {
    RenderSamples();
    StripSamples();
  }

  lemma RenderSamples()
    ensures Render(Some(10), false) == "10"
    ensures Render(Some(10), true) == "10.0"
    ensures Render(Some(20), true) == "20.0"
    ensures Render(Some(1203), true) == "1203.0"
  {
    assert DigitChar(0) == '0' && DigitChar(1) == '1' && DigitChar(2) == '2' && DigitChar(3) == '3';
    assert NatToString(1) == "1" && NatToString(2) == "2";
    assert NatToString(10) == NatToString(1) + "0";
    assert NatToString(20) == NatToString(2) + "0";
    assert NatToString(12) == NatToString(1) + "2";
    assert NatToString(120) == NatToString(12) + "0";
    assert NatToString(1203) == NatToString(120) + "3";
  }

  lemma StripSamples()
    ensures StripAsWritten("10") == "" && StripAsWritten("10.0") == "" && StripAsWritten("20.0") == ""
    ensures StripAsWritten("1203.0") == "13"
  {
    assert "10.0"[2..] == ".0" && "20.0"[2..] == ".0";
    assert "1203.0"[1..] == "203.0" && "203.0"[2..] == "3.0" && "3.0"[1..] == ".0";
  }

  /** The intended clean-up: drop a trailing ".0" and nothing else. */
  function StripSuffix(s: string): (r: string)
    ensures |s| >= 2 && s[|s| - 2..] == ".0" ==> s == r + ".0"
    ensures !(|s| >= 2 && s[|s| - 2..] == ".0") ==> r == s
  {
    if |s| >= 2 && s[|s| - 2..] == ".0" then s[..|s| - 2] else s
  }

  /** The key of a product in the time-per-product table. */
  function Key(id: Option<int>, floatColumn: bool): string
  {
    StripSuffix(Render(id, floatColumn))
  }

  lemma NoDotInInt(n: int)
    ensures '.' !in IntToString(n)
  {
    IntToStringChars(n);
  }

  /** With the corrected clean-up a present id keys as its integer text,
      whatever the column type. */
  lemma KeyOfPresent(n: int, floatColumn: bool)
    ensures Key(Some(n), floatColumn) == IntToString(n)
  {
    var s := IntToString(n);
    NoDotInInt(n);
    if floatColumn {
      assert (s + ".0")[..|s|] == s;
    }
  }

  /** With the corrected clean-up distinct present ids keep distinct keys,
      and no present id keys as a missing one. */
  lemma KeyInjective(a: int, b: int, floatColumn: bool)
    ensures Key(Some(a), floatColumn) == Key(Some(b), floatColumn) <==> a == b
    ensures Key(Some(a), floatColumn) != Key(None, floatColumn)
  {
    KeyOfPresent(a, floatColumn);
    KeyOfPresent(b, floatColumn);
    if IntToString(a) == IntToString(b) {
      IntRoundTrip(a);
      IntRoundTrip(b);
    }
    assert "nan"[0] == 'n';
  }
}
