/** `_fmt_date`: an ISO date `YYYY-MM-DD` written as a long Dutch date
    ("7 maart 1951"). A string that `datetime.strptime(s, "%Y-%m-%d")`
    refuses, including an impossible calendar date, comes back unchanged.

    The fields are read as CPython's `_strptime` reads them: `%Y` is exactly
    four digits, `%m` is `1[0-2]`, `0[1-9]` or `[1-9]`, `%d` is `3[01]`,
    `[12]\d`, `0[1-9]`, `[1-9]` or a space and `[1-9]`, and the whole string
    must be consumed. The date must then exist: year 1 to 9999, and the day
    within its month, with Gregorian leap years. */
module DutchDate {
  import opened Wrappers
  import opened Text

  const MonthNames: seq<string> := ["januari", "februari", "maart", "april", "mei", "juni",
                                    "juli", "augustus", "september", "oktober", "november", "december"]

  datatype Date = Date(year: nat, month: nat, day: nat)

  predicate IsLeapYear(y: nat) {
    y % 4 == 0 && (y % 100 != 0 || y % 400 == 0)
  }

  function DaysInMonth(y: nat, m: nat): nat
    requires 1 <= m <= 12
  {
    if m == 2 then (if IsLeapYear(y) then 29 else 28)
    else if m == 4 || m == 6 || m == 9 || m == 11 then 30
    else 31
  }

  /** A date `datetime` can represent. */
  predicate ValidDate(d: Date) {
    1 <= d.year <= 9999 && 1 <= d.month <= 12 && 1 <= d.day <= DaysInMonth(d.year, d.month)
  }

  // ---------------------------------------------------------------------
  // The three fields
  // ---------------------------------------------------------------------

  predicate IsNonZeroDigit(c: char) {
    '1' <= c <= '9'
  }

  function ParseYear(s: string): (r: Option<nat>)
    ensures r.Some? ==> r.value <= 9999
  {
    if |s| == 4 && AllDigits(s) then
      DigitsValueBound(s);
      Some(DigitsValue(s))
    else None
  }

  lemma {:induction false} DigitsValueBound(s: string)
    requires AllDigits(s)
    ensures DigitsValue(s) < Pow10(|s|)
    decreases |s|
  {
    if |s| > 0 {
      DigitsValueBound(s[..|s| - 1]);
    }
  }

  function ParseMonth(s: string): (r: Option<nat>)
    ensures r.Some? ==> 1 <= r.value <= 12
  {
    if |s| == 1 && IsNonZeroDigit(s[0]) then Some(DigitValue(s[0]))
    else if |s| == 2 && s[0] == '0' && IsNonZeroDigit(s[1]) then Some(DigitValue(s[1]))
    else if |s| == 2 && s[0] == '1' && '0' <= s[1] <= '2' then Some(10 + DigitValue(s[1]))
    else None
  }

  function ParseDay(s: string): (r: Option<nat>)
    ensures r.Some? ==> 1 <= r.value <= 31
  {
    if |s| == 1 && IsNonZeroDigit(s[0]) then Some(DigitValue(s[0]))
    else if |s| == 2 && (s[0] == '0' || s[0] == ' ') && IsNonZeroDigit(s[1]) then Some(DigitValue(s[1]))
    else if |s| == 2 && (s[0] == '1' || s[0] == '2') && IsDigit(s[1]) then Some(DigitValue(s[0]) * 10 + DigitValue(s[1]))
    else if |s| == 2 && s[0] == '3' && (s[1] == '0' || s[1] == '1') then Some(30 + DigitValue(s[1]))
    else None
  }

  /** The position of the first `c` in `s`. */
  function FirstIndexOf(s: string, c: char): (r: Option<nat>)
    ensures r.Some? ==> r.value < |s| && s[r.value] == c && c !in s[..r.value]
    ensures r.None? ==> c !in s
  {
    if |s| == 0 then None
    else if s[0] == c then Some(0)
    else match FirstIndexOf(s[1..], c)
      case None => None
      case Some(i) =>
        assert s[..i + 1] == [s[0]] + s[1..][..i];
        Some(i + 1)
  }

  lemma {:induction false} FirstIndexOfSplit(a: string, c: char, b: string)
    requires c !in a
    ensures FirstIndexOf(a + [c] + b, c) == Some(|a|)
    decreases |a|
  {
    if |a| > 0 {
      assert (a + [c] + b)[1..] == a[1..] + [c] + b;
      assert c !in a[1..] by { assert forall k :: 0 <= k < |a[1..]| ==> a[1..][k] == a[k + 1]; }
      FirstIndexOfSplit(a[1..], c, b);
    }
  }

  /** `datetime.strptime(s, "%Y-%m-%d")`, as a date, or `None` where it
      raises `ValueError`. The month field ends at the first dash after the
      year, since no month form contains a dash. */
  function ParseIsoDate(s: string): (r: Option<Date>)
    ensures r.Some? ==> ValidDate(r.value)
  {
    if |s| < 5 || s[4] != '-' then None
    else
      var rest := s[5..];
      match FirstIndexOf(rest, '-')
      case None => None
      case Some(j) =>
        var y, m, d := ParseYear(s[..4]), ParseMonth(rest[..j]), ParseDay(rest[j + 1..]);
        if y.Some? && m.Some? && d.Some? && ValidDate(Date(y.value, m.value, d.value))
        then Some(Date(y.value, m.value, d.value))
        else None
  }

  // ---------------------------------------------------------------------
  // Formatting
  // ---------------------------------------------------------------------

  /** `f"{dt.day} {months[dt.month-1]} {dt.year}"`: no leading zeros. */
  function DutchLongDate(d: Date): string
    requires 1 <= d.month <= 12
  {
    NatToString(d.day) + " " + MonthNames[d.month - 1] + " " + NatToString(d.year)
  }

  /** `_fmt_date`. */
  function FormatDate(s: Option<string>): (r: Option<string>)
    ensures r.None? <==> !Truthy(s)
    ensures r.Some? ==> |r.value| > 0
    ensures Truthy(s) && ParseIsoDate(s.value).None? ==> r == s
    ensures Truthy(s) && ParseIsoDate(s.value).Some? ==> r == Some(DutchLongDate(ParseIsoDate(s.value).value))
  {
    if !Truthy(s) then None
    else match ParseIsoDate(s.value)
      case None => s
      case Some(d) => Some(DutchLongDate(d))
  }

  // ---------------------------------------------------------------------
  // ISO strings
  // ---------------------------------------------------------------------

  lemma {:induction false} NatToStringLength(n: nat, k: nat)
    requires k >= 1 && n < Pow10(k)
    ensures |NatToString(n)| <= k
    decreases n
  {
    if n >= 10 {
      assert k >= 2;
      assert n / 10 < Pow10(k - 1);
      NatToStringLength(n / 10, k - 1);
    }
  }

  /** `n` in decimal, left-padded with zeros to `width` digits. */
  function Padded(n: nat, width: nat): (s: string)
    requires n < Pow10(width) && width >= 1
    ensures |s| == width && AllDigits(s) && DigitsValue(s) == n
  {
    NatToStringLength(n, width);
    var digits := NatToString(n);
    LeadingZeros(width - |digits|, digits);
    NatToStringRoundTrip(n);
    Zeros(width - |digits|) + digits
  }

  /** The canonical ISO spelling `YYYY-MM-DD` of a date. */
  function IsoString(d: Date): string
    requires d.year <= 9999 && d.month <= 99 && d.day <= 99
  {
    Padded(d.year, 4) + "-" + Padded(d.month, 2) + "-" + Padded(d.day, 2)
  }

  lemma TwoDigits(s: string)
    requires |s| == 2 && AllDigits(s)
    ensures DigitsValue(s) == DigitValue(s[0]) * 10 + DigitValue(s[1])
  {
    var p := s[..1];
    assert s[..|s| - 1] == p;
    assert p[..|p| - 1] == [];
    assert DigitsValue(p) == DigitValue(s[0]);
  }

  lemma ParseMonthPadded(m: nat)
    requires 1 <= m <= 12
    ensures ParseMonth(Padded(m, 2)) == Some(m)
  {
    TwoDigits(Padded(m, 2));
  }

  lemma ParseDayPadded(d: nat)
    requires 1 <= d <= 31
    ensures ParseDay(Padded(d, 2)) == Some(d)
  {
    TwoDigits(Padded(d, 2));
  }

  lemma ParseYearPadded(y: nat)
    requires y <= 9999
    ensures ParseYear(Padded(y, 4)) == Some(y)
  {
  }

  /** The fields of a well-formed ISO string, whether or not they make a
      calendar date. */
  lemma ParseIsoFields(d: Date)
    requires d.year <= 9999 && 1 <= d.month <= 12 && 1 <= d.day <= 31
    ensures ParseIsoDate(IsoString(d)) ==
      if ValidDate(d) then Some(d) else None
  {
    var y, m, dd := Padded(d.year, 4), Padded(d.month, 2), Padded(d.day, 2);
    assert '-' !in m by {
      forall i | 0 <= i < |m| ensures m[i] != '-' { assert IsDigit(m[i]); }
    }
    ParseIsoOfFields(y, m, dd);
    ParseYearPadded(d.year);
    ParseMonthPadded(d.month);
    ParseDayPadded(d.day);
  }

  /** Every calendar date in ISO form becomes its long Dutch form. */
  lemma FormatValidIsoDate(d: Date)
    requires ValidDate(d)
    ensures FormatDate(Some(IsoString(d))) == Some(DutchLongDate(d))
  {
    ParseIsoFields(d);
  }

  /** A well-formed ISO string naming a day that does not exist (the 30th
      of February, the 29th of February outside a leap year, year 0) comes
      back unchanged. */
  lemma FormatImpossibleDateUnchanged(d: Date)
    requires d.year <= 9999 && 1 <= d.month <= 12 && 1 <= d.day <= 31
    requires !ValidDate(d)
    ensures FormatDate(Some(IsoString(d))) == Some(IsoString(d))
  {
    ParseIsoFields(d);
  }

  /** A 29th of February exists exactly in leap years. */
  lemma LeapDay(y: nat)
    requires 1 <= y <= 9999
    ensures IsLeapYear(y) ==> FormatDate(Some(IsoString(Date(y, 2, 29)))) == Some(DutchLongDate(Date(y, 2, 29)))
    ensures !IsLeapYear(y) ==> FormatDate(Some(IsoString(Date(y, 2, 29)))) == Some(IsoString(Date(y, 2, 29)))
  {
    ParseIsoFields(Date(y, 2, 29));
  }

  lemma YearExample()
    ensures ParseYear("1951") == Some(1951)
    ensures NatToString(1951) == "1951"
  {
    var s := "1951";
    assert s[..3] == "195" && s[..3][..2] == "19" && s[..3][..2][..1] == "1" && s[..3][..2][..1][..0] == "";
    assert NatToString(1) == "1";
    assert NatToString(19) == "19";
    assert NatToString(195) == "195";
    assert NatToString(1951) == "1951";
    NatToStringRoundTrip(1951);
    assert AllDigits(s);
  }

  /** A string of the form `year-month-day`, where the month field holds
      no dash, is parsed field by field. */
  lemma ParseIsoOfFields(ys: string, ms: string, ds: string)
    requires |ys| == 4 && '-' !in ms
    ensures ParseIsoDate(ys + "-" + ms + "-" + ds) ==
      var y, m, d := ParseYear(ys), ParseMonth(ms), ParseDay(ds);
      if y.Some? && m.Some? && d.Some? && ValidDate(Date(y.value, m.value, d.value))
      then Some(Date(y.value, m.value, d.value))
      else None
  {
    var s := ys + "-" + ms + "-" + ds;
    assert s[..4] == ys && s[4] == '-';
    assert s[5..] == ms + ['-'] + ds;
    FirstIndexOfSplit(ms, '-', ds);
    assert s[5..][..|ms|] == ms;
    assert s[5..][|ms| + 1..] == ds;
  }

  lemma SeventhOfMarch1951()
    ensures ValidDate(Date(1951, 3, 7))
    ensures DutchLongDate(Date(1951, 3, 7)) == "7 maart 1951"
  {
    YearExample();
    assert NatToString(7) == "7";
    assert MonthNames[2] == "maart";
  }

  /** An ISO date with two-digit fields. */
  lemma FormatExample()
    ensures FormatDate(Some("1951-03-07")) == Some("7 maart 1951")
  {
    assert "1951-03-07" == "1951" + "-" + "03" + "-" + "07";
    ParseIsoOfFields("1951", "03", "07");
    YearExample();
    assert ParseMonth("03") == Some(3);
    assert ParseDay("07") == Some(7);
    SeventhOfMarch1951();
  }

  /** Single-digit fields and a day written with a space are accepted too. */
  lemma ShortFieldExample()
    ensures FormatDate(Some("1951-3- 7")) == Some("7 maart 1951")
  {
    assert "1951-3- 7" == "1951" + "-" + "3" + "-" + " 7";
    ParseIsoOfFields("1951", "3", " 7");
    YearExample();
    assert ParseMonth("3") == Some(3);
    assert ParseDay(" 7") == Some(7);
    SeventhOfMarch1951();
  }

  /** A month field out of range leaves the string unchanged. */
  lemma BadMonthExample()
    ensures FormatDate(Some("1951-13-07")) == Some("1951-13-07")
  {
    assert "1951-13-07" == "1951" + "-" + "13" + "-" + "07";
    ParseIsoOfFields("1951", "13", "07");
    assert ParseMonth("13") == None;
  }

  /** Trailing text leaves the string unchanged: the whole string must match. */
  lemma TrailingTextExample()
    ensures FormatDate(Some("1951-03-07 ")) == Some("1951-03-07 ")
  {
    assert "1951-03-07 " == "1951" + "-" + "03" + "-" + "07 ";
    ParseIsoOfFields("1951", "03", "07 ");
    assert ParseDay("07 ") == None;
  }
}
