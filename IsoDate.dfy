/** Dates written as text: `date.isoformat()` / `strftime("%Y-%m-%d")` and
    `datetime.strptime(s, "%Y-%m-%d").date()`, which accepts more than the
    canonical form (one-digit months and days, a day written " 5"). */
module IsoDate {

  import opened Wrappers
  import opened Text
  import opened Calendar

  function Pad2(n: int): (s: string)
    requires 0 <= n <= 99
    ensures |s| == 2 && AllDigits(s)
  {
    [DigitChar(n / 10), DigitChar(n % 10)]
  }

  function Pad4(n: int): (s: string)
    requires 0 <= n <= 9999
    ensures |s| == 4 && AllDigits(s)
  {
    [DigitChar(n / 1000), DigitChar(n / 100 % 10), DigitChar(n / 10 % 10), DigitChar(n % 10)]
  }

  /** `YYYY-MM-DD`, zero-padded. */
  function FormatIsoDate(d: CalDate): (s: string)
    ensures |s| == 10 && s[4] == '-' && s[7] == '-'
  {
    Pad4(d.year) + "-" + Pad2(d.month) + "-" + Pad2(d.day)
  }

  /** The text `%m` accepts: `1[0-2]|0[1-9]|[1-9]`. */
  predicate MonthToken(t: string) {
    || (|t| == 1 && '1' <= t[0] <= '9')
    || (|t| == 2 && ((t[0] == '1' && '0' <= t[1] <= '2') || (t[0] == '0' && '1' <= t[1] <= '9')))
  }

  /** The text `%d` accepts as the whole remainder: `3[01]|[12]\d|0[1-9]|[1-9]| [1-9]`. */
  predicate DayToken(t: string) {
    || (|t| == 1 && '1' <= t[0] <= '9')
    || (|t| == 2 && (|| (t[0] == '3' && '0' <= t[1] <= '1')
                     || ('1' <= t[0] <= '2' && IsDigit(t[1]))
                     || ((t[0] == '0' || t[0] == ' ') && '1' <= t[1] <= '9')))
  }

  function YearValue(t: string): int
    requires |t| == 4 && AllDigits(t)
  {
    DigitValue(t[0]) * 1000 + DigitValue(t[1]) * 100 + DigitValue(t[2]) * 10 + DigitValue(t[3])
  }

  /** The number a month or day token denotes (a leading space counts as 0). */
  function FieldValue(t: string): int
    requires MonthToken(t) || DayToken(t)
  {
    if |t| == 1 then DigitValue(t[0])
    else (if t[0] == ' ' then 0 else DigitValue(t[0])) * 10 + DigitValue(t[1])
  }

  /** `datetime.strptime(s, "%Y-%m-%d").date()`, with None for ValueError:
      four year digits, a dash, a month token, a dash, and a day token that
      must take up the rest of the string; the triple must be a real date
      (year 0 and days past the month's end are refused). */
  function ParseIsoDate(s: string): (r: Option<CalDate>)
    ensures r.Some? ==> |s| >= 8 && AllDigits(s[..4]) && YearValue(s[..4]) == r.value.year
    ensures r.Some? ==>
      var m := if s[6] == '-' then 6 else 7;
      && s[4] == '-' && m < |s| && s[m] == '-'
      && MonthToken(s[5..m]) && FieldValue(s[5..m]) == r.value.month
      && DayToken(s[m + 1..]) && FieldValue(s[m + 1..]) == r.value.day
    ensures && |s| >= 8 && AllDigits(s[..4]) && s[4] == '-'
            && (var m := if s[6] == '-' then 6 else 7;
                && m < |s| && s[m] == '-' && MonthToken(s[5..m]) && DayToken(s[m + 1..])
                && ValidDate(Date(YearValue(s[..4]), FieldValue(s[5..m]), FieldValue(s[m + 1..]))))
            ==> r.Some?
  {
    if |s| < 7 || !AllDigits(s[..4]) || s[4] != '-' then None
    else
      var rest := s[5..];
      var k := if rest[1] == '-' then 1 else 2;
      if |rest| <= k || rest[k] != '-' then None
      else
        var mt, dt := rest[..k], rest[k + 1..];
        assert mt == s[5..5 + k] && dt == s[5 + k + 1..];
        if !MonthToken(mt) || !DayToken(dt) then None
        else
          var d := Date(YearValue(s[..4]), FieldValue(mt), FieldValue(dt));
          if ValidDate(d) then Some(d) else None
  }

  lemma YearPadValue(y: int)
    requires 0 <= y <= 9999
    ensures YearValue(Pad4(y)) == y
  {
    var t := Pad4(y);
    assert YearValue(t) == (y / 1000) * 1000 + (y / 100 % 10) * 100 + (y / 10 % 10) * 10 + y % 10;
    FourDigits(y);
  }

  /** A number below 10000 is the sum of its four decimal digits' place values. */
  lemma FourDigits(y: int)
    requires 0 <= y <= 9999
    ensures (y / 1000) * 1000 + (y / 100 % 10) * 100 + (y / 10 % 10) * 10 + y % 10 == y
  {
    var h, t := y / 100, y / 10;
    assert h / 10 == y / 1000;
    assert h == (h / 10) * 10 + h % 10;
    assert t / 10 == h;
    assert t == (t / 10) * 10 + t % 10;
    assert y == t * 10 + y % 10;
  }

  lemma FieldPadValue(n: int)
    requires 1 <= n <= 31
    ensures DayToken(Pad2(n)) && FieldValue(Pad2(n)) == n
    ensures n <= 12 ==> MonthToken(Pad2(n))
  {
  }

  lemma PadValues(d: CalDate)
    ensures YearValue(Pad4(d.year)) == d.year
    ensures MonthToken(Pad2(d.month)) && FieldValue(Pad2(d.month)) == d.month
    ensures DayToken(Pad2(d.day)) && FieldValue(Pad2(d.day)) == d.day
  {
    YearPadValue(d.year);
    FieldPadValue(d.month);
    FieldPadValue(d.day);
  }

  /** Parsing the rendered date gives the date back. */
  lemma {:induction false} ParseFormatRoundTrip(d: CalDate)
    ensures ParseIsoDate(FormatIsoDate(d)) == Some(d)
  {
    var s := FormatIsoDate(d);
    PadValues(d);
    assert s[..4] == Pad4(d.year);
    var rest := s[5..];
    assert rest[2] == '-' && rest[1] != '-';
    assert rest[..2] == Pad2(d.month);
    assert rest[3..] == Pad2(d.day);
  }

  /** Rendering is injective: two dates with the same text are the same date. */
  lemma FormatInjective(a: CalDate, b: CalDate)
    requires FormatIsoDate(a) == FormatIsoDate(b)
    ensures a == b
  {
    ParseFormatRoundTrip(a);
    ParseFormatRoundTrip(b);
  }

  /** The parser is as lenient as strptime: an unpadded month and day, or a
      day written with a leading space, are read as the same date. */
  lemma ParseAcceptsUnpadded()
    ensures ParseIsoDate("2024-3-4") == Some(Date(2024, 3, 4))
    ensures ParseIsoDate("2024-03- 4") == Some(Date(2024, 3, 4))
    ensures ParseIsoDate("2023-02-29") == None
    ensures ParseIsoDate("0000-01-01") == None
    ensures ParseIsoDate("2024-03-04 ") == None
  {
    assert "2024-3-4"[5..][1] == '-';
    assert "2024-3-4"[5..][..1] == "3";
    assert "2024-3-4"[5..][2..] == "4";
    assert "2024-03- 4"[5..][..2] == "03";
    assert "2024-03- 4"[5..][3..] == " 4";
    assert "2024-3-4"[..4] == "2024";
    assert "2024-03- 4"[..4] == "2024";
    assert "2023-02-29"[5..][..2] == "02";
    assert "2023-02-29"[5..][3..] == "29";
    assert "2023-02-29"[..4] == "2023";
    assert "0000-01-01"[..4] == "0000";
    assert "2024-03-04 "[5..][3..] == "04 ";
  }
}
