/**
 * The date fields of the history forms: Python's
 * `datetime.strptime(s, '%Y-%m-%d')` followed by `.strftime('%m/%d/%Y')`
 * (front_end/route_scaling_management.py:165-179). `strptime` matches `%Y`
 * as exactly four digits, `%m` as `1[0-2]|0[1-9]|[1-9]` and `%d` as
 * `3[01]|[12]\d|0[1-9]|[1-9]| [1-9]`, taking the first alternative that
 * matches, rejects text left over after the day, and `datetime` then rejects a
 * day the month does not have and the year 0.
 */
module FormDates {
  import opened Wrappers

  predicate IsDigit(c: char) {
    '0' <= c <= '9'
  }

  /** `'1' <= c <= '9'`. */
  predicate IsNonZeroDigit(c: char) {
    '1' <= c <= '9'
  }

  function DigitValue(c: char): (n: int)
    requires IsDigit(c)
    ensures 0 <= n < 10
  {
    c as int - '0' as int
  }

  function Digit(n: int): (c: char)
    requires 0 <= n < 10
    ensures IsDigit(c) && DigitValue(c) == n
  {
    ('0' as int + n) as char
  }

  /** The value of two decimal digits. */
  function TwoDigits(a: char, b: char): (n: int)
    requires IsDigit(a) && IsDigit(b)
    ensures 0 <= n < 100
  {
    10 * DigitValue(a) + DigitValue(b)
  }

  datatype Date = Date(year: int, month: int, day: int)

  predicate IsLeapYear(y: int) {
    y % 4 == 0 && (y % 100 != 0 || y % 400 == 0)
  }

  function DaysInMonth(y: int, m: int): (n: int)
    requires 1 <= m <= 12
    ensures 28 <= n <= 31
  {
    if m == 2 then (if IsLeapYear(y) then 29 else 28)
    else if m == 4 || m == 6 || m == 9 || m == 11 then 30
    else 31
  }

  /** What `datetime(year, month, day)` accepts. */
  predicate ValidDate(d: Date) {
    1 <= d.year <= 9999 && 1 <= d.month <= 12 && 1 <= d.day <= DaysInMonth(d.year, d.month)
  }

  // ---------------------------------------------------------------------------
  // strptime(s, '%Y-%m-%d')

  /** `%Y`: four digits. */
  function YearField(s: string): (y: Option<int>)
    ensures y.Some? ==> 0 <= y.value <= 9999
  {
    if |s| == 4 && IsDigit(s[0]) && IsDigit(s[1]) && IsDigit(s[2]) && IsDigit(s[3])
    then Some(100 * TwoDigits(s[0], s[1]) + TwoDigits(s[2], s[3]))
    else None
  }

  /** `%m` followed by `-`: the month and the text after the dash. */
  function MonthField(s: string): (r: Option<(int, string)>)
    ensures r.Some? ==> 1 <= r.value.0 <= 12 && |r.value.1| < |s|
  {
    if |s| >= 3 && ((s[0] == '1' && '0' <= s[1] <= '2') || (s[0] == '0' && IsNonZeroDigit(s[1]))) && s[2] == '-'
    then Some((TwoDigits(s[0], s[1]), s[3..]))
    else if |s| >= 2 && IsNonZeroDigit(s[0]) && s[1] == '-' then Some((DigitValue(s[0]), s[2..]))
    else None
  }

  /** `%d` at the end of the text: the first alternative that matches must take all of it. */
  function DayField(s: string): (d: Option<int>)
    ensures d.Some? ==> 1 <= d.value <= 31
  {
    if |s| >= 2 && s[0] == '3' && (s[1] == '0' || s[1] == '1') then
      (if |s| == 2 then Some(TwoDigits(s[0], s[1])) else None)
    else if |s| >= 2 && (s[0] == '1' || s[0] == '2') && IsDigit(s[1]) then
      (if |s| == 2 then Some(TwoDigits(s[0], s[1])) else None)
    else if |s| >= 2 && s[0] == '0' && IsNonZeroDigit(s[1]) then
      (if |s| == 2 then Some(DigitValue(s[1])) else None)
    else if |s| >= 1 && IsNonZeroDigit(s[0]) then
      (if |s| == 1 then Some(DigitValue(s[0])) else None)
    else if |s| >= 2 && s[0] == ' ' && IsNonZeroDigit(s[1]) then
      (if |s| == 2 then Some(DigitValue(s[1])) else None)
    else None
  }

  /** `datetime.strptime(s, '%Y-%m-%d')`; None where it raises `ValueError`. */
  function ParseIsoDate(s: string): (r: Option<Date>)
    ensures r.Some? ==> ValidDate(r.value)
  {
    if |s| < 5 || s[4] != '-' then None
    else
      var y := YearField(s[..4]);
      var m := MonthField(s[5..]);
      if y.None? || m.None? then None
      else
        var d := DayField(m.value.1);
        if d.None? then None
        else
          var date := Date(y.value, m.value.0, d.value);
          if ValidDate(date) then Some(date) else None
  }

  // ---------------------------------------------------------------------------
  // strftime

  /** Two digits, zero-padded. */
  function Pad2(n: int): (s: string)
    requires 0 <= n < 100
    ensures |s| == 2 && IsDigit(s[0]) && IsDigit(s[1]) && TwoDigits(s[0], s[1]) == n
  {
    [Digit(n / 10), Digit(n % 10)]
  }

  /** Four digits, zero-padded. */
  function Pad4(n: int): (s: string)
    requires 0 <= n < 10000
    ensures |s| == 4 && YearField(s) == Some(n)
  {
    Pad2(n / 100) + Pad2(n % 100)
  }

  /** `strftime('%m/%d/%Y')`. */
  function FormatUs(d: Date): string
    requires ValidDate(d)
  {
    Pad2(d.month) + "/" + Pad2(d.day) + "/" + Pad4(d.year)
  }

  /** The canonical spelling `YYYY-MM-DD`. */
  function FormatIso(d: Date): string
    requires ValidDate(d)
  {
    Pad4(d.year) + "-" + Pad2(d.month) + "-" + Pad2(d.day)
  }

  /** The form's date as the API expects it; None where `strptime` raises. */
  function ReformatDate(s: string): (r: Option<string>)
    ensures r.Some? <==> ParseIsoDate(s).Some?
    ensures r.Some? ==> |r.value| == 10 && r.value[2] == '/' && r.value[5] == '/'
  {
    var d := ParseIsoDate(s);
    if d.None? then None else Some(FormatUs(d.value))
  }

  // ---------------------------------------------------------------------------
  // Properties

  /** A zero-padded month followed by a dash is read back. */
  lemma MonthOfPad(m: int, rest: string)
    requires 1 <= m <= 12
    ensures MonthField(Pad2(m) + "-" + rest) == Some((m, rest))
  {
    assert (Pad2(m) + "-" + rest)[3..] == rest;
  }

  /** A zero-padded day is read back. */
  lemma DayOfPad(d: int)
    requires 1 <= d <= 31
    ensures DayField(Pad2(d)) == Some(d)
  {
  }

  /** Every valid date spelt `YYYY-MM-DD` is accepted and read back unchanged. */
  lemma IsoRoundTrip(d: Date)
    requires ValidDate(d)
    ensures ParseIsoDate(FormatIso(d)) == Some(d)
  {
    var s := FormatIso(d);
    var y, m, dd := Pad4(d.year), Pad2(d.month), Pad2(d.day);
    assert s[..4] == y;
    assert s[4] == '-';
    assert s[5..] == m + "-" + dd;
    MonthOfPad(d.month, dd);
    DayOfPad(d.day);
  }

  /** Reformatting a canonical date only moves its fields: `YYYY-MM-DD` becomes `MM/DD/YYYY`. */
  lemma ReformatMovesFields(d: Date)
    requires ValidDate(d)
    ensures var s := FormatIso(d);
      ReformatDate(s) == Some(s[5..7] + "/" + s[8..10] + "/" + s[..4])
  {
    IsoRoundTrip(d);
    var s := FormatIso(d);
    assert s[5..7] == Pad2(d.month);
    assert s[8..10] == Pad2(d.day);
    assert s[..4] == Pad4(d.year);
  }

  /** Distinct dates are sent as distinct text: the reformatted date determines the date. */
  lemma FormatUsInjective(d1: Date, d2: Date)
    requires ValidDate(d1) && ValidDate(d2)
    requires FormatUs(d1) == FormatUs(d2)
    ensures d1 == d2
  {
    var s1, s2 := FormatUs(d1), FormatUs(d2);
    assert s1[..2] == Pad2(d1.month) && s2[..2] == Pad2(d2.month);
    assert s1[3..5] == Pad2(d1.day) && s2[3..5] == Pad2(d2.day);
    assert s1[6..] == Pad4(d1.year) && s2[6..] == Pad4(d2.year);
  }

  /** February 29th exists in leap years: every fourth year, and centuries divisible by 400 ... */
  lemma LeapDayAccepted()
    ensures ParseIsoDate("2024-02-29") == Some(Date(2024, 2, 29))
    ensures ParseIsoDate("2000-02-29") == Some(Date(2000, 2, 29))
  {
    assert MonthField("02-29") == Some((2, "29"));
  }

  /** ... and not in other years, nor in centuries not divisible by 400. */
  lemma LeapDayRejected()
    ensures ParseIsoDate("2023-02-29") == None
    ensures ParseIsoDate("1900-02-29") == None
  {
    assert MonthField("02-29") == Some((2, "29"));
  }

  /** `strptime` also accepts a one-digit month and a one-digit or space-padded day. */
  lemma LenientSpellings()
    ensures ParseIsoDate("2024-1-5") == Some(Date(2024, 1, 5))
    ensures ParseIsoDate("2024-01- 5") == Some(Date(2024, 1, 5))
  {
    assert MonthField("1-5") == Some((1, "5"));
    assert MonthField("01- 5") == Some((1, " 5"));
  }

  /** `strftime` writes every field as its decimal digits, most significant first, padded with zeros:
      the year as its hundreds followed by the rest. */
  lemma FormatUsDigits(d: Date)
    requires ValidDate(d)
    ensures var y, m, dd := d.year, d.month, d.day;
      FormatUs(d) ==
        [Digit(m / 10), Digit(m % 10), '/', Digit(dd / 10), Digit(dd % 10), '/',
         Digit(y / 100 / 10), Digit(y / 100 % 10), Digit(y % 100 / 10), Digit(y % 100 % 10)]
  {
    assert Pad4(d.year) == Pad2(d.year / 100) + Pad2(d.year % 100);
  }

  /** Helper for the next lemma: 5 January 2024 in the `%m/%d/%Y` format. */
  lemma FormatUsJanuaryFifth()
    ensures FormatUs(Date(2024, 1, 5)) == "01/05/2024"
  {
    FormatUsDigits(Date(2024, 1, 5));
    assert Digit(0) == '0' && Digit(1) == '1' && Digit(2) == '2' && Digit(4) == '4' && Digit(5) == '5';
  }

  /** The date is sent zero-padded, however it was spelt. */
  lemma LenientSpellingsPadded()
    ensures ReformatDate("2024-1-5") == Some("01/05/2024")
    ensures ReformatDate("2024-01- 5") == Some("01/05/2024")
  {
    LenientSpellings();
    FormatUsJanuaryFifth();
  }

  /** Month 13, day 32, year 0 and a two-digit year are all refused. */
  lemma RejectedSpellings()
    ensures ParseIsoDate("2024-13-01") == None
    ensures ParseIsoDate("2024-01-32") == None
    ensures ParseIsoDate("0000-01-01") == None
    ensures ParseIsoDate("24-01-01") == None
  {
    assert MonthField("01-32") == Some((1, "32"));
  }
}
