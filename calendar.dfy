/**
 * Python's `datetime` as far as the crawler uses it: proleptic Gregorian
 * dates from 0001-01-01 to 9999-12-31, day ordinals (`date.toordinal`),
 * date-times at one-second resolution, subtraction of a `timedelta`
 * (which raises `OverflowError` below 0001-01-01), whole days between two
 * date-times (`timedelta.days`, a floor division), `strftime('%Y-%m-%d')`,
 * and `strptime` with the formats '%Y-%m-%d', '%d %b %Y' and '%d %B %Y'.
 */
module Calendar {
  import opened Wrappers
  import opened Text

  datatype Date = Date(year: int, month: int, day: int)

  predicate IsLeap(y: int)
  {
    y % 4 == 0 && (y % 100 != 0 || y % 400 == 0)
  }

  function DaysInMonth(y: int, m: int): int
    requires 1 <= m <= 12
  {
    if m == 2 then (if IsLeap(y) then 29 else 28)
    else if m == 4 || m == 6 || m == 9 || m == 11 then 30
    else 31
  }

  /** The checks `datetime(y, m, d)` makes before it accepts a date. */
  predicate Valid(d: Date)
  {
    1 <= d.year <= 9999 && 1 <= d.month <= 12 && 1 <= d.day <= DaysInMonth(d.year, d.month)
  }

  const MinDate: Date := Date(1, 1, 1)

  function DaysInYear(y: int): int
  {
    if IsLeap(y) then 366 else 365
  }

  function DaysBeforeYear(y: int): nat
    requires y >= 1
    ensures y > 1 ==> DaysBeforeYear(y) >= 365
  {
    if y == 1 then 0 else DaysBeforeYear(y - 1) + DaysInYear(y - 1)
  }

  function DaysBeforeMonth(y: int, m: int): (n: nat)
    requires 1 <= m <= 12
    ensures m == 1 <==> n == 0
  {
    (if m == 1 then 0 else if m == 2 then 31 else if m == 3 then 59 else if m == 4 then 90
     else if m == 5 then 120 else if m == 6 then 151 else if m == 7 then 181 else if m == 8 then 212
     else if m == 9 then 243 else if m == 10 then 273 else if m == 11 then 304 else 334)
    + (if m > 2 && IsLeap(y) then 1 else 0)
  }

  /** `date.toordinal()`: 0001-01-01 is day 1. */
  function Ordinal(d: Date): int
    requires Valid(d)
  {
    DaysBeforeYear(d.year) + DaysBeforeMonth(d.year, d.month) + d.day
  }

  lemma OrdinalOne(d: Date)
    requires Valid(d)
    ensures Ordinal(d) >= 1
    ensures Ordinal(d) == 1 <==> d == MinDate
  {
    if d.year > 1 {
      assert DaysBeforeYear(d.year) >= 365;
    }
  }

  /** The day before `d`. */
  function PrevDay(d: Date): (r: Date)
    requires Valid(d) && d != MinDate
    ensures Valid(r) && Ordinal(r) == Ordinal(d) - 1
  {
    if d.day > 1 then Date(d.year, d.month, d.day - 1)
    else if d.month > 1 then Date(d.year, d.month - 1, DaysInMonth(d.year, d.month - 1))
    else Date(d.year - 1, 12, 31)
  }

  /** The date `n` days before `d`, for an `n` that stays within the calendar. */
  function DaysBack(d: Date, n: nat): (r: Date)
    requires Valid(d) && n < Ordinal(d)
    ensures Valid(r) && Ordinal(r) == Ordinal(d) - n
    decreases n
  {
    if n == 0 then d
    else
      OrdinalOne(d);
      DaysBack(PrevDay(d), n - 1)
  }

  /** `d - timedelta(days=n)`, or `None` where Python raises `OverflowError`
    * (a result before 0001-01-01). */
  function SubDays(d: Date, n: nat): (r: Option<Date>)
    requires Valid(d)
    ensures r.Some? <==> n < Ordinal(d)
    ensures r.Some? ==> Valid(r.value) && Ordinal(r.value) == Ordinal(d) - n
  {
    if n < Ordinal(d) then Some(DaysBack(d, n)) else None
  }

  /** A `datetime` at one-second resolution: a date and the second of that day. */
  datatype DateTime = DateTime(date: Date, second: int)

  predicate ValidDateTime(t: DateTime)
  {
    Valid(t.date) && 0 <= t.second < 86400
  }

  /** A real date and time, as a `datetime` object always is. */
  type Instant = t: DateTime | ValidDateTime(t) witness DateTime(Date(1, 1, 1), 0)

  function Midnight(d: Date): DateTime
  {
    DateTime(d, 0)
  }

  /** Seconds since 0000-12-31 00:00:00, so that 0001-01-01 00:00:00 is 86400. */
  function Seconds(t: DateTime): int
    requires ValidDateTime(t)
  {
    Ordinal(t.date) * 86400 + t.second
  }

  /** `t - timedelta(seconds=s)`, or `None` where Python raises `OverflowError`. */
  function SubSeconds(t: DateTime, s: nat): (r: Option<DateTime>)
    requires ValidDateTime(t)
    ensures r.Some? <==> Seconds(t) - s >= 86400
    ensures r.Some? ==> ValidDateTime(r.value) && Seconds(r.value) == Seconds(t) - s
  {
    var total := t.second - s;
    var back := -(total / 86400);
    var second := total % 86400;
    assert total == -back * 86400 + second;
    assert back >= 0;
    match SubDays(t.date, back)
    case None => None
    case Some(d) => Some(DateTime(d, second))
  }

  /** `(later - earlier).days`: whole days elapsed, rounded towards minus infinity. */
  function DaysElapsed(later: DateTime, earlier: DateTime): int
    requires ValidDateTime(later) && ValidDateTime(earlier)
  {
    (Seconds(later) - Seconds(earlier)) / 86400
  }

  /** Between a date-time and a midnight, the whole days elapsed are the difference of the day ordinals. */
  lemma DaysElapsedSinceMidnight(now: DateTime, d: Date)
    requires ValidDateTime(now) && Valid(d)
    ensures DaysElapsed(now, Midnight(d)) == Ordinal(now.date) - Ordinal(d)
  {
    var diff := Ordinal(now.date) - Ordinal(d);
    assert Seconds(now) - Seconds(Midnight(d)) == diff * 86400 + now.second;
  }

  // ----- strftime('%Y-%m-%d') -----

  function DigitChar(n: int): char
    requires 0 <= n < 10
  {
    ('0' as int + n) as char
  }

  /** `n` written with `width` digits, zero-padded. */
  function Padded(n: nat, width: nat): (s: string)
    ensures |s| == width && AllDigits(s)
    ensures n < Power10(width) ==> DigitsValue(s) == n
  {
    if width == 0 then []
    else Padded(n / 10, width - 1) + [DigitChar(n % 10)]
  }

  function Power10(k: nat): nat
  {
    if k == 0 then 1 else 10 * Power10(k - 1)
  }

  /** `strftime('%Y-%m-%d')`, with the year written as four digits. */
  function IsoFormat(d: Date): (s: string)
    requires Valid(d)
    ensures |s| == 10 && s[4] == '-' && s[7] == '-'
    ensures AllDigits(s[..4]) && AllDigits(s[5..7]) && AllDigits(s[8..])
  {
    var s := Padded(d.year, 4) + "-" + Padded(d.month, 2) + "-" + Padded(d.day, 2);
    assert s[..4] == Padded(d.year, 4) && s[5..7] == Padded(d.month, 2) && s[8..] == Padded(d.day, 2);
    s
  }

  // ----- strptime -----

  /** The `%d` directive: the first of its alternatives `3[01]`, `[12]\d`, `0[1-9]`,
    * `[1-9]`, ` [1-9]` that matches at `i`; the day and the index after it. */
  function DayToken(s: string, i: nat): (r: Option<(int, nat)>)
    ensures r.Some? ==> 1 <= r.value.0 <= 31 && i < r.value.1 <= |s|
  {
    if i + 1 < |s| && s[i] == '3' && (s[i + 1] == '0' || s[i + 1] == '1') then
      Some((30 + (s[i + 1] as int - '0' as int), i + 2))
    else if i + 1 < |s| && (s[i] == '1' || s[i] == '2') && IsDigit(s[i + 1]) then
      Some((10 * (s[i] as int - '0' as int) + (s[i + 1] as int - '0' as int), i + 2))
    else if i + 1 < |s| && s[i] == '0' && '1' <= s[i + 1] <= '9' then
      Some((s[i + 1] as int - '0' as int, i + 2))
    else if i < |s| && '1' <= s[i] <= '9' then
      Some((s[i] as int - '0' as int, i + 1))
    else if i + 1 < |s| && s[i] == ' ' && '1' <= s[i + 1] <= '9' then
      Some((s[i + 1] as int - '0' as int, i + 2))
    else None
  }

  /** The `%m` directive followed by `-%d`: the first of `1[0-2]`, `0[1-9]`, `[1-9]`
    * after which the rest of the pattern matches; the month and the index of the day. */
  function MonthThenDay(s: string, i: nat): (r: Option<(int, nat)>)
    ensures r.Some? ==> 1 <= r.value.0 <= 12 && i < r.value.1 <= |s|
  {
    if i + 2 < |s| && s[i] == '1' && '0' <= s[i + 1] <= '2' && s[i + 2] == '-' && DayToken(s, i + 3).Some? then
      Some((10 + (s[i + 1] as int - '0' as int), i + 3))
    else if i + 2 < |s| && s[i] == '0' && '1' <= s[i + 1] <= '9' && s[i + 2] == '-' && DayToken(s, i + 3).Some? then
      Some((s[i + 1] as int - '0' as int, i + 3))
    else if i + 1 < |s| && '1' <= s[i] <= '9' && s[i + 1] == '-' && DayToken(s, i + 2).Some? then
      Some((s[i] as int - '0' as int, i + 2))
    else None
  }

  /** `datetime.strptime(s, '%Y-%m-%d').date()`, or `None` where it raises `ValueError`. */
  function ParseIsoDate(s: string): (r: Option<Date>)
    ensures r.Some? ==> Valid(r.value)
  {
    if |s| < 5 || !AllDigits(s[..4]) || s[4] != '-' then None
    else match MonthThenDay(s, 5)
      case None => None
      case Some((m, p)) =>
        match DayToken(s, p)
        case None => None
        case Some((d, q)) =>
          var date := Date(DigitsValue(s[..4]), m, d);
          if q == |s| && Valid(date) then Some(date) else None
  }

  lemma PaddedTwo(n: nat)
    requires n < 100
    ensures Padded(n, 2) == [DigitChar(n / 10), DigitChar(n % 10)]
  {
  }

  /** What `strptime('%Y-%m-%d')` reads back from `strftime('%Y-%m-%d')` is the date written. */
  lemma ParseIsoFormat(d: Date)
    requires Valid(d)
    ensures ParseIsoDate(IsoFormat(d)) == Some(d)
  {
    var s := IsoFormat(d);
    PaddedTwo(d.month);
    PaddedTwo(d.day);
    assert s[..4] == Padded(d.year, 4);
    assert s[5] == DigitChar(d.month / 10) && s[6] == DigitChar(d.month % 10);
    assert s[8] == DigitChar(d.day / 10) && s[9] == DigitChar(d.day % 10);
    assert DayToken(s, 8) == Some((d.day, 10));
    assert MonthThenDay(s, 5) == Some((d.month, 8));
  }

  /** The C locale's month names, lower-cased, as `%b` and `%B` match them. */
  const MonthAbbreviations: seq<string> :=
    ["jan", "feb", "mar", "apr", "may", "jun", "jul", "aug", "sep", "oct", "nov", "dec"]
  const MonthNames: seq<string> :=
    ["january", "february", "march", "april", "may", "june", "july", "august",
     "september", "october", "november", "december"]

  /** The 1-based index of the month name found at `i`, followed by whitespace. */
  function MonthNameAt(s: string, i: nat, names: seq<string>, k: nat): (r: Option<(int, nat)>)
    requires i <= |s| && k <= |names|
    ensures r.Some? ==> 1 <= r.value.0 <= |names| && i < r.value.1 <= |s|
    decreases |names| - k
  {
    if k == |names| then None
    else
      var n := names[k];
      if n != [] && i + |n| < |s| && Lower(s[i..i + |n|]) == n && IsSpace(s[i + |n|])
      then Some((k + 1, i + |n|))
      else MonthNameAt(s, i, names, k + 1)
  }

  /** `datetime.strptime(s, '%d <month> %Y').date()` for the month names `names`
    * (`%b` or `%B`); a space in the format matches one or more whitespace characters. */
  function ParseDayMonthYear(s: string, names: seq<string>): (r: Option<Date>)
    ensures r.Some? ==> Valid(r.value)
  {
    match DayToken(s, 0)
    case None => None
    case Some((d, p)) =>
      var q := SkipSpaces(s, p);
      if q == p then None
      else match MonthNameAt(s, q, names, 0)
        case None => None
        case Some((m, e)) =>
          var y := SkipSpaces(s, e);
          if y + 4 != |s| || !AllDigits(s[y..]) then None
          else
            var date := Date(DigitsValue(s[y..]), m, d);
            if Valid(date) then Some(date) else None
  }
}
