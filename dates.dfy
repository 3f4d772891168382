/** The calendar arithmetic the news feed relies on: `strptime(s, '%Y-%m-%d')`,
    `strftime` of dates and times, and `(expiration - now).days`. */
module Dates {
  import opened Chars
  import opened PyStrings
  import opened Wrappers

  datatype Date = Date(year: int, month: int, day: int)

  /** A `datetime` reading of the clock. */
  datatype DateTime = DateTime(date: Date, hour: int, minute: int, second: int, microsecond: int)

  predicate IsLeap(y: int) {
    y % 4 == 0 && (y % 100 != 0 || y % 400 == 0)
  }

  function DaysInMonth(y: int, m: int): (n: int)
    requires 1 <= m <= 12
    ensures 28 <= n <= 31
  {
    if m == 2 then (if IsLeap(y) then 29 else 28)
    else if m == 4 || m == 6 || m == 9 || m == 11 then 30
    else 31
  }

  /** The dates `datetime` accepts. */
  predicate ValidDate(d: Date) {
    1 <= d.year <= 9999 && 1 <= d.month <= 12 && 1 <= d.day <= DaysInMonth(d.year, d.month)
  }

  predicate ValidDateTime(t: DateTime) {
    ValidDate(t.date) && 0 <= t.hour < 24 && 0 <= t.minute < 60 && 0 <= t.second < 60
    && 0 <= t.microsecond < 1000000
  }

  // ---------------------------------------------------------------------------
  // Formatting

  /** `strftime('%Y-%m-%d')`, the year zero-filled to four digits. */
  function FormatDate(d: Date): string
    requires ValidDate(d)
  {
    ZeroPad(d.year, 4) + "-" + ZeroPad(d.month, 2) + "-" + ZeroPad(d.day, 2)
  }

  /** `strftime('%H:%M:%S')` */
  function FormatTime(t: DateTime): string
    requires ValidDateTime(t)
  {
    ZeroPad(t.hour, 2) + ":" + ZeroPad(t.minute, 2) + ":" + ZeroPad(t.second, 2)
  }

  /** `strftime('%Y-%m-%d %H:%M:%S')` */
  function FormatDateTime(t: DateTime): string
    requires ValidDateTime(t)
  {
    FormatDate(t.date) + " " + FormatTime(t)
  }

  // ---------------------------------------------------------------------------
  // Parsing

  function DigitValue(c: char): nat
    requires IsDigit(c)
  {
    c as int - '0' as int
  }

  predicate AllDigits(s: string) {
    forall i :: 0 <= i < |s| ==> IsDigit(s[i])
  }

  /** The number a string of decimal digits denotes. */
  function DigitsValue(s: string): nat
    requires AllDigits(s)
  {
    if s == [] then 0 else 10 * DigitsValue(s[..|s| - 1]) + DigitValue(s[|s| - 1])
  }

  lemma {:induction false} FourDigitsAtMost(s: string)
    requires AllDigits(s) && |s| <= 4
    ensures DigitsValue(s) < if |s| == 0 then 1 else if |s| == 1 then 10 else if |s| == 2 then 100
      else if |s| == 3 then 1000 else 10000
  {
    if s != [] {
      FourDigitsAtMost(s[..|s| - 1]);
    }
  }

  predicate IsNonZeroDigit(c: char) {
    '1' <= c <= '9'
  }

  /** The `%m` group `1[0-2]|0[1-9]|[1-9]` where it is followed by the `-` the format
      needs next: the month and the number of characters it takes. At most one of the
      alternatives can be followed by `-`, so backtracking picks that one. */
  function MonthPart(t: string): (r: Option<(int, nat)>)
    ensures r.Some? ==> 1 <= r.value.0 <= 12 && 1 <= r.value.1 < |t| && t[r.value.1] == '-'
  {
    if |t| >= 3 && t[0] == '1' && '0' <= t[1] <= '2' && t[2] == '-' then Some((10 + DigitValue(t[1]), 2))
    else if |t| >= 3 && t[0] == '0' && IsNonZeroDigit(t[1]) && t[2] == '-' then Some((DigitValue(t[1]), 2))
    else if |t| >= 2 && IsNonZeroDigit(t[0]) && t[1] == '-' then Some((DigitValue(t[0]), 1))
    else None
  }

  /** The `%d` group `3[01]|[12]\d|0[1-9]|[1-9]| [1-9]`: the first alternative that
      matches at the start of `t`, with the number of characters it takes. */
  function DayPart(t: string): (r: Option<(int, nat)>)
    ensures r.Some? ==> 1 <= r.value.0 <= 31 && 1 <= r.value.1 <= |t|
  {
    if |t| >= 2 && t[0] == '3' && (t[1] == '0' || t[1] == '1') then Some((30 + DigitValue(t[1]), 2))
    else if |t| >= 2 && (t[0] == '1' || t[0] == '2') && IsDigit(t[1]) then Some((10 * DigitValue(t[0]) + DigitValue(t[1]), 2))
    else if |t| >= 2 && t[0] == '0' && IsNonZeroDigit(t[1]) then Some((DigitValue(t[1]), 2))
    else if |t| >= 1 && IsNonZeroDigit(t[0]) then Some((DigitValue(t[0]), 1))
    else if |t| >= 2 && t[0] == ' ' && IsNonZeroDigit(t[1]) then Some((DigitValue(t[1]), 2))
    else None
  }

  /** `datetime.strptime(s, '%Y-%m-%d')`: `None` where it raises `ValueError`: no match
      of the format, data left over after the match, or a day the month does not have. */
  function ParseDate(s: string): (r: Option<Date>)
    ensures r.Some? ==> ValidDate(r.value)
  {
    if |s| < 5 || !AllDigits(s[..4]) || s[4] != '-' then None
    else
      var year := DigitsValue(s[..4]);
      FourDigitsAtMost(s[..4]);
      var rest := s[5..];
      match MonthPart(rest)
      case None => None
      case Some(m) =>
        var dayText := rest[m.1 + 1..];
        match DayPart(dayText)
        case None => None
        case Some(d) =>
          if d.1 != |dayText| || year < 1 || d.0 > DaysInMonth(year, m.0) then None
          else Some(Date(year, m.0, d.0))
  }

  // ---------------------------------------------------------------------------
  // Parsing undoes formatting

  lemma {:induction false} DigitsOfNat(n: nat)
    ensures AllDigits(NatToString(n)) && DigitsValue(NatToString(n)) == n
    decreases n
  {
    if n >= 10 {
      DigitsOfNat(n / 10);
      var s := NatToString(n);
      assert s[..|s| - 1] == NatToString(n / 10);
    }
  }

  lemma {:induction false} LeadingZeros(k: nat, s: string)
    requires AllDigits(s)
    ensures AllDigits(seq(k, _ => '0') + s) && DigitsValue(seq(k, _ => '0') + s) == DigitsValue(s)
    decreases |s|, k
  {
    var z := seq(k, _ => '0');
    if s == [] {
      assert z + s == z;
      if k > 0 {
        var z' := seq(k - 1, _ => '0');
        assert z[..k - 1] == z' && z' + [] == z';
        LeadingZeros(k - 1, []);
        assert DigitValue(z[k - 1]) == 0;
      }
    } else {
      LeadingZeros(k, s[..|s| - 1]);
      assert (z + s)[..|z + s| - 1] == z + s[..|s| - 1];
    }
  }

  lemma ShortNumber(n: nat, w: nat)
    requires 1 <= w <= 4
    requires w == 1 ==> n < 10
    requires w == 2 ==> n < 100
    requires w == 3 ==> n < 1000
    requires w == 4 ==> n < 10000
    ensures |NatToString(n)| <= w
  {
    if n >= 10 {
      ShortNumber(n / 10, w - 1);
    }
  }

  /** A zero-filled number reads back as itself. */
  lemma ZeroPadValue(n: nat, w: nat)
    requires 1 <= w <= 4
    requires w == 1 ==> n < 10
    requires w == 2 ==> n < 100
    requires w == 3 ==> n < 1000
    requires w == 4 ==> n < 10000
    ensures |ZeroPad(n, w)| == w && AllDigits(ZeroPad(n, w)) && DigitsValue(ZeroPad(n, w)) == n
  {
    ShortNumber(n, w);
    DigitsOfNat(n);
    LeadingZeros(w - |NatToString(n)|, NatToString(n));
  }

  lemma TwoDigits(n: nat)
    requires n < 100
    ensures var s := ZeroPad(n, 2);
      |s| == 2 && IsDigit(s[0]) && IsDigit(s[1]) && DigitValue(s[0]) == n / 10 && DigitValue(s[1]) == n % 10
  {
    ZeroPadValue(n, 2);
    var s := ZeroPad(n, 2);
    assert s[..1] == [s[0]];
    assert DigitsValue(s) == 10 * DigitValue(s[0]) + DigitValue(s[1]);
  }

  lemma MonthPartOfFormat(m: int, day: string)
    requires 1 <= m <= 12
    ensures MonthPart(ZeroPad(m, 2) + "-" + day) == Some((m, 2))
  {
    TwoDigits(m);
    var t := ZeroPad(m, 2) + "-" + day;
    assert t[0] == ZeroPad(m, 2)[0] && t[1] == ZeroPad(m, 2)[1] && t[2] == '-';
  }

  lemma DayPartOfFormat(d: int)
    requires 1 <= d <= 31
    ensures DayPart(ZeroPad(d, 2)) == Some((d, 2))
  {
    TwoDigits(d);
  }

  /** Reading back a formatted date gives the date again. */
  lemma ParseFormatRoundTrip(d: Date)
    requires ValidDate(d)
    ensures ParseDate(FormatDate(d)) == Some(d)
  {
    var y := ZeroPad(d.year, 4);
    var m := ZeroPad(d.month, 2);
    var dd := ZeroPad(d.day, 2);
    var s := FormatDate(d);
    ZeroPadValue(d.year, 4);
    ZeroPadValue(d.month, 2);
    ZeroPadValue(d.day, 2);
    DashParts(y, m + "-" + dd);
    assert s == y + "-" + (m + "-" + dd);
    MonthPartOfFormat(d.month, dd);
    DashParts(m, dd);
    DayPartOfFormat(d.day);
  }

  /** The parts on either side of a dash. */
  lemma DashParts(a: string, b: string)
    ensures var s := a + "-" + b;
      s[..|a|] == a && s[|a|] == '-' && s[|a| + 1..] == b
  {
  }

  /** `strftime('%Y-%m-%d')` of a valid date is ten characters, digits and dashes. */
  lemma FormatDateShape(d: Date)
    requires ValidDate(d)
    ensures var s := FormatDate(d);
      |s| == 10 && s[4] == '-' && s[7] == '-'
      && forall i :: 0 <= i < 10 && i != 4 && i != 7 ==> IsDigit(s[i])
  {
    ZeroPadValue(d.year, 4);
    ZeroPadValue(d.month, 2);
    ZeroPadValue(d.day, 2);
  }

  /** `strftime('%H:%M:%S')` is eight characters, digits and colons. */
  lemma FormatTimeShape(t: DateTime)
    requires ValidDateTime(t)
    ensures var s := FormatTime(t);
      |s| == 8 && s[2] == ':' && s[5] == ':'
      && forall i :: 0 <= i < 8 && i != 2 && i != 5 ==> IsDigit(s[i])
  {
    ZeroPadValue(t.hour, 2);
    ZeroPadValue(t.minute, 2);
    ZeroPadValue(t.second, 2);
  }

  // ---------------------------------------------------------------------------
  // Counting days

  /** `date.toordinal()`: day 1 is 1 January of year 1. */
  function DaysBeforeYear(y: int): int
    requires y >= 1
  {
    var p := y - 1;
    p * 365 + p / 4 - p / 100 + p / 400
  }

  function DaysBeforeMonth(y: int, m: int): int
    requires 1 <= m <= 13
  {
    if m == 1 then 0 else DaysBeforeMonth(y, m - 1) + DaysInMonth(y, m - 1)
  }

  function Ordinal(d: Date): int
    requires ValidDate(d)
  {
    DaysBeforeYear(d.year) + DaysBeforeMonth(d.year, d.month) + d.day
  }

  /** `(expiration - now).days` for an expiration date at midnight: whole days, rounded
      down. */
  function DaysLeft(expiration: Date, now: DateTime): int
    requires ValidDate(expiration) && ValidDateTime(now)
  {
    var midnight := now.hour == 0 && now.minute == 0 && now.second == 0 && now.microsecond == 0;
    Ordinal(expiration) - Ordinal(now.date) - (if midnight then 0 else 1)
  }

  /** The day after `d` in the Gregorian calendar. */
  function NextDay(d: Date): Date
    requires ValidDate(d)
  {
    if d.day < DaysInMonth(d.year, d.month) then Date(d.year, d.month, d.day + 1)
    else if d.month < 12 then Date(d.year, d.month + 1, 1)
    else Date(d.year + 1, 1, 1)
  }

  lemma DivStep(y: int, k: int)
    requires k == 4 || k == 100 || k == 400
    ensures y / k - (y - 1) / k == if y % k == 0 then 1 else 0
  {
    if k == 4 {
      assert y / 4 - (y - 1) / 4 == if y % 4 == 0 then 1 else 0;
    } else if k == 100 {
      assert y / 100 - (y - 1) / 100 == if y % 100 == 0 then 1 else 0;
    } else {
      assert y / 400 - (y - 1) / 400 == if y % 400 == 0 then 1 else 0;
    }
  }

  lemma YearLength(y: int)
    requires y >= 1
    ensures DaysBeforeYear(y + 1) - DaysBeforeYear(y) == if IsLeap(y) then 366 else 365
  {
    DivStep(y, 4);
    DivStep(y, 100);
    DivStep(y, 400);
    var a := y / 4 - (y - 1) / 4;
    var b := y / 100 - (y - 1) / 100;
    var c := y / 400 - (y - 1) / 400;
    assert DaysBeforeYear(y + 1) - DaysBeforeYear(y) == 365 + a - b + c;
    LeapDivisors(y);
  }

  lemma LeapDivisors(y: int)
    ensures y % 400 == 0 ==> y % 100 == 0
    ensures y % 100 == 0 ==> y % 4 == 0
  {
    if y % 400 == 0 {
      Hundreds(y / 400 * 4);
      assert y == (y / 400 * 4) * 100;
    }
    if y % 100 == 0 {
      Fours(y / 100 * 25);
      assert y == (y / 100 * 25) * 4;
    }
  }

  lemma Hundreds(k: int)
    ensures (k * 100) % 100 == 0
  {
  }

  lemma Fours(k: int)
    ensures (k * 4) % 4 == 0
  {
  }

  lemma MonthsOfYear(y: int)
    ensures DaysBeforeMonth(y, 13) == if IsLeap(y) then 366 else 365
  {
    var feb := DaysInMonth(y, 2);
    assert DaysBeforeMonth(y, 2) == 31;
    assert DaysBeforeMonth(y, 3) == 31 + feb;
    assert DaysBeforeMonth(y, 4) == 62 + feb;
    assert DaysBeforeMonth(y, 5) == 92 + feb;
    assert DaysBeforeMonth(y, 6) == 123 + feb;
    assert DaysBeforeMonth(y, 7) == 153 + feb;
    assert DaysBeforeMonth(y, 8) == 184 + feb;
    assert DaysBeforeMonth(y, 9) == 215 + feb;
    assert DaysBeforeMonth(y, 10) == 245 + feb;
    assert DaysBeforeMonth(y, 11) == 276 + feb;
    assert DaysBeforeMonth(y, 12) == 306 + feb;
    assert DaysBeforeMonth(y, 13) == 337 + feb;
  }

  /** Consecutive days have consecutive ordinals, so `DaysLeft` counts calendar days. */
  lemma OrdinalNextDay(d: Date)
    requires ValidDate(d) && d.year < 9999
    ensures ValidDate(NextDay(d)) && Ordinal(NextDay(d)) == Ordinal(d) + 1
  {
    if d.day == DaysInMonth(d.year, d.month) && d.month == 12 {
      YearLength(d.year);
      MonthsOfYear(d.year);
    }
  }

  /** An ad that expires tomorrow has one day left at midnight and none later that
      day. */
  lemma DaysLeftTomorrow(now: DateTime)
    requires ValidDateTime(now) && now.date.year < 9999
    ensures ValidDate(NextDay(now.date))
    ensures DaysLeft(NextDay(now.date), now)
         == if now.hour == 0 && now.minute == 0 && now.second == 0 && now.microsecond == 0 then 1 else 0
  {
    OrdinalNextDay(now.date);
  }
}
