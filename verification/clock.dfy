/** The text SQLite's `CURRENT_TIMESTAMP` default and the explicit
    `updated_at = CURRENT_TIMESTAMP` store: the UTC date and time of the
    clock, to the second, in the proleptic Gregorian calendar. */
module Clock {
  import opened Base

  datatype CivilDate = CivilDate(year: int, month: int, day: int)

  /** Which year of its 400-year era (0 to 399) holds the era's `doe`-th
      day, years counted from 1 March. */
  function YearOfEra(doe: int): int {
    (doe - doe / 1460 + doe / 36524 - doe / 146096) / 365
  }

  /** The day of its year (0 for 1 March) of the era's `doe`-th day, which
      falls in the era's year `yoe`. */
  function DayOfYear(doe: int, yoe: int): int {
    doe - (365 * yoe + yoe / 4 - yoe / 100)
  }

  /** The month (0 for March to 11 for February) holding the `doy`-th day
      of a year that starts on 1 March. */
  function MarchMonth(doy: int): int {
    (5 * doy + 2) / 153
  }

  /** The day of the month (from 1) of the `doy`-th day of the year, which
      falls in month `mp` counted from March. */
  function DayOfMonth(doy: int, mp: int): int {
    doy - (153 * mp + 2) / 5 + 1
  }

  /** The proleptic Gregorian date `days` days after 1970-01-01 (before it
      when negative), counted through 400-year eras that start on
      0000-03-01. */
  function CivilFromDays(days: int): CivilDate {
    var era := (days + 719468) / 146097;
    var doe := (days + 719468) % 146097;
    var yoe := YearOfEra(doe);
    var doy := DayOfYear(doe, yoe);
    var mp := MarchMonth(doy);
    var month := if mp < 10 then mp + 3 else mp - 9;
    CivilDate(era * 400 + yoe + (if month <= 2 then 1 else 0), month, DayOfMonth(doy, mp))
  }

  /** `%0<width>d`: the decimal digits of `n`, zero-padded on the left to
      at least `width` characters. */
  function Numeral(n: int, width: nat): string {
    var digits := NatToString(if n < 0 then -n else n);
    var padded := if |digits| < width then Zeros(width - |digits|) + digits else digits;
    if n < 0 then "-" + padded else padded
  }

  /** `YYYY-MM-DD`. */
  function DateText(d: CivilDate): string {
    Numeral(d.year, 4) + "-" + Numeral(d.month, 2) + "-" + Numeral(d.day, 2)
  }

  /** `HH:MM:SS` of the `t`-th second of a day. */
  function ClockText(t: int): string {
    Numeral(t / 3600, 2) + ":" + Numeral(t / 60 % 60, 2) + ":" + Numeral(t % 60, 2)
  }

  /** The database's `CURRENT_TIMESTAMP` when the clock reads `now`
      milliseconds after the Unix epoch: the UTC date and time, truncated to
      the second, as `YYYY-MM-DD HH:MM:SS` text. */
  function CurrentTimestamp(now: int): string {
    var secs := now / 1000;
    DateText(CivilFromDays(secs / 86400)) + " " + ClockText(secs % 86400)
  }

  /** The era arithmetic of four day counts: the epoch, the day before
      it, 2000-02-29 and 2023-11-14. */
  lemma EraSteps()
    ensures 719468 / 146097 == 4 && 719468 % 146097 == 135080
    ensures YearOfEra(135080) == 369 && DayOfYear(135080, 369) == 306
    ensures MarchMonth(306) == 10 && DayOfMonth(306, 10) == 1
    ensures 719467 / 146097 == 4 && 719467 % 146097 == 135079
    ensures YearOfEra(135079) == 369 && DayOfYear(135079, 369) == 305
    ensures MarchMonth(305) == 9 && DayOfMonth(305, 9) == 31
    ensures 730484 / 146097 == 4 && 730484 % 146097 == 146096
    ensures YearOfEra(146096) == 399 && DayOfYear(146096, 399) == 365
    ensures MarchMonth(365) == 11 && DayOfMonth(365, 11) == 29
    ensures 739143 / 146097 == 5 && 739143 % 146097 == 8658
    ensures YearOfEra(8658) == 23 && DayOfYear(8658, 23) == 258
    ensures MarchMonth(258) == 8 && DayOfMonth(258, 8) == 14
  {
  }

  /** Day counts the calendar agrees with: the epoch, the day before it, a
      leap day of a century year divisible by 400, and a recent day. */
  lemma KnownDates()
    ensures CivilFromDays(0) == CivilDate(1970, 1, 1)
    ensures CivilFromDays(-1) == CivilDate(1969, 12, 31)
    ensures CivilFromDays(11016) == CivilDate(2000, 2, 29)
    ensures CivilFromDays(19675) == CivilDate(2023, 11, 14)
  {
    EraSteps();
  }

  /** `%02d` of a number below 100: its tens digit, then its units digit. */
  lemma TwoDigits(n: int)
    requires 0 <= n < 100
    ensures Numeral(n, 2) == [DigitChar(n / 10), DigitChar(n % 10)]
    ensures TwoDigitValue(Numeral(n, 2)[0], Numeral(n, 2)[1]) == n
  {
    if n < 10 {
      assert NatToString(n) == [DigitChar(n)];
      assert Zeros(1) == "0";
    } else {
      assert NatToString(n / 10) == [DigitChar(n / 10)];
    }
  }

  /** `%04d` of a year with four digits. */
  lemma FourDigits(n: int)
    requires 1000 <= n < 10000
    ensures Numeral(n, 4) == [DigitChar(n / 1000), DigitChar(n / 100 % 10), DigitChar(n / 10 % 10), DigitChar(n % 10)]
  {
    assert n / 10 / 10 == n / 100 && n / 100 / 10 == n / 1000 && n / 100 >= 10;
    assert NatToString(n) == NatToString(n / 10) + [DigitChar(n % 10)];
    assert NatToString(n / 10) == NatToString(n / 100) + [DigitChar(n / 10 % 10)];
    assert NatToString(n / 100) == NatToString(n / 1000) + [DigitChar(n / 100 % 10)];
    assert NatToString(n / 1000) == [DigitChar(n / 1000)];
  }

  /** The value of two decimal digit characters. */
  function TwoDigitValue(hi: char, lo: char): int {
    (hi as int - '0' as int) * 10 + (lo as int - '0' as int)
  }

  /** The second of the day an `HH:MM:SS` text names; `None` when the text
      does not have that shape. */
  function SecondOfDay(s: string): Option<int> {
    if |s| == 8 && s[2] == ':' && s[5] == ':'
       && IsDigit(s[0]) && IsDigit(s[1]) && IsDigit(s[3]) && IsDigit(s[4]) && IsDigit(s[6]) && IsDigit(s[7])
    then Some(TwoDigitValue(s[0], s[1]) * 3600 + TwoDigitValue(s[3], s[4]) * 60 + TwoDigitValue(s[6], s[7]))
    else None
  }

  /** A second of the day splits into hours below 24, minutes and seconds
      below 60. */
  lemma SplitSecond(t: int)
    requires 0 <= t < 86400
    ensures 0 <= t / 3600 < 24 && 0 <= t / 60 % 60 < 60 && 0 <= t % 60 < 60
    ensures t / 3600 * 3600 + t / 60 % 60 * 60 + t % 60 == t
  {
    var h, r := t / 3600, t % 3600;
    assert t / 60 == h * 60 + r / 60;
    assert t / 60 % 60 == r / 60 && t % 60 == r % 60;
  }

  /** Every second of a day is written as `HH:MM:SS` and read back as
      itself, so distinct seconds give distinct texts. */
  lemma ClockTextRoundTrip(t: int)
    requires 0 <= t < 86400
    ensures SecondOfDay(ClockText(t)) == Some(t)
  {
    SplitSecond(t);
    TwoDigits(t / 3600);
    TwoDigits(t / 60 % 60);
    TwoDigits(t % 60);
  }

  /** The date a `YYYY-MM-DD` text names; `None` when the text does not
      have that shape. */
  function ReadDate(s: string): Option<CivilDate> {
    if |s| == 10 && s[4] == '-' && s[7] == '-'
       && IsDigit(s[0]) && IsDigit(s[1]) && IsDigit(s[2]) && IsDigit(s[3])
       && IsDigit(s[5]) && IsDigit(s[6]) && IsDigit(s[8]) && IsDigit(s[9])
    then Some(CivilDate(TwoDigitValue(s[0], s[1]) * 100 + TwoDigitValue(s[2], s[3]),
                        TwoDigitValue(s[5], s[6]), TwoDigitValue(s[8], s[9])))
    else None
  }

  /** The date and the second of the day a `YYYY-MM-DD HH:MM:SS` text
      names; `None` when the text does not have that shape. */
  function ReadTimestamp(s: string): Option<(CivilDate, int)> {
    if |s| == 19 && s[10] == ' ' then
      match (ReadDate(s[..10]), SecondOfDay(s[11..]))
      case (Some(d), Some(t)) => Some((d, t))
      case _ => None
    else None
  }

  /** The four digits of a year, read as two pairs, give the year back. */
  lemma YearDigitsValue(y: int)
    requires 1000 <= y < 10000
    ensures TwoDigitValue(DigitChar(y / 1000), DigitChar(y / 100 % 10)) * 100
              + TwoDigitValue(DigitChar(y / 10 % 10), DigitChar(y % 10)) == y
  {
    var a, b, c, e := y / 1000, y / 100 % 10, y / 10 % 10, y % 10;
    assert TwoDigitValue(DigitChar(a), DigitChar(b)) == 10 * a + b;
    assert TwoDigitValue(DigitChar(c), DigitChar(e)) == 10 * c + e;
    assert y / 10 / 10 == y / 100 && y / 100 / 10 == a;
    assert y / 100 == 10 * a + b;
    assert y / 10 == 10 * (y / 100) + c;
    assert y == 10 * (y / 10) + e;
  }

  /** A date with a four-digit year and two-digit month and day is written
      as `YYYY-MM-DD` and read back as itself. */
  lemma DateTextRoundTrip(d: CivilDate)
    requires 1000 <= d.year < 10000 && 0 <= d.month < 100 && 0 <= d.day < 100
    ensures ReadDate(DateText(d)) == Some(d)
  {
    FourDigits(d.year);
    YearDigitsValue(d.year);
    TwoDigits(d.month);
    TwoDigits(d.day);
  }

  /** The timestamp text of a clock reading whose day has a four-digit
      year reads back as that day's date and the second of the day. */
  lemma TimestampReadsBack(now: int)
    requires var d := CivilFromDays(now / 1000 / 86400);
             1000 <= d.year < 10000 && 0 <= d.month < 100 && 0 <= d.day < 100
    ensures ReadTimestamp(CurrentTimestamp(now)) == Some((CivilFromDays(now / 1000 / 86400), now / 1000 % 86400))
  {
    var d, t := CivilFromDays(now / 1000 / 86400), now / 1000 % 86400;
    DateTextRoundTrip(d);
    ClockTextRoundTrip(t);
    var s := CurrentTimestamp(now);
    assert s[..10] == DateText(d);
    assert s[11..] == ClockText(t);
  }
}
