/** `DateTime.parse(record["time"]).strftime("%Q")` for the one layout the
    log4j mode is used with, `YYYY-MM-DD HH:MM:SS`, read as UTC: the number of
    milliseconds since 1970-01-01 00:00:00, in decimal. */
module Timestamp {
  import opened Outcome
  import opened Decimal

  datatype Date = Date(year: int, month: int, day: int)

  datatype DateTime = DateTime(date: Date, hour: int, minute: int, second: int)

  /** Ruby's `DateTime` switches from the Julian to the Gregorian calendar in
      October 1582; from 1583 on every date is Gregorian. */
  const FirstGregorianYear := 1583

  predicate IsLeap(y: int) {
    y % 4 == 0 && (y % 100 != 0 || y % 400 == 0)
  }

  function YearLength(y: int): int {
    if IsLeap(y) then 366 else 365
  }

  function DaysInMonth(y: int, m: int): (n: int)
    requires 1 <= m <= 12
    ensures 28 <= n <= 31
  {
    if m == 2 then (if IsLeap(y) then 29 else 28)
    else if m == 4 || m == 6 || m == 9 || m == 11 then 30
    else 31
  }

  predicate ValidDate(d: Date) {
    d.year >= FirstGregorianYear && 1 <= d.month <= 12 && 1 <= d.day <= DaysInMonth(d.year, d.month)
  }

  predicate ValidTime(dt: DateTime) {
    0 <= dt.hour < 24 && 0 <= dt.minute < 60 && 0 <= dt.second < 60
  }

  predicate Valid(dt: DateTime) {
    ValidDate(dt.date) && ValidTime(dt) && dt.date.year <= 9999
  }

  // ---------------------------------------------------------------------------
  // Day numbers

  /** Leap years among 1 .. y - 1. */
  function LeapsBefore(y: int): int {
    (y - 1) / 4 - (y - 1) / 100 + (y - 1) / 400
  }

  /** Days from 1970-01-01 to January 1st of year `y` (negative before 1970). */
  function DaysBeforeYear(y: int): int {
    365 * (y - 1970) + LeapsBefore(y) - LeapsBefore(1970)
  }

  /** Days from January 1st to the first day of month `m`. */
  function DaysBeforeMonth(y: int, m: int): (n: int)
    requires 1 <= m <= 12
    ensures 0 <= n
    decreases m
  {
    if m == 1 then 0 else DaysBeforeMonth(y, m - 1) + DaysInMonth(y, m - 1)
  }

  function EpochDays(d: Date): int
    requires 1 <= d.month <= 12
  {
    DaysBeforeYear(d.year) + DaysBeforeMonth(d.year, d.month) + d.day - 1
  }

  /** `strftime("%Q")`: milliseconds since the epoch, UTC. */
  function EpochMillis(dt: DateTime): int
    requires 1 <= dt.date.month <= 12
  {
    (((EpochDays(dt.date) * 24 + dt.hour) * 60 + dt.minute) * 60 + dt.second) * 1000
  }

  /** The calendar day after `d`, counted the way a calendar is read. */
  function NextDay(d: Date): (e: Date)
    requires ValidDate(d)
    ensures ValidDate(e)
  {
    if d.day < DaysInMonth(d.year, d.month) then Date(d.year, d.month, d.day + 1)
    else if d.month < 12 then Date(d.year, d.month + 1, 1)
    else Date(d.year + 1, 1, 1)
  }

  /** The quotient and remainder of a floor division are the only ones. */
  lemma DivUnique(x: int, k: int, a: int, b: int)
    requires k > 0 && x == k * a + b && 0 <= b < k
    ensures x / k == a && x % k == b
  {
    var d := a - x / k;
    assert k * d == x % k - b;
    MultipleBelow(k, d);
  }

  /** A multiple of `k` strictly between `-k` and `k` is zero. */
  lemma MultipleBelow(k: int, d: int)
    requires k > 0 && -k < k * d < k
    ensures d == 0
  {
    MultipleBounds(k, d);
  }

  lemma MultipleBounds(k: int, d: int)
    ensures k > 0 && d >= 1 ==> k * d >= k
    ensures k > 0 && d <= -1 ==> k * d <= -k
  {
    if k > 0 && d >= 1 {
      assert k * d == k * (d - 1) + k;
    } else if k > 0 && d <= -1 {
      assert k * d == k * (d + 1) - k;
    }
  }

  /** Divisibility of `y` by `k` in terms of the floor quotients of `y` and `y - 1`. */
  lemma QuotientStep(y: int, k: int)
    requires k > 0
    ensures y / k - (y - 1) / k == (if y % k == 0 then 1 else 0)
  {
    var q, r := y / k, y % k;
    if r == 0 {
      DivUnique(y - 1, k, q - 1, k - 1);
    } else {
      DivUnique(y - 1, k, q, r - 1);
    }
  }

  lemma DivisibleChain(y: int)
    ensures y % 400 == 0 ==> y % 100 == 0
    ensures y % 100 == 0 ==> y % 4 == 0
  {
    if y % 400 == 0 {
      var q := y / 400;
      DivUnique(y, 100, 4 * q, 0);
    }
    if y % 100 == 0 {
      var q := y / 100;
      DivUnique(y, 4, 25 * q, 0);
    }
  }

  /** The closed form counts one leap day exactly for each leap year. */
  lemma YearStep(y: int)
    ensures DaysBeforeYear(y + 1) == DaysBeforeYear(y) + YearLength(y)
  {
    QuotientStep(y, 4);
    QuotientStep(y, 100);
    QuotientStep(y, 400);
    DivisibleChain(y);
    assert LeapsBefore(y + 1) - LeapsBefore(y) == (if IsLeap(y) then 1 else 0);
  }

  lemma MonthsOfYear(y: int)
    ensures DaysBeforeMonth(y, 12) + DaysInMonth(y, 12) == YearLength(y)
  {
  }

  /** Day numbers advance by one from each day to the next, across month and
      year ends and leap days alike. */
  lemma NextDayNumber(d: Date)
    requires ValidDate(d)
    ensures EpochDays(NextDay(d)) == EpochDays(d) + 1
  {
    if d.day == DaysInMonth(d.year, d.month) && d.month == 12 {
      YearStep(d.year);
      MonthsOfYear(d.year);
    }
  }

  lemma EpochStart()
    ensures EpochDays(Date(1970, 1, 1)) == 0
  {
  }

  /** Later days have larger day numbers: within a year by the month and
      day, and any day of a year comes before every day of the next. */
  lemma {:induction false} DaysBeforeMonthBound(y: int, m: int)
    requires 1 <= m <= 12
    ensures DaysBeforeMonth(y, m) + DaysInMonth(y, m) <= YearLength(y)
    ensures m < 12 ==> DaysBeforeMonth(y, m) + DaysInMonth(y, m) == DaysBeforeMonth(y, m + 1)
    decreases 12 - m
  {
    if m < 12 {
      DaysBeforeMonthBound(y, m + 1);
    }
  }

  lemma {:induction false} DaysBeforeMonthMonotone(y: int, m: int, m': int)
    requires 1 <= m < m' <= 12
    ensures DaysBeforeMonth(y, m) + DaysInMonth(y, m) <= DaysBeforeMonth(y, m')
    decreases m' - m
  {
    DaysBeforeMonthBound(y, m);
    if m + 1 < m' {
      DaysBeforeMonthMonotone(y, m + 1, m');
    }
  }

  lemma {:induction false} DaysBeforeYearMonotone(y: int, y': int)
    requires y < y'
    ensures DaysBeforeYear(y) + YearLength(y) <= DaysBeforeYear(y')
    decreases y' - y
  {
    YearStep(y);
    if y + 1 < y' {
      DaysBeforeYearMonotone(y + 1, y');
    }
  }

  predicate Before(d: Date, e: Date) {
    d.year < e.year
    || (d.year == e.year && d.month < e.month)
    || (d.year == e.year && d.month == e.month && d.day < e.day)
  }

  lemma EpochDaysOrder(d: Date, e: Date)
    requires ValidDate(d) && ValidDate(e) && Before(d, e)
    ensures EpochDays(d) < EpochDays(e)
  {
    DaysBeforeMonthBound(d.year, d.month);
    if d.year < e.year {
      DaysBeforeYearMonotone(d.year, e.year);
    } else if d.month < e.month {
      DaysBeforeMonthMonotone(d.year, d.month, e.month);
    }
  }

  /** Different valid days never share a day number. */
  lemma EpochDaysInjective(d: Date, e: Date)
    requires ValidDate(d) && ValidDate(e) && EpochDays(d) == EpochDays(e)
    ensures d == e
  {
    if Before(d, e) {
      EpochDaysOrder(d, e);
    } else if Before(e, d) {
      EpochDaysOrder(e, d);
    }
  }

  // ---------------------------------------------------------------------------
  // Text

  predicate DigitsAt(s: string, i: nat, n: nat) {
    i + n <= |s| && forall j :: i <= j < i + n ==> IsDigit(s[j])
  }

  function Number2(s: string, i: nat): (n: nat)
    requires DigitsAt(s, i, 2)
    ensures n < 100
  {
    DigitValue(s[i]) * 10 + DigitValue(s[i + 1])
  }

  function Number4(s: string, i: nat): (n: nat)
    requires DigitsAt(s, i, 4)
    ensures n < 10000
  {
    Number2(s, i) * 100 + Number2(s, i + 2)
  }

  /** The layout `YYYY-MM-DD HH:MM:SS`. */
  predicate Layout(s: string) {
    |s| == 19 && s[4] == '-' && s[7] == '-' && s[10] == ' ' && s[13] == ':' && s[16] == ':'
    && DigitsAt(s, 0, 4) && DigitsAt(s, 5, 2) && DigitsAt(s, 8, 2)
    && DigitsAt(s, 11, 2) && DigitsAt(s, 14, 2) && DigitsAt(s, 17, 2)
  }

  /** The two times of day Ruby accepts beyond the usual ranges: `24:00:00`,
      read as midnight of the next day, and second 60, a leap second. */
  predicate RolledOverTime(dt: DateTime) {
    (dt.hour == 24 && dt.minute == 0 && dt.second == 0)
    || (dt.hour < 24 && dt.minute < 60 && dt.second == 60)
  }

  /** `DateTime.parse` on the fixed layout. A month, day or time of day the
      calendar does not have is Ruby's "invalid date" error; any other text,
      the two rolled-over times of day and a year before the Gregorian
      calendar are outside the model. */
  function ParseDateTime(s: string): (r: Result<DateTime, Failure>)
    ensures r.Ok? ==> Valid(r.value)
    ensures r.Err? ==> r.error.OutsideModel? || r.error == InvalidDate
  {
    if !Layout(s) then Err(OutsideModel("time layout"))
    else
      var d := Date(Number4(s, 0), Number2(s, 5), Number2(s, 8));
      var dt := DateTime(d, Number2(s, 11), Number2(s, 14), Number2(s, 17));
      if d.year < FirstGregorianYear then Err(OutsideModel("Julian calendar date"))
      else if !ValidDate(d) then Err(InvalidDate)
      else if ValidTime(dt) then Ok(dt)
      else if RolledOverTime(dt) then Err(OutsideModel("time of day"))
      else Err(InvalidDate)
  }

  /** The date and time fields written in a text of the layout. */
  function TextDateTime(s: string): DateTime
    requires Layout(s)
  {
    DateTime(Date(Number4(s, 0), Number2(s, 5), Number2(s, 8)), Number2(s, 11), Number2(s, 14), Number2(s, 17))
  }

  /** On a text of the layout with a Gregorian year, the parser accepts
      exactly the valid date-times, raises "invalid date" exactly for a
      calendar date that does not exist or a time of day out of range that
      Ruby does not roll over, and leaves only the rolled-over times outside
      the model. */
  lemma ParseDateTimeOutcome(s: string)
    requires Layout(s) && Number4(s, 0) >= FirstGregorianYear
    ensures var dt := TextDateTime(s);
            && (ParseDateTime(s).Ok? <==> Valid(dt))
            && (ParseDateTime(s).Ok? ==> ParseDateTime(s).value == dt)
            && (ParseDateTime(s) == Err(InvalidDate) <==>
                  !ValidDate(dt.date) || (!ValidTime(dt) && !RolledOverTime(dt)))
            && (ParseDateTime(s).Err? && ParseDateTime(s).error.OutsideModel? <==>
                  ValidDate(dt.date) && !ValidTime(dt) && RolledOverTime(dt))
  {
  }

  /** 2017 is no leap year, and hour 25 does not exist: both raise "invalid
      date". */
  lemma ExampleInvalidDates()
    ensures ParseDateTime("2017-02-29 12:00:00") == Err(InvalidDate)
    ensures ParseDateTime("2017-07-02 25:00:00") == Err(InvalidDate)
  {
    ExampleFebruary29();
    ExampleHour25();
  }

  lemma ExampleFebruary29()
    ensures ParseDateTime("2017-02-29 12:00:00") == Err(InvalidDate)
  {
    var s := "2017-02-29 12:00:00";
    assert Layout(s);
    assert Number4(s, 0) == 2017 && Number2(s, 5) == 2 && Number2(s, 8) == 29;
  }

  lemma ExampleHour25()
    ensures ParseDateTime("2017-07-02 25:00:00") == Err(InvalidDate)
  {
    var t := "2017-07-02 25:00:00";
    assert Layout(t);
    assert Number4(t, 0) == 2017 && Number2(t, 5) == 7 && Number2(t, 8) == 2;
    assert Number2(t, 11) == 25 && Number2(t, 14) == 0 && Number2(t, 17) == 0;
  }

  function Pad2(n: nat): (s: string)
    requires n < 100
    ensures |s| == 2 && DigitsAt(s, 0, 2) && Number2(s, 0) == n
  {
    [DigitChar(n / 10), DigitChar(n % 10)]
  }

  function Pad4(n: nat): (s: string)
    requires n < 10000
    ensures |s| == 4 && DigitsAt(s, 0, 4) && Number4(s, 0) == n
  {
    var s := Pad2(n / 100) + Pad2(n % 100);
    assert s[0..2] == Pad2(n / 100) && s[2..4] == Pad2(n % 100);
    s
  }

  /** Date and time fields joined by the layout's separators. */
  function Joined(y: string, mo: string, d: string, h: string, mi: string, se: string): string {
    y + "-" + mo + "-" + d + " " + h + ":" + mi + ":" + se
  }

  /** The layout written out, the inverse of `ParseDateTime`. */
  function FormatDateTime(dt: DateTime): string
    requires Valid(dt)
  {
    Joined(Pad4(dt.date.year), Pad2(dt.date.month), Pad2(dt.date.day), Pad2(dt.hour), Pad2(dt.minute), Pad2(dt.second))
  }

  lemma FormatLayout(dt: DateTime)
    requires Valid(dt)
    ensures var s := FormatDateTime(dt);
            Layout(s) && Number4(s, 0) == dt.date.year && Number2(s, 5) == dt.date.month
            && Number2(s, 8) == dt.date.day && Number2(s, 11) == dt.hour
            && Number2(s, 14) == dt.minute && Number2(s, 17) == dt.second
  {
    var s := FormatDateTime(dt);
    var y, mo, d := Pad4(dt.date.year), Pad2(dt.date.month), Pad2(dt.date.day);
    var h, mi, se := Pad2(dt.hour), Pad2(dt.minute), Pad2(dt.second);
    assert s[0..4] == y && s[5..7] == mo && s[8..10] == d;
    assert s[11..13] == h && s[14..16] == mi && s[17..19] == se;
  }

  /** Reading a written time gives it back. */
  lemma ParseFormat(dt: DateTime)
    requires Valid(dt)
    ensures ParseDateTime(FormatDateTime(dt)) == Ok(dt)
  {
    FormatLayout(dt);
  }

  lemma Number2Pad(s: string, i: nat)
    requires DigitsAt(s, i, 2)
    ensures Pad2(Number2(s, i)) == s[i..i + 2]
  {
    var n := Number2(s, i);
    assert n / 10 == DigitValue(s[i]) && n % 10 == DigitValue(s[i + 1]);
  }

  lemma Number4Pad(s: string, i: nat)
    requires DigitsAt(s, i, 4)
    ensures Pad4(Number4(s, i)) == s[i..i + 4]
  {
    var n := Number4(s, i);
    assert n / 100 == Number2(s, i) && n % 100 == Number2(s, i + 2);
    Number2Pad(s, i);
    Number2Pad(s, i + 2);
  }

  /** A text in the layout is its own fields joined by the separators. */
  lemma LayoutJoined(s: string)
    requires Layout(s)
    ensures s == Joined(s[0..4], s[5..7], s[8..10], s[11..13], s[14..16], s[17..19])
  {
    var j := Joined(s[0..4], s[5..7], s[8..10], s[11..13], s[14..16], s[17..19]);
    assert |j| == 19;
    forall i | 0 <= i < 19
      ensures j[i] == s[i]
    {
    }
  }

  /** The fields of a parsed time are the numbers at their places in the text. */
  lemma ParsedFields(s: string)
    requires ParseDateTime(s).Ok?
    ensures Layout(s)
    ensures ParseDateTime(s).value
         == DateTime(Date(Number4(s, 0), Number2(s, 5), Number2(s, 8)), Number2(s, 11), Number2(s, 14), Number2(s, 17))
  {
  }

  /** Writing a time that was read gives the text back: the layout has one
      spelling per time. */
  lemma FormatParse(s: string)
    requires ParseDateTime(s).Ok?
    ensures FormatDateTime(ParseDateTime(s).value) == s
  {
    ParsedFields(s);
    Number4Pad(s, 0);
    Number2Pad(s, 5);
    Number2Pad(s, 8);
    Number2Pad(s, 11);
    Number2Pad(s, 14);
    Number2Pad(s, 17);
    LayoutJoined(s);
  }

  /** The `time` field of a log4j envelope. */
  function MillisText(s: string): (r: Result<string, Failure>)
    ensures r.Ok? <==> ParseDateTime(s).Ok?
    ensures r.Ok? ==> Layout(s) && ParseInt(r.value) == Some(EpochMillis(ParseDateTime(s).value))
    ensures r.Err? ==> r.error == ParseDateTime(s).error
  {
    match ParseDateTime(s)
    case Err(e) => Err(e)
    case Ok(dt) =>
      IntToStringRoundTrip(EpochMillis(dt));
      Ok(IntToString(EpochMillis(dt)))
  }

  /** The value from the log4j example: 2017-07-02 20:52:39 UTC. */
  lemma MillisExample()
    ensures MillisText("2017-07-02 20:52:39") == Ok("1499028759000")
  {
    ExampleParse();
    ExampleMillis();
    ExampleDecimal();
  }

  lemma ExampleParse()
    ensures ParseDateTime("2017-07-02 20:52:39") == Ok(DateTime(Date(2017, 7, 2), 20, 52, 39))
  {
    var s := "2017-07-02 20:52:39";
    assert Layout(s);
    assert Number4(s, 0) == 2017 && Number2(s, 5) == 7 && Number2(s, 8) == 2;
    assert Number2(s, 11) == 20 && Number2(s, 14) == 52 && Number2(s, 17) == 39;
  }

  lemma ExampleMillis()
    ensures EpochMillis(DateTime(Date(2017, 7, 2), 20, 52, 39)) == 1499028759000
  {
    ExampleDay();
  }

  lemma ExampleDay()
    ensures EpochDays(Date(2017, 7, 2)) == 17349
  {
    assert LeapsBefore(2017) == 489 && LeapsBefore(1970) == 477;
    assert DaysBeforeYear(2017) == 17167;
    assert DaysBeforeMonth(2017, 7) == 181;
  }

  lemma ExampleDecimal()
    ensures IntToString(1499028759000) == "1499028759000"
  {
    ExampleDecimalHead();
    assert NatToString(14990287590) == "14990287590";
    assert NatToString(149902875900) == "149902875900";
    assert NatToString(1499028759000) == "1499028759000";
  }

  lemma ExampleDecimalHead()
    ensures NatToString(1499028759) == "1499028759"
  {
    ExampleDecimalStart();
    assert NatToString(14990287) == "14990287";
    assert NatToString(149902875) == "149902875";
    assert NatToString(1499028759) == "1499028759";
  }

  lemma ExampleDecimalStart()
    ensures NatToString(1499028) == "1499028"
  {
    assert NatToString(1) == "1";
    assert NatToString(14) == "14";
    assert NatToString(149) == "149";
    assert NatToString(1499) == "1499";
    assert NatToString(14990) == "14990";
    assert NatToString(149902) == "149902";
  }
}
