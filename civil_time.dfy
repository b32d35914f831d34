/**
 * Local civil time as the calendar route reads it through JavaScript's `Date`: proleptic Gregorian
 * dates, a wall-clock time to the second, day and second arithmetic, and the two text forms the
 * route writes (`formatDate`, `formatLocalDateTime`) together with the forms it reads.
 * Time zones are not modelled: every value is local time, in which the route's own arithmetic works.
 */
module CivilTime {
  import opened Wrappers
  import opened Digits

  datatype Date = Date(year: int, month: int, day: int)

  datatype LocalDateTime = LocalDateTime(date: Date, hour: int, minute: int, second: int)

  predicate IsLeapYear(y: int) {
    y % 4 == 0 && (y % 100 != 0 || y % 400 == 0)
  }

  function DaysInMonth(y: int, m: int): (n: int)
    requires 1 <= m <= 12
    ensures 28 <= n <= 31
    ensures n == 29 <==> m == 2 && IsLeapYear(y)
  {
    if m == 2 then (if IsLeapYear(y) then 29 else 28)
    else if m == 4 || m == 6 || m == 9 || m == 11 then 30
    else 31
  }

  predicate ValidDate(d: Date) {
    1 <= d.month <= 12 && 1 <= d.day <= DaysInMonth(d.year, d.month)
  }

  predicate ValidDateTime(t: LocalDateTime) {
    ValidDate(t.date) && 0 <= t.hour < 24 && 0 <= t.minute < 60 && 0 <= t.second < 60
  }

  /** Days from 1 March of year 0 to 1 March of year `y`. */
  function YearBase(y: int): int {
    var yoe := y % 400;
    (y / 400) * 146097 + yoe * 365 + yoe / 4 - yoe / 100
  }

  /** Days from 1 March to the first day of month `m`, in a year that starts in March. */
  function MonthBase(m: int): int {
    var mp := if m > 2 then m - 3 else m + 9;
    (153 * mp + 2) / 5
  }

  /** The number of the day `d`, counted from 1 January 1970. */
  function DayNumber(d: Date): int {
    var y := if d.month <= 2 then d.year - 1 else d.year;
    YearBase(y) + MonthBase(d.month) + d.day - 1 - 719468
  }

  /** Stepping a year of the era by one moves its count of leap-year candidates exactly on multiples of 4 and 100. */
  lemma QuotientSteps(r: int)
    requires 0 < r
    ensures r / 4 - (r - 1) / 4 == if r % 4 == 0 then 1 else 0
    ensures r / 100 - (r - 1) / 100 == if r % 100 == 0 then 1 else 0
  {
  }

  /** Splitting a year into its 400-year era and the year of that era keeps its remainders by 4 and 100. */
  lemma EraRemainders(z: int, q: int, r: int)
    requires z == 400 * q + r
    ensures z % 4 == r % 4 && z % 100 == r % 100
  {
    assert z == 4 * (100 * q) + r;
    assert z == 100 * (4 * q) + r;
  }

  /** A year that starts on 1 March has 366 days exactly when the February that ends it has 29. */
  lemma YearLength(y: int)
    ensures YearBase(y + 1) - YearBase(y) == if IsLeapYear(y + 1) then 366 else 365
  {
    var z := y + 1;
    var q, r := z / 400, z % 400;
    EraRemainders(z, q, r);
    if r == 0 {
      assert y / 400 == q - 1 && y % 400 == 399;
      assert YearBase(y) == (q - 1) * 146097 + 399 * 365 + 99 - 3;
      assert YearBase(z) == q * 146097;
    } else {
      assert y / 400 == q && y % 400 == r - 1;
      QuotientSteps(r);
      assert YearBase(z) - YearBase(y) == 365 + (r / 4 - (r - 1) / 4) - (r / 100 - (r - 1) / 100);
    }
  }

  function NextDay(d: Date): Date
    requires ValidDate(d)
  {
    if d.day < DaysInMonth(d.year, d.month) then d.(day := d.day + 1)
    else if d.month < 12 then Date(d.year, d.month + 1, 1)
    else Date(d.year + 1, 1, 1)
  }

  function PrevDay(d: Date): Date
    requires ValidDate(d)
  {
    if d.day > 1 then d.(day := d.day - 1)
    else if d.month > 1 then Date(d.year, d.month - 1, DaysInMonth(d.year, d.month - 1))
    else Date(d.year - 1, 12, 31)
  }

  /** Within a year that starts in March, month `m` begins where month `m - 1` ends, for every month but March. */
  lemma MonthLength(y: int, m: int)
    requires 1 <= m < 12 && m != 2
    ensures MonthBase(m + 1) - MonthBase(m) == DaysInMonth(y, m)
  {
  }

  lemma NextDayNumber(d: Date)
    requires ValidDate(d)
    ensures ValidDate(NextDay(d)) && DayNumber(NextDay(d)) == DayNumber(d) + 1
  {
    if d.day < DaysInMonth(d.year, d.month) {
    } else if d.month == 2 {
      YearLength(d.year - 1);
      assert MonthBase(3) == 0 && MonthBase(2) == 337;
    } else if d.month < 12 {
      MonthLength(d.year, d.month);
    } else {
      YearLength(d.year);
      assert MonthBase(1) == 306 && MonthBase(12) == 275;
    }
  }

  lemma PrevDayNumber(d: Date)
    requires ValidDate(d)
    ensures ValidDate(PrevDay(d)) && DayNumber(PrevDay(d)) == DayNumber(d) - 1
  {
    var p := PrevDay(d);
    assert ValidDate(p);
    assert NextDay(p) == d;
    NextDayNumber(p);
  }

  /** `setDate(getDate() + n)`: the date `n` calendar days later (earlier when `n` is negative). */
  function AddDays(d: Date, n: int): (r: Date)
    requires ValidDate(d)
    ensures ValidDate(r) && DayNumber(r) == DayNumber(d) + n
    decreases if n < 0 then -n else n
  {
    if n == 0 then d
    else if n > 0 then
      NextDayNumber(d);
      AddDays(NextDay(d), n - 1)
    else
      PrevDayNumber(d);
      AddDays(PrevDay(d), n + 1)
  }

  /** Seconds from 1970-01-01T00:00:00 to `t`, both read as the same local time scale. */
  function Instant(t: LocalDateTime): int {
    DayNumber(t.date) * 86400 + t.hour * 3600 + t.minute * 60 + t.second
  }

  /** `new Date(t.getTime() + 1000 * k)`: the local time `k` seconds after `t`. */
  function AddSeconds(t: LocalDateTime, k: int): (r: LocalDateTime)
    requires ValidDateTime(t)
    ensures ValidDateTime(r) && Instant(r) == Instant(t) + k
  {
    var total := t.hour * 3600 + t.minute * 60 + t.second + k;
    SplitSeconds(total);
    var days, rest := total / 86400, total % 86400;
    LocalDateTime(AddDays(t.date, days), rest / 3600, rest % 3600 / 60, rest % 3600 % 60)
  }

  /** A count of seconds is whole days, then hours, minutes and seconds of the last day. */
  lemma SplitSeconds(total: int)
    ensures var rest := total % 86400;
      && 0 <= rest / 3600 < 24 && 0 <= rest % 3600 / 60 < 60 && 0 <= rest % 3600 % 60 < 60
      && total == total / 86400 * 86400 + rest / 3600 * 3600 + rest % 3600 / 60 * 60 + rest % 3600 % 60
  {
    var rest := total % 86400;
    var inHour := rest % 3600;
    assert rest == rest / 3600 * 3600 + inHour;
    assert inHour == inHour / 60 * 60 + inHour % 60;
  }

  /** Years as `toISOString` writes them: four digits from 0 to 9999, otherwise a sign and six digits. */
  function IsoYear(y: int): (r: string)
    ensures 0 <= y <= 9999 ==> |r| == 4 && AllDigits(r) && DigitsValue(r) == y
    ensures y > 9999 ==> |r| >= 7 && r[0] == '+' && AllDigits(r[1..]) && DigitsValue(r[1..]) == y
    ensures y < 0 ==> |r| >= 7 && r[0] == '-' && AllDigits(r[1..]) && DigitsValue(r[1..]) == -y
  {
    if 0 <= y <= 9999 then
      Pad4Value(y);
      PadStart(Decimal(y), 4)
    else
      var n := if y > 9999 then y else -y;
      var digits := PadStart(Decimal(n), 6);
      PadStartValue(Decimal(n), 6);
      var r := (if y > 9999 then "+" else "-") + digits;
      assert r[1..] == digits;
      r
  }

  /** `formatDate`: the `YYYY-MM-DD` part of the ISO text of the date. */
  function FormatDate(d: Date): (s: string)
    requires ValidDate(d)
    ensures 0 <= d.year <= 9999 ==>
      |s| == 10 && s[..4] == IsoYear(d.year) && s[4] == '-' && s[7] == '-'
  {
    var s := IsoYear(d.year) + "-" + Pad2(d.month) + "-" + Pad2(d.day);
    if 0 <= d.year <= 9999 then
      Pad2Length(d.month);
      Pad2Length(d.day);
      DateLayout(IsoYear(d.year), Pad2(d.month), Pad2(d.day));
      s
    else s
  }

  /** Four, two and two characters joined by dashes put the dashes at 4 and 7. */
  lemma DateLayout(y: string, m: string, d: string)
    requires |y| == 4 && |m| == 2 && |d| == 2
    ensures var s := y + "-" + m + "-" + d;
      |s| == 10 && s[..4] == y && s[4] == '-' && s[7] == '-'
  {
    var s := y + "-" + m + "-" + d;
    assert s[..4] == y by {
      forall i | 0 <= i < 4
        ensures s[i] == y[i]
      {
      }
    }
  }

  /** `formatLocalDateTime`: year as `getFullYear()` prints it, the rest padded to two digits, seconds always `00`. */
  function FormatLocalDateTime(t: LocalDateTime): (s: string)
    requires ValidDateTime(t)
    ensures |s| > 3 && s[|s| - 3..] == ":00"
    ensures 1000 <= t.date.year <= 9999 ==> |s| == 19
  {
    var s := IntString(t.date.year) + "-" + Pad2(t.date.month) + "-" + Pad2(t.date.day)
      + "T" + Pad2(t.hour) + ":" + Pad2(t.minute) + ":00";
    if 1000 <= t.date.year <= 9999 then
      DecimalFourDigits(t.date.year);
      Pad2Length(t.date.month);
      Pad2Length(t.date.day);
      Pad2Length(t.hour);
      Pad2Length(t.minute);
      s
    else s
  }

  /** Two ASCII digits at `s[i..i+2]`. */
  predicate TwoDigitsAt(s: string, i: nat)
    requires i + 2 <= |s|
  {
    IsDigit(s[i]) && IsDigit(s[i + 1])
  }

  function TwoDigitsValue(s: string, i: nat): nat
    requires i + 2 <= |s| && TwoDigitsAt(s, i)
  {
    (s[i] as int - '0' as int) * 10 + (s[i + 1] as int - '0' as int)
  }

  /** A calendar date written `YYYY-MM-DD` with a four-digit year, as the date inputs of the page produce. */
  function ParseDate(s: string): (r: Option<Date>)
    ensures r.Some? ==> ValidDate(r.value) && 0 <= r.value.year <= 9999
  {
    if |s| == 10 && AllDigits(s[..4]) && s[4] == '-' && TwoDigitsAt(s, 5) && s[7] == '-' && TwoDigitsAt(s, 8) then
      DigitsValueBound(s[..4]);
      var d := Date(DigitsValue(s[..4]), TwoDigitsValue(s, 5), TwoDigitsValue(s, 8));
      if ValidDate(d) then Some(d) else None
    else None
  }

  /** A wall-clock time written `HH:MM` or `HH:MM:SS`; the seconds are 0 in the short form. */
  function ParseClock(s: string): (r: Option<(int, int, int)>)
    ensures r.Some? ==> 0 <= r.value.0 < 24 && 0 <= r.value.1 < 60 && 0 <= r.value.2 < 60
  {
    if (|s| == 5 || (|s| == 8 && s[5] == ':' && TwoDigitsAt(s, 6))) && TwoDigitsAt(s, 0) && s[2] == ':' && TwoDigitsAt(s, 3) then
      var h, m := TwoDigitsValue(s, 0), TwoDigitsValue(s, 3);
      var sec := if |s| == 8 then TwoDigitsValue(s, 6) else 0;
      if h < 24 && m < 60 && sec < 60 then Some((h, m, sec)) else None
    else None
  }

  /** `new Date(s)` for a local date-time `YYYY-MM-DDTHH:MM[:SS]`; `None` stands for an Invalid Date. */
  function ParseLocal(s: string): (r: Option<LocalDateTime>)
    ensures r.Some? ==> ValidDateTime(r.value)
  {
    if |s| >= 11 && s[10] == 'T' && ParseDate(s[..10]).Some? && ParseClock(s[11..]).Some? then
      var c := ParseClock(s[11..]).value;
      Some(LocalDateTime(ParseDate(s[..10]).value, c.0, c.1, c.2))
    else None
  }

  /** A two-digit string read one digit at a time gives its value. */
  lemma TwoDigitsRead(p: string, s: string, i: nat)
    requires |p| == 2 && AllDigits(p) && i + 2 <= |s| && s[i] == p[0] && s[i + 1] == p[1]
    ensures TwoDigitsAt(s, i) && TwoDigitsValue(s, i) == DigitsValue(p)
  {
    assert p[..1][..0] == [];
    assert DigitsValue(p[..1]) == p[0] as int - '0' as int;
  }

  /** How `ParseDate` reads a string made of four digits, two digits and two digits joined by dashes. */
  lemma ParseDateParts(y: string, m: string, d: string)
    requires |y| == 4 && |m| == 2 && |d| == 2 && AllDigits(y) && AllDigits(m) && AllDigits(d)
    ensures var date := Date(DigitsValue(y), DigitsValue(m), DigitsValue(d));
      ParseDate(y + "-" + m + "-" + d) == if ValidDate(date) then Some(date) else None
  {
    var s := y + "-" + m + "-" + d;
    assert s[..4] == y;
    TwoDigitsRead(m, s, 5);
    TwoDigitsRead(d, s, 8);
  }

  /** How `ParseClock` reads `HH:MM:SS` made of three two-digit strings. */
  lemma ParseClockParts(h: string, m: string, sec: string)
    requires |h| == 2 && |m| == 2 && |sec| == 2 && AllDigits(h) && AllDigits(m) && AllDigits(sec)
    ensures var v := (DigitsValue(h), DigitsValue(m), DigitsValue(sec));
      ParseClock(h + ":" + m + ":" + sec) == if v.0 < 24 && v.1 < 60 && v.2 < 60 then Some(v) else None
  {
    var s := h + ":" + m + ":" + sec;
    assert |s| == 8 && s[2] == ':' && s[5] == ':';
    assert s[0] == h[0] && s[1] == h[1] && s[3] == m[0] && s[4] == m[1] && s[6] == sec[0] && s[7] == sec[1];
    TwoDigitsRead(h, s, 0);
    TwoDigitsRead(m, s, 3);
    TwoDigitsRead(sec, s, 6);
    ParseClockLong(s);
  }

  /** How `ParseClock` reads an `HH:MM:SS` string. */
  lemma ParseClockLong(s: string)
    requires |s| == 8 && s[2] == ':' && s[5] == ':' && TwoDigitsAt(s, 0) && TwoDigitsAt(s, 3) && TwoDigitsAt(s, 6)
    ensures var v := (TwoDigitsValue(s, 0), TwoDigitsValue(s, 3), TwoDigitsValue(s, 6));
      ParseClock(s) == if v.0 < 24 && v.1 < 60 && v.2 < 60 then Some(v) else None
  {
  }

  /** `formatDate` loses nothing: its text reads back as the same date, for years from 0 to 9999. */
  lemma FormatDateRoundTrip(d: Date)
    requires ValidDate(d) && 0 <= d.year <= 9999
    ensures ParseDate(FormatDate(d)) == Some(d)
  {
    var y, m, e := IsoYear(d.year), Pad2(d.month), Pad2(d.day);
    Pad2Value(d.month);
    Pad2Value(d.day);
    ParseDateParts(y, m, e);
  }

  /** `formatLocalDateTime` keeps everything but the seconds: its text reads back as the same minute, for four-digit years. */
  lemma FormatLocalDateTimeRoundTrip(t: LocalDateTime)
    requires ValidDateTime(t) && 1000 <= t.date.year <= 9999
    ensures ParseLocal(FormatLocalDateTime(t)) == Some(t.(second := 0))
  {
    var y := Decimal(t.date.year);
    var datePart := y + "-" + Pad2(t.date.month) + "-" + Pad2(t.date.day);
    var clockPart := Pad2(t.hour) + ":" + Pad2(t.minute) + ":" + "00";
    FormatLocalDateTimeSplit(t);
    DecimalFourDigits(t.date.year);
    Pad2Value(t.date.month);
    Pad2Value(t.date.day);
    Pad2Value(t.hour);
    Pad2Value(t.minute);
    ParseDateParts(y, Pad2(t.date.month), Pad2(t.date.day));
    DoubleZero();
    ParseClockParts(Pad2(t.hour), Pad2(t.minute), "00");
    ParseLocalJoin(datePart, clockPart);
  }

  lemma FormatLocalDateTimeSplit(t: LocalDateTime)
    requires ValidDateTime(t) && 0 <= t.date.year
    ensures FormatLocalDateTime(t)
      == (Decimal(t.date.year) + "-" + Pad2(t.date.month) + "-" + Pad2(t.date.day))
         + "T" + (Pad2(t.hour) + ":" + Pad2(t.minute) + ":" + "00")
  {
    Regroup(Decimal(t.date.year), Pad2(t.date.month), Pad2(t.date.day), Pad2(t.hour), Pad2(t.minute));
  }

  lemma Regroup(y: string, mo: string, d: string, h: string, mi: string)
    ensures y + "-" + mo + "-" + d + "T" + h + ":" + mi + ":00"
      == (y + "-" + mo + "-" + d) + "T" + (h + ":" + mi + ":" + "00")
  {
  }

  lemma DoubleZero()
    ensures AllDigits("00") && DigitsValue("00") == 0
  {
    assert "00"[..1] == "0" && "0"[..0] == [];
  }

  /** A date followed by `T` and a clock time reads as that date at that time. */
  lemma ParseLocalJoin(date: string, clock: string)
    requires ParseDate(date).Some? && ParseClock(clock).Some?
    ensures ParseLocal(date + "T" + clock).Some?
    ensures var t := ParseLocal(date + "T" + clock).value;
      var c := ParseClock(clock).value;
      t == LocalDateTime(ParseDate(date).value, c.0, c.1, c.2)
  {
    var s := date + "T" + clock;
    assert s[..10] == date && s[11..] == clock;
  }

  /** The all-day start `startDate + 'T00:00:00'` is local midnight of the date, and nothing else reads as a time. */
  lemma MidnightOfDate(date: string)
    ensures ParseLocal(date + "T00:00:00") == if ParseDate(date).Some? then Some(LocalDateTime(ParseDate(date).value, 0, 0, 0)) else None
  {
    var s := date + "T00:00:00";
    assert ParseClock("00:00:00") == Some((0, 0, 0));
    if ParseDate(date).Some? {
      ParseLocalJoin(date, "00:00:00");
    } else if |date| < 10 {
      if |s| >= 11 {
        assert s[10] == "T00:00:00"[10 - |date|] != 'T';
      }
    } else if |date| == 10 {
      assert s[..10] == date;
    } else {
      assert |s[11..]| >= 9;
    }
  }
}
