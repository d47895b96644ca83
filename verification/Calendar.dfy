/**
 The timestamp of a GB Memory cartridge: seconds since 1970 to a Gregorian date by closed formulas,
 against the calendar itself, day after day.
 */
module Calendar {
  import opened Arithmetic

  datatype Date = Date(year: int, month: int, day: int)

  // --- The calendar ---------------------------------------------------------------------

  predicate IsLeap(year: int) {
    year % 4 == 0 && (year % 100 != 0 || year % 400 == 0)
  }

  /** The table of section 5.7 of RFC 3339. */
  function DaysInMonth(year: int, month: int): (n: int)
    ensures 28 <= n <= 31
  {
    if month == 2 then (if IsLeap(year) then 29 else 28)
    else if month == 4 || month == 6 || month == 9 || month == 11 then 30
    else 31
  }

  predicate IsDate(d: Date) {
    1 <= d.month <= 12 && 1 <= d.day <= DaysInMonth(d.year, d.month)
  }

  function NextDate(d: Date): Date {
    if d.day < DaysInMonth(d.year, d.month) then d.(day := d.day + 1)
    else if d.month < 12 then Date(d.year, d.month + 1, 1)
    else Date(d.year + 1, 1, 1)
  }

  /** The date `n` days after 1970-01-01, counted off on the calendar. */
  function CalendarDate(n: nat): (d: Date)
    ensures IsDate(d) && d.year >= 1970
  {
    if n == 0 then Date(1970, 1, 1) else NextDate(CalendarDate(n - 1))
  }

  // --- Counting days --------------------------------------------------------------------

  function YearLength(year: int): int {
    if IsLeap(year) then 366 else 365
  }

  /** Days from 1970-01-01 to the first day of a year. */
  function YearStart(year: int): int
    requires year >= 1970
  {
    if year == 1970 then 0 else YearStart(year - 1) + YearLength(year - 1)
  }

  /** Days from the first day of a year to the first day of a month. */
  function MonthStart(year: int, month: int): int
    requires 1 <= month <= 13
  {
    if month == 1 then 0 else MonthStart(year, month - 1) + DaysInMonth(year, month - 1)
  }

  function DayNumber(d: Date): int
    requires IsDate(d) && d.year >= 1970
  {
    YearStart(d.year) + MonthStart(d.year, d.month) + (d.day - 1)
  }

  lemma MonthStarts(year: int, month: int)
    requires 1 <= month <= 13
    ensures var l := if IsLeap(year) then 1 else 0;
            MonthStart(year, month)
              == [0, 31, 59 + l, 90 + l, 120 + l, 151 + l, 181 + l, 212 + l, 243 + l, 273 + l, 304 + l, 334 + l,
                  365 + l][month - 1]
  {
    assert MonthStart(year, 2) == 31;
    assert MonthStart(year, 3) == 31 + DaysInMonth(year, 2);
    assert MonthStart(year, 5) == MonthStart(year, 3) + 61;
    assert MonthStart(year, 7) == MonthStart(year, 5) + 61;
    assert MonthStart(year, 9) == MonthStart(year, 7) + 62;
    assert MonthStart(year, 11) == MonthStart(year, 9) + 61;
    assert MonthStart(year, 13) == MonthStart(year, 11) + 61;
  }

  lemma {:induction false} YearStartFormula(year: int)
    requires year >= 1970
    ensures YearStart(year) == 365 * (year - 1970) + (year - 1) / 4 - (year - 1) / 100 + (year - 1) / 400 - 477
  {
    if year > 1970 {
      YearStartFormula(year - 1);
      QuotientStep(year - 1, 4);
      QuotientStep(year - 1, 100);
      QuotientStep(year - 1, 400);
      HundredsAreLeap(year - 1);
    }
  }

  lemma QuotientStep(n: int, m: int)
    requires m > 0
    ensures n / m == (n - 1) / m + (if n % m == 0 then 1 else 0)
  {
    var q, r := n / m, n % m;
    assert n == q * m + r;
    if r == 0 {
      assert n - 1 == (q - 1) * m + (m - 1);
      Quotient(n - 1, q - 1, m - 1, m);
    } else {
      Quotient(n - 1, q, r - 1, m);
    }
  }

  lemma HundredsAreLeap(n: int)
    ensures n % 400 == 0 ==> n % 100 == 0
    ensures n % 100 == 0 ==> n % 4 == 0
  {
  }

  lemma NextDayNumber(d: Date)
    requires IsDate(d) && d.year >= 1970
    ensures DayNumber(NextDate(d)) == DayNumber(d) + 1
  {
    if d.day == DaysInMonth(d.year, d.month) && d.month == 12 {
      MonthStarts(d.year, 12);
    }
  }

  lemma {:induction false} CalendarDayNumber(n: nat)
    ensures DayNumber(CalendarDate(n)) == n
  {
    if n > 0 {
      CalendarDayNumber(n - 1);
      NextDayNumber(CalendarDate(n - 1));
    }
  }

  lemma {:induction false} YearsRise(a: int, b: int)
    requires 1970 <= a < b
    ensures YearStart(a) + YearLength(a) <= YearStart(b)
    decreases b
  {
    if a < b - 1 {
      YearsRise(a, b - 1);
    }
  }

  lemma {:induction false} MonthsRise(year: int, a: int, b: int)
    requires 1 <= a < b <= 13
    ensures MonthStart(year, a) + DaysInMonth(year, a) <= MonthStart(year, b)
    decreases b
  {
    if a < b - 1 {
      MonthsRise(year, a, b - 1);
    }
  }

  lemma WithinYear(d: Date)
    requires IsDate(d) && d.year >= 1970
    ensures YearStart(d.year) <= DayNumber(d) < YearStart(d.year) + YearLength(d.year)
  {
    MonthsRise(d.year, d.month, 13);
    MonthStarts(d.year, 13);
    MonthStarts(d.year, d.month);
  }

  /** A day number belongs to one date only. */
  lemma DayNumberUnique(d: Date, e: Date)
    requires IsDate(d) && d.year >= 1970 && IsDate(e) && e.year >= 1970 && DayNumber(d) == DayNumber(e)
    ensures d == e
  {
    WithinYear(d);
    WithinYear(e);
    if d.year < e.year {
      YearsRise(d.year, e.year);
    } else if e.year < d.year {
      YearsRise(e.year, d.year);
    } else if d.month < e.month {
      MonthsRise(d.year, d.month, e.month);
    } else if e.month < d.month {
      MonthsRise(d.year, e.month, d.month);
    }
  }

  // --- The closed formulas --------------------------------------------------------------

  function YearOfEra(doe: int): int {
    (doe - doe / 1460 + doe / 36_524 - doe / 146_096) / 365
  }

  /** Days from the first of March of year 0 of an era to that of year `k`. */
  function MarchStart(k: int): int {
    365 * k + k / 4 - k / 100
  }

  /** From days since 1970-01-01 to a date. */
  function CivilFromDays(days: int): Date {
    var z := days + 719_468;
    var era := Truncated(if z >= 0 then z else z - 146_096, 146_097);
    var doe := z - era * 146_097;
    var yoe := YearOfEra(doe);
    var y := yoe + era * 400;
    CivilInYear(y, doe - MarchStart(yoe))
  }

  /** Month and day from the day of a year that begins in March. */
  function CivilInYear(y: int, doy: int): Date {
    var mp := (5 * doy + 2) / 153;
    var d := doy - (153 * mp + 2) / 5 + 1;
    var m := if mp < 10 then mp + 3 else mp - 9;
    Date(if m <= 2 then y + 1 else y, m, d)
  }

  /** A day of an era, by centuries, four-year groups, years and days. */
  predicate Split(doe: int, a: int, b: int, c: int, j: int) {
    && 0 <= a <= 3 && 0 <= b <= 24 && 0 <= c <= 3 && 0 <= j <= 365
    && doe == 36_524 * a + 1461 * b + 365 * c + j
    && (j == 365 ==> c == 3 && (b < 24 || a == 3))
  }

  lemma SplitExists(doe: int) returns (a: int, b: int, c: int, j: int)
    requires 0 <= doe < 146_097
    ensures Split(doe, a, b, c, j)
  {
    a := if doe / 36_524 > 3 then 3 else doe / 36_524;
    var r1 := doe - 36_524 * a;
    b := r1 / 1461;
    var r2 := r1 - 1461 * b;
    c := if r2 / 365 > 3 then 3 else r2 / 365;
    j := r2 - 365 * c;
  }

  /** The formula finds the year, and the day in it. */
  lemma YearFound(doe: int, a: int, b: int, c: int, j: int)
    requires Split(doe, a, b, c, j)
    ensures YearOfEra(doe) == 100 * a + 4 * b + c && doe - MarchStart(YearOfEra(doe)) == j
  {
    var x := 24 * a + b + 365 * c + j;
    var delta := if x >= 1460 then 1 else 0;
    var wrap := if doe == 146_096 then 1 else 0;
    assert doe == 1460 * (25 * a + b) + x;
    Quotient(doe, 25 * a + b + delta, x - 1460 * delta, 1460);
    CenturyQuotient(doe, a, b, c, j);
    Quotient(doe, wrap, doe - 146_096 * wrap, 146_096);
    Quotient(doe - (25 * a + b + delta) + a, 100 * a + 4 * b + c, j - delta, 365);
    Quotient(100 * a + 4 * b + c, 25 * a + b, c, 4);
    Quotient(100 * a + 4 * b + c, a, 4 * b + c, 100);
  }

  lemma CenturyQuotient(doe: int, a: int, b: int, c: int, j: int)
    requires Split(doe, a, b, c, j)
    ensures doe / 36_524 == a + (if doe == 146_096 then 1 else 0)
  {
    var r := 1461 * b + 365 * c + j;
    if doe == 146_096 {
      Quotient(doe, 4, 0, 36_524);
    } else {
      Quotient(doe, a, r, 36_524);
    }
  }

  /** Whether the year that ends the day's March-based year is a leap year. */
  lemma EndsInLeapYear(era: int, a: int, b: int, c: int)
    requires 0 <= a <= 3 && 0 <= b <= 24 && 0 <= c <= 3
    ensures IsLeap(400 * era + 100 * a + 4 * b + c + 1) <==> c == 3 && (b < 24 || a == 3)
  {
    var n := 400 * era + 100 * a + 4 * b + c + 1;
    if c == 3 {
      Remainder(n, 100 * era + 25 * a + b + 1, 0, 4);
      if b == 24 {
        Remainder(n, 4 * era + a + 1, 0, 100);
        if a == 3 {
          Remainder(n, era + 1, 0, 400);
        } else {
          Remainder(n, era, 100 * (a + 1), 400);
        }
      } else {
        Remainder(n, 4 * era + a, 4 * (b + 1), 100);
      }
    } else {
      Remainder(n, 100 * era + 25 * a + b, c + 1, 4);
    }
  }

  /** The month and day within a March-based year. */
  lemma MonthFound(doy: int, leap: bool)
    requires 0 <= doy <= 365 && (doy == 365 ==> leap)
    ensures var mp := (5 * doy + 2) / 153;
            var d := doy - (153 * mp + 2) / 5 + 1;
            && 0 <= mp <= 11 && 1 <= d
            && d <= [31, 30, 31, 30, 31, 31, 30, 31, 30, 31, 31, if leap then 29 else 28][mp]
            && doy == [0, 31, 61, 92, 122, 153, 184, 214, 245, 275, 306, 337][mp] + d - 1
  {
    var mp := (5 * doy + 2) / 153;
    MonthOffset(mp);
  }

  lemma MonthOffset(mp: int)
    requires 0 <= mp <= 11
    ensures (153 * mp + 2) / 5 == [0, 31, 61, 92, 122, 153, 184, 214, 245, 275, 306, 337][mp]
  {
  }

  /** The formulas split a day number into era, year of the era and day of the year. */
  lemma CivilParts(days: nat) returns (era: int, yoe: int, doy: int)
    ensures era >= 4 && 0 <= yoe < 400 && 0 <= doy <= 365
    ensures days + 719_468 == era * 146_097 + MarchStart(yoe) + doy
    ensures doy == 365 ==> IsLeap(yoe + era * 400 + 1)
    ensures CivilFromDays(days) == CivilInYear(yoe + era * 400, doy)
  {
    hide CivilInYear, YearOfEra, MarchStart, IsLeap, Truncated, Split;
    var z := days + 719_468;
    era := EraOf(days);
    var doe := z - era * 146_097;
    var a, b, c, j := SplitExists(doe);
    SplitBounds(doe, a, b, c, j);
    YearFound(doe, a, b, c, j);
    EndsInLeapYear(era, a, b, c);
    yoe, doy := 100 * a + 4 * b + c, j;
  }

  lemma SplitBounds(doe: int, a: int, b: int, c: int, j: int)
    requires Split(doe, a, b, c, j)
    ensures 0 <= a <= 3 && 0 <= b <= 24 && 0 <= c <= 3 && 0 <= j <= 365 && (j == 365 ==> c == 3 && (b < 24 || a == 3))
  {
  }

  lemma EraOf(days: nat) returns (era: int)
    ensures era >= 4 && 0 <= days + 719_468 - era * 146_097 < 146_097
    ensures Truncated(days + 719_468, 146_097) == era
  {
    era := (days + 719_468) / 146_097;
  }

  /** The formulas give a date of the calendar, and the date's day number is the one asked for. */
  lemma CivilIsDate(days: nat)
    ensures var d := CivilFromDays(days);
            IsDate(d) && d.year >= 1970 && DayNumber(d) == days
  {
    hide CivilInYear, CivilFromDays, MarchStart, IsLeap, IsDate, DayNumber;
    var era, yoe, doy := CivilParts(days);
    YearsJoin(days, era, yoe, doy);
    CivilMonth(days, yoe + era * 400, doy);
  }

  /** Where the March-based year of a day begins on the calendar. */
  lemma YearsJoin(days: nat, era: int, yoe: int, doy: int)
    requires 0 <= yoe < 400 && era >= 4 && 0 <= doy <= 365
    requires days + 719_468 == era * 146_097 + MarchStart(yoe) + doy
    ensures var y := yoe + era * 400;
            y >= 1969 && YearStart(y + 1) == days - doy + 306
  {
    var y := yoe + era * 400;
    assert y >= 1969 by {
      YearAtLeast(days, era, yoe, doy);
    }
    YearStartFormula(y + 1);
    Quotient(y, 100 * era + yoe / 4, yoe % 4, 4);
    Quotient(y, 4 * era + yoe / 100, yoe % 100, 100);
    Quotient(y, era, yoe, 400);
  }

  lemma YearAtLeast(days: nat, era: int, yoe: int, doy: int)
    requires 0 <= yoe < 400 && era >= 4 && 0 <= doy <= 365
    requires days + 719_468 == era * 146_097 + MarchStart(yoe) + doy
    ensures yoe + era * 400 >= 1969
  {
  }

  /** From a day of a March-based year to the calendar month. */
  lemma CivilMonth(days: nat, y: int, doy: int)
    requires y >= 1969 && 0 <= doy <= 365 && (doy == 365 ==> IsLeap(y + 1))
    requires YearStart(y + 1) == days - doy + 306
    ensures var d := CivilInYear(y, doy);
            IsDate(d) && d.year >= 1970 && DayNumber(d) == days
  {
    hide IsLeap;
    MonthFound(doy, IsLeap(y + 1));
    var mp := (5 * doy + 2) / 153;
    var m := if mp < 10 then mp + 3 else mp - 9;
    if mp < 10 {
      MonthStarts(y, m);
    } else {
      MonthStarts(y + 1, m);
    }
  }

  /** Day after day, the formulas and the calendar agree. */
  lemma CivilIsCalendar(days: nat)
    ensures CivilFromDays(days) == CalendarDate(days)
  {
    CivilIsDate(days);
    CalendarDayNumber(days);
    DayNumberUnique(CivilFromDays(days), CalendarDate(days));
  }

  /** Consecutive days have consecutive dates. */
  lemma CivilSteps(days: nat)
    ensures CivilFromDays(days + 1) == NextDate(CivilFromDays(days))
  {
    CivilIsCalendar(days);
    CivilIsCalendar(days + 1);
  }

  // --- The stamp ------------------------------------------------------------------------

  function Digit(n: nat): char
    requires n < 10
  {
    '0' + n as char
  }

  /** Decimal digits. */
  function Decimal(n: nat): (s: string)
    ensures |s| >= 1
  {
    if n < 10 then [Digit(n)] else Decimal(n / 10) + [Digit(n % 10)]
  }

  /** Zero-filled on the left to at least `width` digits. */
  function ZeroFilled(n: nat, width: nat): string {
    var s := Decimal(n);
    if |s| >= width then s else seq(width - |s|, _ => '0') + s
  }

  lemma DecimalLength(n: nat)
    ensures n < 100 ==> |ZeroFilled(n, 2)| == 2
    ensures |ZeroFilled(n, 4)| >= 4
    ensures n <= 9999 <==> |ZeroFilled(n, 4)| == 4
  {
    assert n >= 10 ==> |Decimal(n)| == |Decimal(n / 10)| + 1;
    assert n >= 100 ==> |Decimal(n / 10)| == |Decimal(n / 10 / 10)| + 1;
    assert n >= 1000 ==> |Decimal(n / 10 / 10)| == |Decimal(n / 10 / 10 / 10)| + 1;
    assert n >= 10_000 ==> |Decimal(n / 10 / 10 / 10)| == |Decimal(n / 10 / 10 / 10 / 10)| + 1;
  }

  /** The formatted date and time of a number of seconds since 1970. */
  function Formatted(secs: nat): string {
    var d := CivilFromDays(secs / 86400);
    var rem := secs % 86400;
    CivilIsDate(secs / 86400);
    ZeroFilled(d.month, 2) + "/" + ZeroFilled(d.day, 2) + "/" + ZeroFilled(d.year, 4)
      + ZeroFilled(rem / 3600, 2) + ":" + ZeroFilled(rem % 3600 / 60, 2) + ":" + ZeroFilled(rem % 60, 2)
  }

  /** The stamp field: eighteen characters, the formatted text cut off there. */
  function Timestamp(secs: nat): (s: string)
    ensures |s| <= 18
  {
    var f := Formatted(secs);
    if |f| > 18 then f[..18] else f + seq(18 - |f|, _ => ' ')
  }

  lemma CharacterCount(month: nat, day: nat, year: nat, rem: nat)
    requires month <= 12 && day <= 31 && rem < 86400
    ensures
      |ZeroFilled(month, 2) + "/" + ZeroFilled(day, 2) + "/" + ZeroFilled(year, 4)
        + ZeroFilled(rem / 3600, 2) + ":" + ZeroFilled(rem % 3600 / 60, 2) + ":" + ZeroFilled(rem % 60, 2)|
      == 14 + |ZeroFilled(year, 4)|
  {
    DecimalLength(month);
    DecimalLength(day);
    DecimalLength(rem / 3600);
    DecimalLength(rem % 3600 / 60);
    DecimalLength(rem % 60);
  }

  /** Nothing is cut off or filled up exactly through the year 9999. */
  lemma TimestampFits(secs: nat)
    ensures Timestamp(secs) == Formatted(secs) <==> CivilFromDays(secs / 86400).year <= 9999
    ensures |Timestamp(secs)| == 18
  {
    hide ZeroFilled;
    var d := CivilFromDays(secs / 86400);
    CivilIsDate(secs / 86400);
    DecimalLength(d.year);
    CharacterCount(d.month, d.day, d.year, secs % 86400);
  }

  /** The number written in `n` decimal digits from `at` on. */
  function Written(s: string, at: nat, n: nat): nat
    requires at + n <= |s| && forall i :: at <= i < at + n ==> '0' <= s[i] <= '9'
  {
    if n == 0 then 0 else 10 * Written(s, at, n - 1) + (s[at + n - 1] as nat - '0' as nat)
  }

  predicate Says(s: string, at: nat, n: nat, value: nat) {
    && at + n <= |s| && (forall i :: at <= i < at + n ==> '0' <= s[i] <= '9')
    && Written(s, at, n) == value
  }

  lemma TwoDigits(n: nat)
    requires n < 100
    ensures ZeroFilled(n, 2) == [Digit(n / 10), Digit(n % 10)]
  {
    assert n >= 10 ==> Decimal(n) == Decimal(n / 10) + [Digit(n % 10)];
  }

  lemma FourDigits(n: nat)
    requires n <= 9999
    ensures ZeroFilled(n, 4) == [Digit(n / 1000), Digit(n / 100 % 10), Digit(n / 10 % 10), Digit(n % 10)]
  {
    var a, b, c := n / 10, n / 100, n / 1000;
    assert a / 10 == b && b / 10 == c && a % 10 == n / 10 % 10;
    assert Decimal(n) == if n < 10 then [Digit(n)] else Decimal(a) + [Digit(n % 10)];
    assert Decimal(a) == if a < 10 then [Digit(a)] else Decimal(b) + [Digit(a % 10)];
    assert Decimal(b) == if b < 10 then [Digit(b)] else Decimal(c) + [Digit(b % 10)];
    assert Decimal(c) == [Digit(c)];
  }

  lemma SaysTwo(s: string, at: nat, n: nat)
    requires n < 100 && at + 2 <= |s| && s[at] == Digit(n / 10) && s[at + 1] == Digit(n % 10)
    ensures Says(s, at, 2, n)
  {
    assert Written(s, at, 1) == n / 10;
  }

  lemma SaysFour(s: string, at: nat, n: nat)
    requires n <= 9999 && at + 4 <= |s| && s[at] == Digit(n / 1000) && s[at + 1] == Digit(n / 100 % 10)
    requires s[at + 2] == Digit(n / 10 % 10) && s[at + 3] == Digit(n % 10)
    ensures Says(s, at, 4, n)
  {
    hide Digit, Says;
    SaysDigits(s, at, n / 1000, n / 100 % 10, n / 10 % 10, n % 10);
    DigitsOf(n);
  }

  lemma DigitsOf(n: nat)
    ensures n == 10 * (10 * (10 * (n / 1000) + n / 100 % 10) + n / 10 % 10) + n % 10
  {
    var a, b := n / 10, n / 100;
    assert n / 1000 == b / 10 && b == a / 10;
  }

  lemma SaysDigits(s: string, at: nat, w: nat, x: nat, y: nat, z: nat)
    requires w < 10 && x < 10 && y < 10 && z < 10 && at + 4 <= |s|
    requires s[at] == Digit(w) && s[at + 1] == Digit(x) && s[at + 2] == Digit(y) && s[at + 3] == Digit(z)
    ensures Says(s, at, 4, 10 * (10 * (10 * w + x) + y) + z)
  {
    assert Written(s, at, 1) == w;
    assert Written(s, at, 2) == 10 * w + x;
    assert Written(s, at, 3) == 10 * (10 * w + x) + y;
  }

  /** Each field of the stamp, by position: the calendar's date, then hours, minutes and seconds. */
  lemma StampFields(secs: nat)
    requires CalendarDate(secs / 86400).year <= 9999
    ensures var t, d := Timestamp(secs), CalendarDate(secs / 86400);
            && |t| == 18 && d.month >= 0 && d.day >= 0 && d.year >= 0
            && Says(t, 0, 2, d.month) && t[2] == '/' && Says(t, 3, 2, d.day) && t[5] == '/'
            && Says(t, 6, 4, d.year) && Says(t, 10, 2, secs / 3600 % 24) && t[12] == ':'
            && Says(t, 13, 2, secs / 60 % 60) && t[15] == ':' && Says(t, 16, 2, secs % 60)
  {
    hide ZeroFilled, Says, CivilFromDays, CalendarDate, IsLeap, Digit;
    CivilIsCalendar(secs / 86400);
    CivilIsDate(secs / 86400);
    TimestampFits(secs);
    ClockParts(secs);
    var d, rem := CalendarDate(secs / 86400), secs % 86400;
    var t := Timestamp(secs);
    TwoDigits(d.month);
    TwoDigits(d.day);
    FourDigits(d.year);
    TwoDigits(rem / 3600);
    TwoDigits(rem % 3600 / 60);
    TwoDigits(rem % 60);
    SaysTwo(t, 0, d.month);
    SaysTwo(t, 3, d.day);
    SaysFour(t, 6, d.year);
    SaysTwo(t, 10, rem / 3600);
    SaysTwo(t, 13, rem % 3600 / 60);
    SaysTwo(t, 16, rem % 60);
  }

  lemma ClockParts(secs: nat)
    ensures secs % 86400 / 3600 == secs / 3600 % 24 < 24
    ensures secs % 86400 % 3600 / 60 == secs / 60 % 60 < 60
    ensures secs % 86400 % 60 == secs % 60
  {
    var day, rem := secs / 86400, secs % 86400;
    var h, m, s := rem / 3600, rem % 3600 / 60, rem % 60;
    assert secs == day * 86400 + h * 3600 + m * 60 + s;
    Remainder(secs, (day * 24 + h) * 60 + m, s, 60);
    Remainder(secs / 60, day * 24 + h, m, 60);
    Remainder(secs, day * 24 + h, m * 60 + s, 3600);
    Remainder(secs / 3600, day, h, 24);
  }
}
