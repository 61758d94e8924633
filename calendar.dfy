/** Date helpers of the roster generator: month lengths, weekdays and the
    `YYYY-MM-DD` keys under which a schedule stores each day.

    The calendar is the proleptic Gregorian one. Months are 0-indexed
    (0 = January, 11 = December). Days are counted from 0000-01-01, which
    is a Saturday. */
module Calendar {

  /** A 0-indexed month. */
  type MonthIndex = m: int | 0 <= m < 12

  datatype Weekday = Sun | Mon | Tue | Wed | Thu | Fri | Sat

  predicate IsLeapYear(year: int) {
    year % 4 == 0 && (year % 100 != 0 || year % 400 == 0)
  }

  /** Number of days in `month` of `year`. */
  function DaysInMonth(year: int, month: MonthIndex): (n: int)
    ensures 28 <= n <= 31
    ensures month == 1 ==> (n == 29 <==> IsLeapYear(year))
    ensures month != 1 ==> (n == 30 <==> month in {3, 5, 8, 10})
  {
    if month == 1 then (if IsLeapYear(year) then 29 else 28)
    else if month == 3 || month == 5 || month == 8 || month == 10 then 30
    else 31
  }

  /** Days of the years 0 .. year-1: each year has 365 days plus one per leap year. */
  function DaysBeforeYear(year: nat): int {
    365 * year + (year + 3) / 4 - (year + 99) / 100 + (year + 399) / 400
  }

  /** Days of the months 0 .. month-1 of `year`. */
  function DaysBeforeMonth(year: int, month: MonthIndex): int
    decreases month
  {
    if month == 0 then 0 else DaysBeforeMonth(year, month - 1) + DaysInMonth(year, month - 1)
  }

  /** Days from 0000-01-01 to the given date. A day outside 1 .. DaysInMonth
      counts on into the neighbouring months. */
  function DayNumber(year: nat, month: MonthIndex, day: int): int {
    DaysBeforeYear(year) + DaysBeforeMonth(year, month) + day - 1
  }

  function WeekdayAt(index: int): Weekday
    requires 0 <= index < 7
  {
    [Sun, Mon, Tue, Wed, Thu, Fri, Sat][index]
  }

  function NextWeekday(w: Weekday): Weekday {
    match w
    case Sun => Mon
    case Mon => Tue
    case Tue => Wed
    case Wed => Thu
    case Thu => Fri
    case Fri => Sat
    case Sat => Sun
  }

  /** The weekday of day number `n`; day 0 is a Saturday. */
  function WeekdayOfNumber(n: int): Weekday {
    WeekdayAt((n + 6) % 7)
  }

  /** The weekday of a date. */
  function DayOfWeek(year: nat, month: MonthIndex, day: int): Weekday {
    WeekdayOfNumber(DayNumber(year, month, day))
  }

  /** One more year adds one to the count of multiples of `k` below it
      exactly when `year` is such a multiple; here for the three divisors
      of the leap-year rule. */
  lemma FourStep(year: nat)
    ensures (year + 4) / 4 == (year + 3) / 4 + if year % 4 == 0 then 1 else 0
  {
    var q, r := year / 4, year % 4;
    assert year == 4 * q + r;
  }

  lemma HundredStep(year: nat)
    ensures (year + 100) / 100 == (year + 99) / 100 + if year % 100 == 0 then 1 else 0
  {
    var q, r := year / 100, year % 100;
    assert year == 100 * q + r;
  }

  lemma FourHundredStep(year: nat)
    ensures (year + 400) / 400 == (year + 399) / 400 + if year % 400 == 0 then 1 else 0
  {
    var q, r := year / 400, year % 400;
    assert year == 400 * q + r;
  }

  /** A multiple of 400 is a multiple of 100, and a multiple of 100 a multiple of 4. */
  lemma DivisorChain(year: nat)
    ensures year % 400 == 0 ==> year % 100 == 0
    ensures year % 100 == 0 ==> year % 4 == 0
  {
    if year % 400 == 0 {
      assert year == 100 * (4 * (year / 400));
    }
    if year % 100 == 0 {
      assert year == 4 * (25 * (year / 100));
    }
  }

  lemma {:induction false} LeapYearLength(year: nat)
    ensures DaysBeforeYear(year + 1) == DaysBeforeYear(year) + if IsLeapYear(year) then 366 else 365
  {
    FourStep(year);
    HundredStep(year);
    FourHundredStep(year);
    DivisorChain(year);
    var four, hundred, fourHundred := year % 4 == 0, year % 100 == 0, year % 400 == 0;
    assert DaysBeforeYear(year + 1) - DaysBeforeYear(year)
        == 365 + (if four then 1 else 0) - (if hundred then 1 else 0) + (if fourHundred then 1 else 0);
    assert IsLeapYear(year) == (four && (!hundred || fourHundred));
  }

  /** The months of a year add up to 365 days, or 366 in a leap year. */
  lemma {:induction false} YearOfMonths(year: nat)
    ensures DaysBeforeMonth(year, 11) + DaysInMonth(year, 11)
         == DaysBeforeYear(year + 1) - DaysBeforeYear(year)
    ensures DaysBeforeMonth(year, 11) + DaysInMonth(year, 11) == if IsLeapYear(year) then 366 else 365
  {
    LeapYearLength(year);
  }

  /** The weekday index of the next day is one more, modulo 7. */
  lemma IndexStep(n: int)
    ensures (n + 1 + 6) % 7 == ((n + 6) % 7 + 1) % 7
  {
    var r := (n + 6) % 7;
    assert n + 6 == 7 * ((n + 6) / 7) + r;
    assert n + 7 == 7 * ((n + 6) / 7) + (r + 1);
  }

  /** Index i + 1 (modulo 7) names the weekday after index i. */
  lemma WeekdayAtStep(i: int)
    requires 0 <= i < 7
    ensures WeekdayAt((i + 1) % 7) == NextWeekday(WeekdayAt(i))
  {
  }

  /** Consecutive day numbers have consecutive weekdays. */
  lemma NextNumber(n: int)
    ensures WeekdayOfNumber(n + 1) == NextWeekday(WeekdayOfNumber(n))
  {
    IndexStep(n);
    WeekdayAtStep((n + 6) % 7);
  }

  /** Consecutive dates have consecutive weekdays. */
  lemma NextDayNumber(y1: nat, m1: MonthIndex, d1: int, y2: nat, m2: MonthIndex, d2: int)
    requires DayNumber(y2, m2, d2) == DayNumber(y1, m1, d1) + 1
    ensures DayOfWeek(y2, m2, d2) == NextWeekday(DayOfWeek(y1, m1, d1))
  {
    NextNumber(DayNumber(y1, m1, d1));
  }

  /** The weekday advances by one from each day to the next, within a month. */
  lemma WeekdayAdvancesWithinMonth(year: nat, month: MonthIndex, day: int)
    ensures DayOfWeek(year, month, day + 1) == NextWeekday(DayOfWeek(year, month, day))
  {
    NextDayNumber(year, month, day, year, month, day + 1);
  }

  /** ... and from the last day of a month to the first of the next one. */
  lemma WeekdayAdvancesAcrossMonth(year: nat, month: MonthIndex)
    requires month < 11
    ensures DayOfWeek(year, month + 1, 1)
         == NextWeekday(DayOfWeek(year, month, DaysInMonth(year, month)))
  {
    NextDayNumber(year, month, DaysInMonth(year, month), year, month + 1, 1);
  }

  /** ... and from 31 December to 1 January of the next year. */
  lemma {:induction false} WeekdayAdvancesAcrossYear(year: nat)
    ensures DayOfWeek(year + 1, 0, 1) == NextWeekday(DayOfWeek(year, 11, 31))
  {
    YearOfMonths(year);
    NextDayNumber(year, 11, 31, year + 1, 0, 1);
  }

  /** 1 April 2025 (month index 3) is a Tuesday, and the next day a Wednesday. */
  lemma AprilFirst2025IsTuesday()
    ensures DayOfWeek(2025, 3, 1) == Tue
    ensures DayOfWeek(2025, 3, 2) == Wed
  {
    assert DaysBeforeYear(2025) == 739617;
    assert DaysBeforeMonth(2025, 3) == 90;
    assert DayNumber(2025, 3, 1) == 739707;
    assert WeekdayOfNumber(739707) == Tue && WeekdayOfNumber(739708) == Wed;
  }

  // ---------------------------------------------------------------------
  // Date keys

  function DigitChar(d: nat): char
    requires d < 10
  {
    (48 + d) as char
  }

  /** Decimal notation of a natural number, as JavaScript's `String(n)`. */
  function Decimal(n: nat): (s: string)
    ensures 1 <= |s|
    ensures n < 10 <==> |s| == 1
    ensures forall j :: 0 <= j < |s| ==> '0' <= s[j] <= '9'
  {
    if n < 10 then [DigitChar(n)] else Decimal(n / 10) + [DigitChar(n % 10)]
  }

  /** `String(n).padStart(2, '0')`. */
  function Pad2(n: nat): (s: string)
    ensures n < 100 ==> |s| == 2
  {
    if n < 10 then "0" + Decimal(n) else Decimal(n)
  }

  /** The key of a date: `${year}-${MM}-${DD}` with a 1-based month. */
  function DateStr(year: nat, month: MonthIndex, day: nat): string {
    Decimal(year) + "-" + Pad2(month + 1) + "-" + Pad2(day)
  }

  lemma {:induction false} DecimalInjective(a: nat, b: nat)
    requires Decimal(a) == Decimal(b)
    ensures a == b
  {
    if a >= 10 && b >= 10 {
      var da, db := Decimal(a), Decimal(b);
      assert da[|da| - 1] == DigitChar(a % 10);
      assert db[|db| - 1] == DigitChar(b % 10);
      assert da[..|da| - 1] == Decimal(a / 10);
      assert db[..|db| - 1] == Decimal(b / 10);
      DecimalInjective(a / 10, b / 10);
    } else {
      assert Decimal(a)[0] == Decimal(b)[0];
    }
  }

  lemma {:induction false} Pad2Injective(a: nat, b: nat)
    requires a < 100 && b < 100
    requires Pad2(a) == Pad2(b)
    ensures a == b
  {
    if a < 10 && b < 10 {
      assert Decimal(a) == Pad2(a)[1..];
      assert Decimal(b) == Pad2(b)[1..];
      DecimalInjective(a, b);
    } else if a >= 10 && b >= 10 {
      DecimalInjective(a, b);
    } else {
      Pad2Lead(if a < 10 then b else a);
    }
  }

  /** A two-digit number is padded with no leading zero. */
  lemma Pad2Lead(n: nat)
    requires 10 <= n < 100
    ensures Pad2(n)[0] == DigitChar(n / 10) != '0'
  {
    assert Decimal(n) == Decimal(n / 10) + [DigitChar(n % 10)];
  }

  /** A string of the form `a-bb-c` splits back into `a`, `bb` and `c`. */
  lemma SplitFields(a: string, b: string, c: string)
    requires |b| == 2
    ensures var s := a + "-" + b + "-" + c;
      && |s| == |a| + 4 + |c|
      && s[..|a|] == a
      && s[|a|] == '-' && s[|a| + 3] == '-'
      && s[|a| + 1..|a| + 3] == b
      && s[|a| + 4..] == c
  {
    var s := a + "-" + b + "-" + c;
    assert s == a + ("-" + b + "-" + c);
    assert s == (a + "-" + b + "-") + c;
    assert (a + "-" + b + "-")[|a| + 1..|a| + 3] == b;
  }

  /** A key is the year's digits, a dash, the two month digits, a dash and
      the two day digits. */
  lemma DateStrShape(year: nat, month: MonthIndex, day: nat)
    requires day < 100
    ensures var r, n := DateStr(year, month, day), |Decimal(year)|;
      && |r| == n + 6
      && r[..n] == Decimal(year)
      && r[n] == '-' && r[n + 3] == '-'
      && r[n + 1..n + 3] == Pad2(month + 1) && r[n + 4..] == Pad2(day)
  {
    SplitFields(Decimal(year), Pad2(month + 1), Pad2(day));
  }

  /** Two `a-bb-c` strings whose first fields hold no dash are equal
      only field by field. */
  lemma SplitFieldsInjective(a1: string, b1: string, c1: string, a2: string, b2: string, c2: string)
    requires |b1| == 2 && |b2| == 2
    requires forall j :: 0 <= j < |a1| ==> a1[j] != '-'
    requires forall j :: 0 <= j < |a2| ==> a2[j] != '-'
    requires a1 + "-" + b1 + "-" + c1 == a2 + "-" + b2 + "-" + c2
    ensures a1 == a2 && b1 == b2 && c1 == c2
  {
    var s := a1 + "-" + b1 + "-" + c1;
    SplitFields(a1, b1, c1);
    SplitFields(a2, b2, c2);
    assert s[|a1|] == '-' && s[|a2|] == '-';
    assert forall j :: 0 <= j < |a1| ==> s[j] == a1[j];
    assert forall j :: 0 <= j < |a2| ==> s[j] == a2[j];
  }

  /** Distinct dates (with day below 100) have distinct keys. */
  lemma {:induction false} DateStrInjective(y1: nat, m1: MonthIndex, d1: nat, y2: nat, m2: MonthIndex, d2: nat)
    requires d1 < 100 && d2 < 100
    ensures DateStr(y1, m1, d1) == DateStr(y2, m2, d2) <==> y1 == y2 && m1 == m2 && d1 == d2
  {
    if DateStr(y1, m1, d1) == DateStr(y2, m2, d2) {
      SplitFieldsInjective(Decimal(y1), Pad2(m1 + 1), Pad2(d1), Decimal(y2), Pad2(m2 + 1), Pad2(d2));
      DecimalInjective(y1, y2);
      Pad2Injective(m1 + 1, m2 + 1);
      Pad2Injective(d1, d2);
    }
  }
}
