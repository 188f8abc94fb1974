/** Calendar arithmetic on nanoseconds since 1 January 1900. The Gregorian rules are
    stated here by counting days one year and one month at a time; the closed forms of
    the program are compared with them. */
module Calendar {
  import opened CondDBKeys

  const BILLION := 1_000_000_000
  const HOUR := 60 * 60 * BILLION
  const DAY := 24 * HOUR

  datatype CalendarTime = CalendarTime(
    year: nat, month: nat, day: nat, hour: nat, min: nat, sec: nat, ns: nat,
    plusInf: bool, minusInf: bool)

  // ---- The calendar by its rules

  predicate GregorianLeap(year: nat) {
    year % 4 == 0 && (year % 100 != 0 || year % 400 == 0)
  }

  function DaysInYear(year: nat): nat {
    if GregorianLeap(year) then 366 else 365
  }

  function DaysInMonth(year: nat, month: nat): nat {
    if month == 2 then (if GregorianLeap(year) then 29 else 28)
    else if month in {4, 6, 9, 11} then 30
    else 31
  }

  function DaysBeforeYear(year: nat): nat {
    if year <= 1900 then 0 else DaysBeforeYear(year - 1) + DaysInYear(year - 1)
  }

  function DaysBeforeMonth(year: nat, month: nat): nat {
    if month <= 1 then 0 else DaysBeforeMonth(year, month - 1) + DaysInMonth(year, month - 1)
  }

  predicate ValidDate(c: CalendarTime) {
    && c.year >= 1900 && 1 <= c.month <= 12 && 1 <= c.day <= DaysInMonth(c.year, c.month)
    && c.hour < 24 && c.min < 60 && c.sec < 60 && c.ns < BILLION
    && !c.plusInf && !c.minusInf
  }

  function DayNumber(c: CalendarTime): nat
    requires c.day >= 1
  {
    DaysBeforeYear(c.year) + DaysBeforeMonth(c.year, c.month) + c.day - 1
  }

  function TimeOfDay(c: CalendarTime): nat {
    ((c.hour * 60 + c.min) * 60 + c.sec) * BILLION + c.ns
  }

  /** Nanoseconds since the origin. */
  function Instant(c: CalendarTime): nat
    requires c.day >= 1
  {
    DayNumber(c) * DAY + TimeOfDay(c)
  }

  predicate Earlier(a: CalendarTime, b: CalendarTime) {
    || a.year < b.year
    || (a.year == b.year && (
          || a.month < b.month
          || (a.month == b.month && (
                || a.day < b.day
                || (a.day == b.day && TimeEarlier(a, b))))))
  }

  predicate TimeEarlier(a: CalendarTime, b: CalendarTime) {
    || a.hour < b.hour
    || (a.hour == b.hour && (
          || a.min < b.min
          || (a.min == b.min && (a.sec < b.sec || (a.sec == b.sec && a.ns < b.ns)))))
  }

  // ---- Order

  lemma {:induction false} YearsMonotone(a: nat, b: nat)
    requires 1900 <= a < b
    ensures DaysBeforeYear(a) + DaysInYear(a) <= DaysBeforeYear(b)
    decreases b
  {
    if a < b - 1 {
      YearsMonotone(a, b - 1);
    }
  }

  lemma {:induction false} MonthsMonotone(year: nat, a: nat, b: nat)
    requires 1 <= a < b
    ensures DaysBeforeMonth(year, a) + DaysInMonth(year, a) <= DaysBeforeMonth(year, b)
    decreases b
  {
    if a < b - 1 {
      MonthsMonotone(year, a, b - 1);
    }
  }

  /** The months make up the year. */
  lemma YearLength(year: nat)
    ensures DaysBeforeMonth(year, 1) == 0
    ensures DaysBeforeMonth(year, 2) == 31
    ensures var l := if GregorianLeap(year) then 1 else 0;
            && DaysBeforeMonth(year, 3) == 59 + l && DaysBeforeMonth(year, 4) == 90 + l
            && DaysBeforeMonth(year, 5) == 120 + l && DaysBeforeMonth(year, 6) == 151 + l
            && DaysBeforeMonth(year, 7) == 181 + l && DaysBeforeMonth(year, 8) == 212 + l
            && DaysBeforeMonth(year, 9) == 243 + l && DaysBeforeMonth(year, 10) == 273 + l
            && DaysBeforeMonth(year, 11) == 304 + l && DaysBeforeMonth(year, 12) == 334 + l
            && DaysBeforeMonth(year, 13) == DaysInYear(year)
  {
    assert DaysBeforeMonth(year, 2) == 31;
    assert DaysBeforeMonth(year, 4) == DaysBeforeMonth(year, 3) + 31;
    assert DaysBeforeMonth(year, 6) == DaysBeforeMonth(year, 5) + 31;
    assert DaysBeforeMonth(year, 8) == DaysBeforeMonth(year, 7) + 31;
    assert DaysBeforeMonth(year, 10) == DaysBeforeMonth(year, 9) + 30;
    assert DaysBeforeMonth(year, 12) == DaysBeforeMonth(year, 11) + 30;
  }

  lemma DayInYear(c: CalendarTime)
    requires ValidDate(c)
    ensures DaysBeforeYear(c.year) <= DayNumber(c) < DaysBeforeYear(c.year) + DaysInYear(c.year)
  {
    YearLength(c.year);
    if c.month < 13 {
      MonthsMonotone(c.year, c.month, 13);
    }
  }

  lemma DayOrder(a: CalendarTime, b: CalendarTime)
    requires ValidDate(a) && ValidDate(b)
    requires a.year < b.year || (a.year == b.year && (a.month < b.month || (a.month == b.month && a.day < b.day)))
    ensures DayNumber(a) < DayNumber(b)
  {
    if a.year < b.year {
      DayInYear(a);
      DayInYear(b);
      YearsMonotone(a.year, b.year);
    } else if a.month < b.month {
      MonthsMonotone(a.year, a.month, b.month);
    }
  }

  lemma TimeWithinDay(c: CalendarTime)
    requires ValidDate(c)
    ensures TimeOfDay(c) < DAY
  {}

  lemma TimeOrder(a: CalendarTime, b: CalendarTime)
    requires ValidDate(a) && ValidDate(b) && TimeEarlier(a, b)
    ensures TimeOfDay(a) < TimeOfDay(b)
  {}

  lemma DayThenTime(d: nat, x: nat, e: nat, y: nat)
    requires x < DAY && (d < e || (d == e && x < y))
    ensures d * DAY + x < e * DAY + y
  {
    if d < e {
      assert d * DAY + DAY <= e * DAY;
    }
  }

  lemma HasDay(c: CalendarTime)
    requires ValidDate(c)
    ensures c.day >= 1
  {}

  lemma EarlierIsLess(a: CalendarTime, b: CalendarTime)
    requires ValidDate(a) && ValidDate(b) && Earlier(a, b)
    ensures Instant(a) < Instant(b)
  {
    hide ValidDate, TimeOfDay, TimeEarlier, DaysBeforeYear, DaysBeforeMonth;
    HasDay(a);
    HasDay(b);
    TimeWithinDay(a);
    if a.year == b.year && a.month == b.month && a.day == b.day {
      TimeOrder(a, b);
    } else {
      DayOrder(a, b);
    }
    DayThenTime(DayNumber(a), TimeOfDay(a), DayNumber(b), TimeOfDay(b));
  }

  /** Valid dates are ordered like their instants; in particular the instant determines
      the date. */
  lemma InstantOrder(a: CalendarTime, b: CalendarTime)
    requires ValidDate(a) && ValidDate(b)
    ensures Earlier(a, b) <==> Instant(a) < Instant(b)
    ensures Instant(a) == Instant(b) ==> a == b
  {
    if Earlier(a, b) {
      EarlierIsLess(a, b);
    } else if Earlier(b, a) {
      EarlierIsLess(b, a);
    } else {
      assert a == b;
    }
  }

  // ---- The reference conversion: count off years, then months

  function YearOf(days: nat, year: nat): (y: nat)
    requires year >= 1900 && DaysBeforeYear(year) <= days
    ensures y >= year && DaysBeforeYear(y) <= days < DaysBeforeYear(y) + DaysInYear(y)
    decreases days - DaysBeforeYear(year)
  {
    if days < DaysBeforeYear(year) + DaysInYear(year) then year else YearOf(days, year + 1)
  }

  function MonthOf(year: nat, day: nat, month: nat): (m: nat)
    requires 1 <= month <= 12 && DaysBeforeMonth(year, month) <= day < DaysInYear(year)
    ensures month <= m <= 12 && DaysBeforeMonth(year, m) <= day < DaysBeforeMonth(year, m) + DaysInMonth(year, m)
    decreases 12 - month
  {
    if day < DaysBeforeMonth(year, month) + DaysInMonth(year, month) then month
    else
      YearLength(year);
      MonthOf(year, day, month + 1)
  }

  /** The date of an instant. */
  function DateOf(t: nat): (c: CalendarTime)
    ensures ValidDate(c) && Instant(c) == t
  {
    var days, rest := t / DAY, t % DAY;
    var year := YearOf(days, 1900);
    var inYear := days - DaysBeforeYear(year);
    var month := MonthOf(year, inYear, 1);
    var c := CalendarTime(year, month, inYear - DaysBeforeMonth(year, month) + 1,
                          rest / HOUR, rest % HOUR / (60 * BILLION), rest % (60 * BILLION) / BILLION, rest % BILLION,
                          false, false);
    TimeParts(rest);
    c
  }

  lemma InMinute(x: nat, q: nat, r: nat)
    requires x == q * (60 * BILLION) + r && r < 60 * BILLION
    ensures x % (60 * BILLION) == r
  {}

  lemma InSecond(x: nat, q: nat, r: nat)
    requires x == q * BILLION + r && r < BILLION
    ensures x % BILLION == r
  {}

  lemma HourPart(rest: nat)
    requires rest < DAY
    ensures rest / HOUR < 24 && rest == rest / HOUR * HOUR + rest % HOUR && rest % HOUR < HOUR
  {}

  lemma MinutePart(x: nat)
    requires x < HOUR
    ensures x / (60 * BILLION) < 60 && x == x / (60 * BILLION) * (60 * BILLION) + x % (60 * BILLION) && x % (60 * BILLION) < 60 * BILLION
  {}

  lemma SecondPart(x: nat)
    requires x < 60 * BILLION
    ensures x / BILLION < 60 && x == x / BILLION * BILLION + x % BILLION && x % BILLION < BILLION
  {}

  lemma TimeParts(rest: nat)
    requires rest < DAY
    ensures rest / HOUR < 24 && rest % HOUR / (60 * BILLION) < 60 && rest % (60 * BILLION) / BILLION < 60
    ensures ((rest / HOUR * 60 + rest % HOUR / (60 * BILLION)) * 60 + rest % (60 * BILLION) / BILLION) * BILLION + rest % BILLION == rest
  {
    HourPart(rest);
    var h, x := rest / HOUR, rest % HOUR;
    MinutePart(x);
    var m, y := x / (60 * BILLION), x % (60 * BILLION);
    InMinute(rest, h * 60 + m, y);
    SecondPart(y);
    InSecond(rest, (h * 60 + m) * 60 + y / BILLION, y % BILLION);
  }

  /** `DateOf` is the inverse of `Instant` on valid dates. */
  lemma DateOfInstant(c: CalendarTime)
    requires ValidDate(c)
    ensures DateOf(Instant(c)) == c
  {
    InstantOrder(c, DateOf(Instant(c)));
  }
}
