/** SimpleTime: a 64-bit count of nanoseconds since 1900, its conversions to and from
    calendar fields, and the sortable text form. */
module SimpleTimes {
  import opened CondDBKeys
  import opened Calendar
  import opened Decimal

  /** Nanoseconds in 365.25637 days, the length of a year in the first guess. */
  const YEAR_NS := 31558150368000000

  /** How far, in years, the floating-point quotient may be off. */
  const TOLERANCE := 0.00006

  /** TOLERANCE in nanoseconds. */
  const SLACK := 1893489022080

  // ---- The closed forms of the program

  function LeapDays(y: nat): int {
    y / 4 - y / 100 + (y + 300) / 400
  }

  predicate Leap(y: nat) {
    y % 4 == 0 && (y % 100 != 0 || (y + 300) % 400 == 0)
  }

  /** Days of a common year before the month; -1 for an invalid month. */
  function MonthOffset(month: nat): int {
    match month
    case 1 => 0
    case 2 => 31
    case 3 => 31+28
    case 4 => 31+28+31
    case 5 => 31+28+31+30
    case 6 => 31+28+31+30+31
    case 7 => 31+28+31+30+31+30
    case 8 => 31+28+31+30+31+30+31
    case 9 => 31+28+31+30+31+30+31+31
    case 10 => 31+28+31+30+31+30+31+31+30
    case 11 => 31+28+31+30+31+30+31+31+30+31
    case 12 => 31+28+31+30+31+30+31+31+30+31+30
    case _ => -1
  }

  /** Two's complement wrap-around of the 64-bit time value. */
  function Wrap(x: int): Key {
    (x + 0x8000_0000_0000_0000) % 0x1_0000_0000_0000_0000 - 0x8000_0000_0000_0000
  }

  /** The value the setter leaves: an invalid year or month leaves the old one. */
  function ValueAfter(old_: Key, c: CalendarTime): Key {
    if c.plusInf then PLUS_INF
    else if c.minusInf then MINUS_INF
    else if c.year < 1900 || c.year > 2484 || MonthOffset(c.month) == -1 then old_
    else
      var y := c.year - 1900;
      var days := y * 365 + LeapDays(y) + MonthOffset(c.month) - (if Leap(y) && c.month < 3 then 1 else 0) + c.day - 1;
      Wrap((((days * 24 + c.hour) * 60 + c.min) * 60 + c.sec) * BILLION + c.ns)
  }

  lemma Remainder4(y: nat)
    ensures (y + 1900) % 4 == y % 4
  {}

  lemma Remainder100(y: nat)
    ensures (y + 1900) % 100 == y % 100
  {}

  lemma Remainder400(y: nat)
    ensures (y + 1900) % 400 == (y + 300) % 400
  {}

  lemma LeapAgrees(y: nat)
    ensures Leap(y) <==> GregorianLeap(y + 1900)
  {
    Remainder4(y);
    Remainder100(y);
    Remainder400(y);
  }

  lemma Quarter(y: nat)
    ensures (y + 1) / 4 == y / 4 + if (y + 1) % 4 == 0 then 1 else 0
  {}

  lemma Century(y: nat)
    ensures (y + 1) / 100 == y / 100 + if (y + 1) % 100 == 0 then 1 else 0
    ensures (y + 1) % 100 == 0 ==> (y + 1) % 4 == 0
  {}

  lemma FourCenturies(y: nat)
    ensures (y + 301) / 400 == (y + 300) / 400 + if (y + 301) % 400 == 0 then 1 else 0
    ensures (y + 301) % 400 == 0 ==> (y + 1) % 100 == 0
  {}

  lemma LeapDaysStep(y: nat)
    ensures LeapDays(y + 1) == LeapDays(y) + if Leap(y + 1) then 1 else 0
  {
    Quarter(y);
    Century(y);
    FourCenturies(y);
  }

  /** The closed form counts the leap day of the year itself. */
  lemma {:induction false} YearClosedForm(y: nat)
    ensures DaysBeforeYear(y + 1900) == 365 * y + LeapDays(y) - if Leap(y) then 1 else 0
  {
    if y > 0 {
      YearClosedForm(y - 1);
      LeapAgrees(y - 1);
      LeapDaysStep(y - 1);
    }
  }

  lemma MonthClosedForm(year: nat, month: nat)
    requires 1 <= month <= 12
    ensures DaysBeforeMonth(year, month) == MonthOffset(month) + if GregorianLeap(year) && month >= 3 then 1 else 0
  {
    YearLength(year);
  }

  lemma TooLate(c: CalendarTime)
    requires ValidDate(c) && c.year > 2484
    ensures Instant(c) > PLUS_INF
  {
    hide DaysBeforeYear, DaysBeforeMonth, DaysInMonth, GregorianLeap;
    YearsMonotone(2484, c.year);
    YearClosedForm(584);
    assert DaysBeforeYear(2484) == 213302;
  }

  lemma DaysAgree(c: CalendarTime)
    requires ValidDate(c)
    ensures var y := c.year - 1900;
            y * 365 + LeapDays(y) + MonthOffset(c.month) - (if Leap(y) && c.month < 3 then 1 else 0) + c.day - 1 == DayNumber(c)
  {
    hide LeapDays, Leap, GregorianLeap, MonthOffset, DaysBeforeYear, DaysBeforeMonth;
    YearClosedForm(c.year - 1900);
    LeapAgrees(c.year - 1900);
    MonthClosedForm(c.year, c.month);
  }

  lemma NanosAgree(days: int, c: CalendarTime)
    ensures (((days * 24 + c.hour) * 60 + c.min) * 60 + c.sec) * BILLION + c.ns == days * DAY + TimeOfDay(c)
  {}

  lemma MonthIsValid(month: nat)
    requires 1 <= month <= 12
    ensures MonthOffset(month) >= 0
  {}

  /** Setting a valid date that fits gives its instant. */
  lemma SetsInstant(old_: Key, c: CalendarTime)
    requires ValidDate(c) && Instant(c) <= PLUS_INF
    ensures ValueAfter(old_, c) == Instant(c)
  {
    hide LeapDays, Leap, GregorianLeap, MonthOffset, DayNumber, TimeOfDay, DaysInMonth;
    if c.year > 2484 {
      TooLate(c);
    }
    MonthIsValid(c.month);
    DaysAgree(c);
    NanosAgree(DayNumber(c), c);
  }

  /** The last time there is, 2^63-1 nanoseconds. */
  const LAST_DATE := CalendarTime(2192, 4, 10, 23, 47, 16, 854775807, false, false)

  lemma LastDateInstant()
    ensures ValidDate(LAST_DATE) && Instant(LAST_DATE) == PLUS_INF
  {
    hide DaysBeforeYear, DaysBeforeMonth;
    YearClosedForm(292);
    YearLength(2192);
  }

  /** A 64-bit count of nanoseconds from 1900 ends on 10 April 2192: the dates that fit are
      exactly those up to the last one. */
  lemma RangeEndsIn2192(c: CalendarTime)
    requires ValidDate(c)
    ensures Instant(c) <= PLUS_INF <==> c == LAST_DATE || Earlier(c, LAST_DATE)
  {
    hide ValidDate, Instant, Earlier;
    LastDateInstant();
    InstantOrder(c, LAST_DATE);
  }

  // ---- The year correction

  /** The first guess: a truncated quotient that may be off by the tolerance. */
  predicate NearYears(q: real, t: nat) {
    -TOLERANCE * YEAR_NS as real <= q * YEAR_NS as real - t as real <= TOLERANCE * YEAR_NS as real
  }

  function Truncated(q: real): int {
    if q >= 0.0 then q.Floor else -((-q).Floor)
  }

  lemma SlackIsTolerance()
    ensures SLACK as real == TOLERANCE * YEAR_NS as real
  {}

  lemma GuessBounds(q: real, t: nat)
    requires NearYears(q, t)
    ensures var g := Truncated(q); g >= 0 && g * YEAR_NS - SLACK <= t < (g + 1) * YEAR_NS + SLACK
  {
    SlackIsTolerance();
    if q >= 0.0 {
      var g := q.Floor;
      assert g as real <= q < (g + 1) as real;
      assert (g as real) * (YEAR_NS as real) <= q * (YEAR_NS as real) < ((g + 1) as real) * (YEAR_NS as real);
    } else {
      assert q * YEAR_NS as real >= -SLACK as real;
    }
  }

  /** The instant t lies in the year with index y. */
  predicate InYear(t: nat, y: nat) {
    DaysBeforeYear(y + 1900) * DAY <= t < DaysBeforeYear(y + 1901) * DAY
  }

  /** Counting the leap days up to the guessed year and dividing by common years goes
      wrong only on the first day of a leap year guessed right and on the last day of a
      leap year guessed one too low. */
  lemma CorrectionExact(t: nat, g: nat, y: nat)
    requires InYear(t, y) && (g == y || g == y - 1)
    ensures 365 * y * DAY <= t - LeapDays(g) * DAY < 365 * (y + 1) * DAY
            <==> !(Leap(y) && if g == y then t < (DaysBeforeYear(y + 1900) + 1) * DAY
                              else t >= (DaysBeforeYear(y + 1901) - 1) * DAY)
  {
    hide LeapDays, Leap, DaysBeforeYear, GregorianLeap;
    YearClosedForm(y);
    YearClosedForm(y + 1);
    LeapDaysStep(y);
    if g < y {
      LeapDaysStep(g);
    }
  }

  /** With a guess within the tolerance neither happens: the corrected division gives the
      year of the instant over the whole 64-bit range. */
  lemma YearCorrected(t: nat, g: nat, y: nat)
    requires t < PLUS_INF && InYear(t, y)
    requires g * YEAR_NS - SLACK <= t < (g + 1) * YEAR_NS + SLACK
    ensures 365 * y * DAY <= t - LeapDays(g) * DAY < 365 * (y + 1) * DAY
  {
    hide LeapDays, Leap, DaysBeforeYear, GregorianLeap;
    YearClosedForm(y);
    YearClosedForm(y + 1);
    LeapDaysStep(y);
    GuessIsClose(t, g, y);
    CorrectionExact(t, g, y);
  }

  lemma LeapDaysBound(y: nat)
    ensures 24 * y - 75 <= 100 * LeapDays(y) && 4 * LeapDays(y) <= y
    ensures Leap(y) ==> y >= 4
  {}

  /** The margins: a quarter day a year from above, 24 days a century from below. */
  lemma GuessLinear(t: nat, g: nat, y: nat, l: int, leap: int)
    requires t < PLUS_INF && 0 <= leap <= 1 && (leap == 1 ==> y >= 4)
    requires 24 * y - 75 <= 100 * l && 4 * l <= y
    requires g * YEAR_NS - SLACK <= t < (g + 1) * YEAR_NS + SLACK
    requires (365 * y + l - leap) * DAY <= t < (365 * (y + 1) + l) * DAY
    ensures g == y || g == y - 1
    ensures g == y && leap == 1 ==> t >= (365 * y + l) * DAY
    ensures g == y - 1 && leap == 1 ==> t < (365 * (y + 1) + l - 1) * DAY
  {}

  lemma GuessIsClose(t: nat, g: nat, y: nat)
    requires t < PLUS_INF
    requires g * YEAR_NS - SLACK <= t < (g + 1) * YEAR_NS + SLACK
    requires (365 * y + LeapDays(y) - if Leap(y) then 1 else 0) * DAY <= t < (365 * (y + 1) + LeapDays(y)) * DAY
    ensures g == y || g == y - 1
    ensures g == y && Leap(y) ==> t >= (365 * y + LeapDays(y)) * DAY
    ensures g == y - 1 && Leap(y) ==> t < (365 * (y + 1) + LeapDays(y) - 1) * DAY
  {
    hide LeapDays, Leap;
    LeapDaysBound(y);
    GuessLinear(t, g, y, LeapDays(y), if Leap(y) then 1 else 0);
  }

  // ---- The month and the rest

  /** The month the chain of comparisons settles on. */
  lemma MonthFound(c: CalendarTime, t: nat)
    requires ValidDate(c) && Instant(c) == t
    ensures var inYear := t - DaysBeforeYear(c.year) * DAY;
            DaysBeforeMonth(c.year, c.month) * DAY <= inYear < DaysBeforeMonth(c.year, c.month + 1) * DAY
  {
    TimeWithinDay(c);
  }

  lemma SplitDay(d: nat, rest: nat)
    requires rest < DAY
    ensures (d * DAY + rest) / DAY == d && (d * DAY + rest) % DAY == rest
  {}

  lemma SplitHour(h: nat, rest: nat)
    requires rest < HOUR
    ensures (h * HOUR + rest) / HOUR == h && (h * HOUR + rest) % HOUR == rest
  {}

  lemma SplitMinute(m: nat, rest: nat)
    requires rest < 60 * BILLION
    ensures (m * (60 * BILLION) + rest) / (60 * BILLION) == m && (m * (60 * BILLION) + rest) % (60 * BILLION) == rest
  {}

  lemma SplitSecond(s: nat, rest: nat)
    requires rest < BILLION
    ensures (s * BILLION + rest) / BILLION == s && (s * BILLION + rest) % BILLION == rest
  {}

  lemma DayParts(c: CalendarTime, t: nat)
    requires ValidDate(c) && Instant(c) == t
    ensures var r := t - (DaysBeforeYear(c.year) + DaysBeforeMonth(c.year, c.month)) * DAY;
            r >= 0 && r / DAY + 1 == c.day && r % DAY == TimeOfDay(c)
  {
    TimeWithinDay(c);
    SplitDay(c.day - 1, TimeOfDay(c));
  }

  lemma ClockParts(c: CalendarTime)
    requires ValidDate(c)
    ensures var x := TimeOfDay(c);
            && x / HOUR == c.hour
            && x % HOUR / (60 * BILLION) == c.min
            && x % HOUR % (60 * BILLION) / BILLION == c.sec
            && x % HOUR % (60 * BILLION) % BILLION == c.ns
  {
    var seconds := c.sec * BILLION + c.ns;
    var minutes := c.min * (60 * BILLION) + seconds;
    assert TimeOfDay(c) == c.hour * HOUR + minutes;
    SplitHour(c.hour, minutes);
    SplitMinute(c.min, seconds);
    SplitSecond(c.sec, c.ns);
  }

  function FirstOf(year: nat, month: nat): CalendarTime {
    CalendarTime(year, month, 1, 0, 0, 0, 0, false, false)
  }

  lemma FirstOfInstant(c: CalendarTime, month: nat, old_: Key)
    requires ValidDate(c) && Instant(c) <= PLUS_INF && 1 <= month <= c.month
    ensures ValueAfter(old_, FirstOf(c.year, month)) == (DaysBeforeYear(c.year) + DaysBeforeMonth(c.year, month)) * DAY
  {
    hide ValueAfter, DaysBeforeYear, DaysBeforeMonth, GregorianLeap;
    var f := FirstOf(c.year, month);
    assert ValidDate(f) && Instant(f) == (DaysBeforeYear(c.year) + DaysBeforeMonth(c.year, month)) * DAY;
    MonthsUp(c.year, month, c.month);
    NotLater(DayNumber(f), DayNumber(c), TimeOfDay(c));
    SetsInstant(old_, f);
  }

  lemma NotLater(d: nat, e: nat, x: nat)
    requires d <= e
    ensures d * DAY <= e * DAY + x
  {}

  // ---- The text form

  function DateText(c: CalendarTime): string {
    Field(c.year, 4) + (Field(c.month, 2) + (Field(c.day, 2) + (Field(c.hour, 2) + (Field(c.min, 2) + (Field(c.sec, 2) +
      ("." + Field(c.ns, 9)))))))
  }

  /** The text of a time that is not a finite one before the origin. */
  function TimeText(t: Key): string
    requires t >= 0 || t == MINUS_INF
  {
    if t == PLUS_INF then "+inf" else if t == MINUS_INF then "-inf" else DateText(DateOf(t))
  }

  /** Texts shorter than this make a substring call fail. */
  const MIN_TEXT := 15

  function ParsedTime(s: string): CalendarTime
    requires |s| >= MIN_TEXT
  {
    CalendarTime(Strtoi(s[0..4], USHORT), Strtoi(s[4..6], USHORT), Strtoi(s[6..8], USHORT),
                 Strtoi(s[8..10], USHORT), Strtoi(s[10..12], USHORT), Strtoi(s[12..14], USHORT),
                 Strtoi(s[15..], ULONG), false, false)
  }

  lemma DateFields(c: CalendarTime)
    requires ValidDate(c) && c.year <= 2484
    ensures c.year < Pow10(4) && c.month < Pow10(2) && c.day < Pow10(2) && c.hour < Pow10(2)
    ensures c.min < Pow10(2) && c.sec < Pow10(2) && c.ns < Pow10(9)
  {
    assert Pow10(2) == 100;
    assert Pow10(4) == 100 * Pow10(2);
    assert Pow10(6) == 100 * Pow10(4);
    assert Pow10(8) == 100 * Pow10(6);
    assert Pow10(9) == 10 * Pow10(8);
  }

  /** Reading a field of a date text back. */
  lemma FieldRead(n: nat, w: nat, modulus: nat)
    requires 1 <= w && n < Pow10(w) && n < modulus
    ensures |Field(n, w)| == w && Strtoi(Field(n, w), modulus) == n
  {
    FieldProperties(n, w);
    StrtoiValue(Field(n, w), modulus);
  }

  lemma {:induction false} DateTextParses(c: CalendarTime)
    requires ValidDate(c) && c.year <= 2484
    ensures |DateText(c)| == 24 && ParsedTime(DateText(c)) == c
  {
    hide Field, Strtoi, ValidDate, DaysInMonth, Pow10;
    DateFields(c);
    SmallFields(c);
    FieldRead(c.year, 4, USHORT);
    FieldRead(c.month, 2, USHORT);
    FieldRead(c.day, 2, USHORT);
    FieldRead(c.hour, 2, USHORT);
    FieldRead(c.min, 2, USHORT);
    FieldRead(c.sec, 2, USHORT);
    FieldRead(c.ns, 9, ULONG);
    var s := DateText(c);
    assert s[0..4] == Field(c.year, 4);
    assert s[4..6] == Field(c.month, 2);
    assert s[6..8] == Field(c.day, 2);
    assert s[8..10] == Field(c.hour, 2);
    assert s[10..12] == Field(c.min, 2);
    assert s[12..14] == Field(c.sec, 2);
    assert s[15..] == Field(c.ns, 9);
  }

  lemma SmallFields(c: CalendarTime)
    requires ValidDate(c) && c.year <= 2484
    ensures c.year < USHORT && c.month < USHORT && c.day < USHORT && c.hour < USHORT && c.min < USHORT && c.sec < USHORT
    ensures c.ns < ULONG && !c.plusInf && !c.minusInf
  {}

  /** Date texts are ordered like the dates. */
  lemma DateTextOrder(a: CalendarTime, b: CalendarTime)
    requires ValidDate(a) && ValidDate(b) && a.year <= 2484 && b.year <= 2484
    ensures Before(DateText(a), DateText(b)) <==> Earlier(a, b)
  {
    hide Field, Before, ValidDate, Pow10;
    DateFields(a);
    DateFields(b);
    var a7, b7 := "." + Field(a.ns, 9), "." + Field(b.ns, 9);
    BeforeConcat(".", Field(a.ns, 9), ".", Field(b.ns, 9));
    FieldOrder(a.ns, "", b.ns, "", 9);
    assert Field(a.ns, 9) + "" == Field(a.ns, 9) && Field(b.ns, 9) + "" == Field(b.ns, 9);
    NothingBefore();
    var a6, b6 := Field(a.sec, 2) + a7, Field(b.sec, 2) + b7;
    FieldOrder(a.sec, a7, b.sec, b7, 2);
    var a5, b5 := Field(a.min, 2) + a6, Field(b.min, 2) + b6;
    FieldOrder(a.min, a6, b.min, b6, 2);
    var a4, b4 := Field(a.hour, 2) + a5, Field(b.hour, 2) + b5;
    FieldOrder(a.hour, a5, b.hour, b5, 2);
    var a3, b3 := Field(a.day, 2) + a4, Field(b.day, 2) + b4;
    FieldOrder(a.day, a4, b.day, b4, 2);
    var a2, b2 := Field(a.month, 2) + a3, Field(b.month, 2) + b3;
    FieldOrder(a.month, a3, b.month, b3, 2);
    FieldOrder(a.year, a2, b.year, b2, 4);
  }

  lemma NothingBefore()
    ensures !Before(".", ".") && !Before("", "")
  {}

  lemma DateFits(t: nat)
    requires t < PLUS_INF
    ensures DateOf(t).year <= 2484
  {
    if DateOf(t).year > 2484 {
      TooLate(DateOf(t));
    }
  }

  /** The text is sortable: for finite times since the origin the order of the strings is
      the order of the times. */
  lemma {:induction false} TextSortable(a: Key, b: Key)
    requires 0 <= a < PLUS_INF && 0 <= b < PLUS_INF
    ensures Before(TimeText(a), TimeText(b)) <==> a < b
  {
    DateFits(a);
    DateFits(b);
    DateTextOrder(DateOf(a), DateOf(b));
    InstantOrder(DateOf(a), DateOf(b));
  }

  lemma TextOfFinite(t: Key)
    requires 0 <= t < PLUS_INF
    ensures TimeText(t) != "" && IsDigit(TimeText(t)[0])
  {
    hide DateOf, ValidDate, Instant;
    DateIsInstant(t);
    DateFits(t);
    FieldProperties(DateOf(t).year, 4);
  }

  /** The order of all texts, the infinities included: minus infinity comes before every finite
      time as it should, but plus infinity comes before everything else. */
  lemma TextOrder(a: Key, b: Key)
    requires (a >= 0 || a == MINUS_INF) && (b >= 0 || b == MINUS_INF)
    ensures Before(TimeText(a), TimeText(b)) <==> if a == PLUS_INF then b != PLUS_INF else b != PLUS_INF && a < b
  {
    if 0 <= a < PLUS_INF {
      TextOfFinite(a);
    }
    if 0 <= b < PLUS_INF {
      TextOfFinite(b);
    }
    hide TimeText;
    if 0 <= a < PLUS_INF && 0 <= b < PLUS_INF {
      TextSortable(a, b);
    } else {
      InfinityTexts();
    }
  }

  lemma InfinityTexts()
    ensures TimeText(PLUS_INF) == "+inf" && TimeText(MINUS_INF) == "-inf"
    ensures Before("+inf", "-inf") && !Before("-inf", "+inf") && !Before("+inf", "+inf") && !Before("-inf", "-inf")
  {
    assert "+inf"[1..] == "inf" && "-inf"[1..] == "inf" && "inf"[1..] == "nf" && "nf"[1..] == "f" && "f"[1..] == "";
  }

  /** Setting a time from its own text gives the time back. */
  lemma {:induction false} TextRoundTrip(old_: Key, t: Key)
    requires 0 <= t < PLUS_INF
    ensures |TimeText(t)| >= MIN_TEXT && ValueAfter(old_, ParsedTime(TimeText(t))) == t
    ensures TimeText(t) != "+inf" && TimeText(t) != "-inf"
  {
    hide DateOf, DateText, ParsedTime, ValueAfter, ValidDate, Instant;
    DateIsInstant(t);
    DateFits(t);
    DateTextParses(DateOf(t));
    SetsInstant(old_, DateOf(t));
  }

  // ---- The class

  class SimpleTime {
    var timeval: Key

    constructor (t: Key)
      ensures timeval == t
    {
      timeval := t;
    }

    method SetPlusInf()
      modifies this
      ensures timeval == PLUS_INF
    {
      timeval := PLUS_INF;
    }

    method SetMinusInf()
      modifies this
      ensures timeval == MINUS_INF
    {
      timeval := MINUS_INF;
    }

    /** Set from calendar fields; an invalid year or month leaves the time untouched. */
    method FromCalendarTime(c: CalendarTime)
      modifies this
      ensures timeval == ValueAfter(old(timeval), c)
    {
      if c.plusInf {
        SetPlusInf();
        return;
      }
      if c.minusInf {
        SetMinusInf();
        return;
      }
      if c.year < 1900 || c.year > 2484 {
        return;
      }
      var year := c.year - 1900;
      var days: int := year * 365 + LeapDays(year);
      if MonthOffset(c.month) == -1 {
        return;
      }
      days := days + MonthOffset(c.month);
      if Leap(year) && c.month < 3 {
        days := days - 1;
      }
      days := days + c.day - 1;
      timeval := Wrap((((days * 24 + c.hour) * 60 + c.min) * 60 + c.sec) * BILLION + c.ns);
    }

    /** The floating-point quotient: whatever rounding does, within the tolerance. */
    method ApproximateYears() returns (q: real)
      requires timeval >= 0
      ensures NearYears(q, timeval)
    {
      q := timeval as real / YEAR_NS as real;
    }

    /** Year section: guess, count the leap days up to the guess, divide again. */
    method YearSection() returns (year: nat)
      requires 0 <= timeval < PLUS_INF
      ensures year == DateOf(timeval).year
    {
      hide ValidDate, Instant, DateOf, LeapDays, NearYears, Truncated;
      var q := ApproximateYears();
      var t1 := Truncated(q);
      GuessBounds(q, timeval);
      YearOfGuess(DateOf(timeval), timeval, t1);
      var t2 := LeapDays(t1);
      t1 := (timeval - t2 * DAY) / (365 * DAY);
      year := t1 + 1900;
    }

    /** Days, hours, minutes, seconds and subseconds from what is left of the month. */
    static method DaySection(date: CalendarTime, rest: nat) returns (retval: CalendarTime)
      ensures retval == CalendarTime(date.year, date.month, rest / DAY + 1, rest % DAY / HOUR, rest % DAY % HOUR / (60 * BILLION),
                                     rest % DAY % HOUR % (60 * BILLION) / BILLION, rest % DAY % HOUR % (60 * BILLION) % BILLION,
                                     date.plusInf, date.minusInf)
    {
      var t1 := rest;
      retval := date.(day := t1 / DAY + 1);
      t1 := t1 % DAY;
      retval := retval.(hour := t1 / HOUR);
      t1 := t1 % HOUR;
      retval := retval.(min := t1 / (60 * BILLION));
      t1 := t1 % (60 * BILLION);
      retval := retval.(sec := t1 / BILLION);
      t1 := t1 % BILLION;
      retval := retval.(ns := t1);
    }

    /** Year, month and the rest, each with the start of the previous unit taken off. */
    method FiniteCalendarTime() returns (retval: CalendarTime)
      requires 0 <= timeval < PLUS_INF
      ensures retval == DateOf(timeval)
    {
      hide *;
      ghost var c := DateOf(timeval);
      DateIsInstant(timeval);
      var year := YearSection();
      YearStart(c, timeval);

      var now: Key := *;
      var subtractor := new SimpleTime(now);
      FirstOfInstant(c, 1, subtractor.timeval);
      subtractor.FromCalendarTime(FirstOf(year, 1));
      var t1 := timeval - subtractor.timeval;
      var month := MonthSection(t1, if Leap(year - 1900) then 1 else 0);
      MonthSettled(c, timeval, month);

      FirstOfInstant(c, c.month, subtractor.timeval);
      subtractor.FromCalendarTime(FirstOf(year, month));
      t1 := timeval - subtractor.timeval;
      DayParts(c, timeval);
      ClockParts(c);
      NoInfinity(c);
      retval := DaySection(CalendarTime(year, month, 0, 0, 0, 0, 0, false, false), t1);
    }

    /** The calendar fields of a time; for a finite time the date of the instant. */
    method ToCalendarTime() returns (retval: CalendarTime)
      requires timeval >= 0 || timeval == MINUS_INF
      ensures timeval == PLUS_INF ==> retval.plusInf && !retval.minusInf
      ensures timeval == MINUS_INF ==> retval.minusInf && !retval.plusInf
      ensures 0 <= timeval < PLUS_INF ==> retval == DateOf(timeval)
    {
      retval := FirstOf(0, 0);
      if timeval == PLUS_INF {
        return retval.(plusInf := true);
      }
      if timeval == MINUS_INF {
        return retval.(minusInf := true);
      }
      retval := FiniteCalendarTime();
    }

    /** The descending chain of comparisons with the month boundaries. */
    method MonthSection(t1: int, leap: int) returns (t2: int)
      requires 0 <= t1 < (365 + leap) * DAY && 0 <= leap <= 1
      ensures 1 <= t2 <= 12
      ensures CommonDays(t2, leap) * DAY <= t1
      ensures t2 < 12 ==> t1 < CommonDays(t2 + 1, leap) * DAY
    {
      t2 := 0;
      if t1 < (31+28+leap+31+30+31+30+31+31+30+31+30+31) * DAY { t2 := 12; }
      if t1 < (31+28+leap+31+30+31+30+31+31+30+31+30) * DAY { t2 := 11; }
      if t1 < (31+28+leap+31+30+31+30+31+31+30+31) * DAY { t2 := 10; }
      if t1 < (31+28+leap+31+30+31+30+31+31+30) * DAY { t2 := 9; }
      if t1 < (31+28+leap+31+30+31+30+31+31) * DAY { t2 := 8; }
      if t1 < (31+28+leap+31+30+31+30+31) * DAY { t2 := 7; }
      if t1 < (31+28+leap+31+30+31+30) * DAY { t2 := 6; }
      if t1 < (31+28+leap+31+30+31) * DAY { t2 := 5; }
      if t1 < (31+28+leap+31+30) * DAY { t2 := 4; }
      if t1 < (31+28+leap+31) * DAY { t2 := 3; }
      if t1 < (31+28+leap) * DAY { t2 := 2; }
      if t1 < 31 * DAY { t2 := 1; }
    }

    /** The sortable text. */
    method ToNetLogger() returns (timestring: string)
      requires timeval >= 0 || timeval == MINUS_INF
      ensures timestring == TimeText(timeval)
    {
      if timeval == PLUS_INF {
        return "+inf";
      }
      if timeval == MINUS_INF {
        return "-inf";
      }
      var c := ToCalendarTime();
      timestring := PaddedText(c.year, 4);
      var tmp := PaddedText(c.month, 2);
      timestring := timestring + tmp;
      tmp := PaddedText(c.day, 2);
      timestring := timestring + tmp;
      tmp := PaddedText(c.hour, 2);
      timestring := timestring + tmp;
      tmp := PaddedText(c.min, 2);
      timestring := timestring + tmp;
      tmp := PaddedText(c.sec, 2);
      timestring := timestring + tmp;
      tmp := PaddedText(c.ns, 9);
      timestring := timestring + ("." + tmp);
      DateTextAppended(c);
    }

    static method PaddedText(n: nat, w: nat) returns (s: string)
      ensures s == Field(n, w)
    {
      s := Itostr(n);
      s := Pad(s, w);
    }

    /** Set from a text. A text too short for its substrings raises an exception before
        anything is set. */
    method FromNetLogger(timestring: string) returns (ok: bool)
      modifies this
      ensures ok <==> timestring == "+inf" || timestring == "-inf" || |timestring| >= MIN_TEXT
      ensures !ok ==> timeval == old(timeval)
      ensures timestring == "+inf" ==> timeval == PLUS_INF
      ensures timestring == "-inf" ==> timeval == MINUS_INF
      ensures |timestring| >= MIN_TEXT ==> timeval == ValueAfter(old(timeval), ParsedTime(timestring))
    {
      if timestring == "+inf" {
        FromCalendarTime(FirstOf(0, 0).(plusInf := true));
      } else if timestring == "-inf" {
        FromCalendarTime(FirstOf(0, 0).(minusInf := true));
      } else if |timestring| < MIN_TEXT {
        return false;
      } else {
        FromCalendarTime(ParsedTime(timestring));
      }
      ok := true;
    }
  }

  /** Writing a time out and reading it back, into whatever time, restores it; so does
      converting to calendar fields and back. */
  method WriteAndRead(t: SimpleTime, u: SimpleTime) returns (s: string)
    requires t != u && (t.timeval >= 0 || t.timeval == MINUS_INF)
    modifies u
    ensures u.timeval == t.timeval
  {
    s := t.ToNetLogger();
    if 0 <= t.timeval < PLUS_INF {
      TextRoundTrip(u.timeval, t.timeval);
    }
    var ok := u.FromNetLogger(s);
  }

  /** A valid date that fits comes back from its instant. */
  method DateSurvives(c: CalendarTime, t: SimpleTime) returns (d: CalendarTime)
    requires ValidDate(c) && Instant(c) < PLUS_INF
    modifies t
    ensures t.timeval == Instant(c) && d == c
  {
    SetsInstant(t.timeval, c);
    t.FromCalendarTime(c);
    DateOfInstant(c);
    d := t.ToCalendarTime();
  }

  // ---- Steps of the conversion

  lemma YearOfGuess(c: CalendarTime, t: nat, g: nat)
    requires t < PLUS_INF && c == DateOf(t)
    requires g * YEAR_NS - SLACK <= t < (g + 1) * YEAR_NS + SLACK
    ensures (t - LeapDays(g) * DAY) / (365 * DAY) == c.year - 1900
    ensures t - LeapDays(g) * DAY >= 0 && c.year >= 1900
    ensures ValidDate(c) && Instant(c) == t
  {
    hide LeapDays, DaysBeforeYear, DaysInMonth, Leap, GregorianLeap;
    LiesInYear(c, t);
    YearCorrected(t, g, c.year - 1900);
    CommonYearQuotient(t - LeapDays(g) * DAY, c.year - 1900);
  }

  lemma LiesInYear(c: CalendarTime, t: nat)
    requires ValidDate(c) && Instant(c) == t
    ensures InYear(t, c.year - 1900)
  {
    hide ValidDate, DayNumber, TimeOfDay, DaysInYear;
    TimeWithinDay(c);
    DayInYear(c);
    ValidYear(c);
    NextYear(c.year);
  }

  lemma ValidYear(c: CalendarTime)
    requires ValidDate(c)
    ensures c.year >= 1900 && 1 <= c.month <= 12 && c.day >= 1
  {}

  lemma DateIsInstant(t: nat)
    ensures ValidDate(DateOf(t)) && DateOf(t).day >= 1 && Instant(DateOf(t)) == t
  {}

  lemma NextYear(year: nat)
    requires year >= 1900
    ensures DaysBeforeYear(year + 1) == DaysBeforeYear(year) + DaysInYear(year)
  {}

  lemma NoInfinity(c: CalendarTime)
    requires ValidDate(c)
    ensures !c.plusInf && !c.minusInf
  {}

  lemma CommonYearQuotient(n: int, y: nat)
    requires 365 * y * DAY <= n < 365 * (y + 1) * DAY
    ensures n / (365 * DAY) == y
  {}

  lemma YearStart(c: CalendarTime, t: nat)
    requires ValidDate(c) && Instant(c) == t
    ensures DaysBeforeMonth(c.year, 1) == 0 && 1 <= c.month <= 12 && c.year >= 1900
    ensures var leap := if Leap(c.year - 1900) then 1 else 0;
            0 <= t - DaysBeforeYear(c.year) * DAY < (365 + leap) * DAY
  {
    LiesInYear(c, t);
    NextYear(c.year);
    LeapAgrees(c.year - 1900);
  }

  /** Days before the month in a year with `leap` leap days. */
  function CommonDays(month: int, leap: int): int
    requires 1 <= month <= 12
  {
    MonthOffset(month) + if month >= 3 then leap else 0
  }

  lemma MonthSettled(c: CalendarTime, t: nat, m: int)
    requires ValidDate(c) && Instant(c) == t && 1 <= m <= 12
    requires var leap := if Leap(c.year - 1900) then 1 else 0;
             var inYear := t - DaysBeforeYear(c.year) * DAY;
             CommonDays(m, leap) * DAY <= inYear && (m < 12 ==> inYear < CommonDays(m + 1, leap) * DAY)
    ensures m == c.month
  {
    hide Leap, GregorianLeap, Instant, MonthOffset, DaysBeforeMonth, DaysInMonth;
    LeapAgrees(c.year - 1900);
    MonthFound(c, t);
    MonthClosedForm(c.year, m);
    if m < c.month {
      MonthClosedForm(c.year, m + 1);
      MonthsUp(c.year, m + 1, c.month);
    } else if m > c.month {
      MonthsUp(c.year, c.month + 1, m);
    }
  }

  lemma MonthsUp(year: nat, a: nat, b: nat)
    requires 1 <= a <= b
    ensures DaysBeforeMonth(year, a) <= DaysBeforeMonth(year, b)
  {
    if a < b {
      MonthsMonotone(year, a, b);
    }
  }

  lemma DateTextAppended(c: CalendarTime)
    ensures Field(c.year, 4) + Field(c.month, 2) + Field(c.day, 2) + Field(c.hour, 2) + Field(c.min, 2) + Field(c.sec, 2)
            + ("." + Field(c.ns, 9)) == DateText(c)
  {
    hide Field;
  }
}
