/** The calendar units folders stand for, from the year down to the second. */
module Units {
  import opened Calendar
  import opened Layouts

  // ---------------------------------------------------------------- calendar units

  /** A time with every field finer than the first `depth` at its start. */
  function Truncated(c: Civil, depth: nat): Civil {
    Civil(c.year,
          if depth >= 2 then c.month else 1,
          if depth >= 3 then c.day else 1,
          if depth >= 4 then c.hour else 0,
          if depth >= 5 then c.minute else 0,
          if depth >= 6 then c.second else 0)
  }

  lemma TruncatedIsReal(c: Civil, depth: nat)
    requires Real(c)
    ensures Real(Truncated(c, depth))
  {
  }

  /** Two times in one calendar unit: the first `depth` fields are the same. */
  predicate SameUnit(a: Civil, b: Civil, depth: nat) {
    Truncated(a, depth) == Truncated(b, depth)
  }

  lemma DateIsUnique(a: Civil, b: Civil)
    requires Real(a) && Real(b)
    ensures DayNumber(a) == DayNumber(b) ==> a.year == b.year && a.month == b.month && a.day == b.day
  {
    DayInMonth(a);
    DayInMonth(b);
    hide DayNumber;
    hide MonthDay;
    hide MonthOf;
    hide DaysInMonth;
  }

  /** 32 days past the first of a month lie in the next. */
  lemma NextMonth(c: Civil)
    requires Real(c) && c.day == 1
    ensures MonthOf(DayNumber(c) + 32) == MonthIndex(c.year, c.month) + 1
  {
    var i := MonthIndex(c.year, c.month);
    assert MonthDay(i + 1) == MonthDay(i) + MonthLength(i) && MonthDay(i + 2) == MonthDay(i + 1) + MonthLength(i + 1);
    MonthIsUnique(DayNumber(c) + 32, i + 1);
  }

  lemma InYear(c: Civil)
    requires Real(c)
    ensures MonthDay(MonthIndex(c.year, 1)) <= MonthDay(MonthIndex(c.year, c.month)) <= DayNumber(c)
    ensures DayNumber(c) < MonthDay(MonthIndex(c.year, c.month) + 1) <= MonthDay(MonthIndex(c.year + 1, 1))
  {
    var i := MonthIndex(c.year, c.month);
    assert i / 12 == c.year && i % 12 + 1 == c.month;
    assert MonthDay(i + 1) == MonthDay(i) + MonthLength(i);
    MonthsIncrease(MonthIndex(c.year, 1), i);
    MonthsIncrease(i + 1, MonthIndex(c.year + 1, 1));
  }

  function UnitEnd(c: Civil, depth: nat): nat
    requires Real(c) && 1 <= depth <= 6
  {
    TruncatedIsReal(c, depth);
    EndAfter(Truncated(c, depth), depth)
  }

  function UnitStart(c: Civil, depth: nat): nat
    requires Real(c)
  {
    TruncatedIsReal(c, depth);
    Seconds(Truncated(c, depth))
  }

  /** The end of a unit in closed form. */
  lemma UnitEndIs(c: Civil, depth: nat)
    requires Real(c) && 1 <= depth <= 6
    ensures UnitEnd(c, depth) ==
            if depth == 1 then 86400 * MonthDay(MonthIndex(c.year + 1, 1))
            else if depth == 2 then 86400 * MonthDay(MonthIndex(c.year, c.month) + 1)
            else UnitStart(c, depth) + UnitSeconds(depth)
  {
    hide MonthDay;
    hide MonthOf;
    hide DayNumber;
    hide DaysInMonth;
    hide Seconds;
    TruncatedIsReal(c, depth);
    if depth == 2 {
      NextMonth(Truncated(c, 2));
    }
  }

  /** A time lies in its unit. */
  lemma UnitHolds(c: Civil, depth: nat)
    requires Real(c) && 1 <= depth <= 6
    ensures UnitStart(c, depth) <= Seconds(c) < UnitEnd(c, depth)
  {
    TruncatedIsReal(c, depth);
    UnitEndIs(c, depth);
    InYear(c);
    hide MonthDay;
    hide EndAfter;
    hide DaysInMonth;
  }

  lemma UnitNestsOnce(c: Civil, depth: nat)
    requires Real(c) && 1 <= depth <= 5
    ensures UnitStart(c, depth) <= UnitStart(c, depth + 1) && UnitEnd(c, depth + 1) <= UnitEnd(c, depth)
  {
    TruncatedIsReal(c, depth);
    TruncatedIsReal(c, depth + 1);
    UnitEndIs(c, depth);
    UnitEndIs(c, depth + 1);
    InYear(c);
    hide MonthDay;
    hide EndAfter;
    hide UnitEnd;
    hide DaysInMonth;
  }

  /** Finer units sit inside coarser ones. */
  lemma {:induction false} UnitsNest(c: Civil, coarse: nat, fine: nat)
    requires Real(c) && 1 <= coarse <= fine <= 6
    ensures UnitStart(c, coarse) <= UnitStart(c, fine) && UnitEnd(c, fine) <= UnitEnd(c, coarse)
    decreases fine - coarse
  {
    hide UnitStart;
    hide UnitEnd;
    if coarse < fine {
      UnitNestsOnce(c, fine - 1);
      UnitsNest(c, coarse, fine - 1);
    }
  }

  // ---------------------------------------------------------------- membership

  lemma YearsApart(a: Civil, b: Civil)
    requires Real(a) && Real(b) && a.year < b.year
    ensures UnitEnd(a, 1) <= UnitStart(b, 1)
  {
    UnitEndIs(a, 1);
    MonthsIncrease(MonthIndex(a.year + 1, 1), MonthIndex(b.year, 1));
    hide MonthDay;
    hide UnitEnd;
    hide EndAfter;
  }

  lemma MonthsApart(a: Civil, b: Civil)
    requires Real(a) && Real(b) && MonthIndex(a.year, a.month) < MonthIndex(b.year, b.month)
    ensures UnitEnd(a, 2) <= UnitStart(b, 2)
  {
    UnitEndIs(a, 2);
    MonthsIncrease(MonthIndex(a.year, a.month) + 1, MonthIndex(b.year, b.month));
    hide MonthDay;
    hide UnitEnd;
    hide EndAfter;
    hide DaysInMonth;
  }

  lemma DaysApart(a: Civil, b: Civil)
    requires Real(a) && Real(b)
    requires UnitStart(a, 3) <= Seconds(b) < UnitEnd(a, 3)
    ensures a.year == b.year && a.month == b.month && a.day == b.day
  {
    hide MonthDay;
    hide UnitEnd;
    hide DaysInMonth;
    TruncatedIsReal(a, 3);
    UnitEndIs(a, 3);
    DateIsUnique(a, b);
  }

  lemma OnlyMonthsHold(a: Civil, b: Civil, depth: nat)
    requires Real(a) && Real(b) && 1 <= depth <= 2
    requires UnitStart(a, depth) <= Seconds(b) < UnitEnd(a, depth)
    ensures SameUnit(a, b, depth)
  {
    hide UnitStart;
    hide UnitEnd;
    hide Seconds;
    UnitHolds(b, depth);
    if depth == 1 {
      if a.year < b.year {
        YearsApart(a, b);
      } else if b.year < a.year {
        YearsApart(b, a);
      }
    } else {
      if MonthIndex(a.year, a.month) < MonthIndex(b.year, b.month) {
        MonthsApart(a, b);
      } else if MonthIndex(b.year, b.month) < MonthIndex(a.year, a.month) {
        MonthsApart(b, a);
      }
    }
  }

  lemma OnlyTimesHold(a: Civil, b: Civil, depth: nat)
    requires Real(a) && Real(b) && 3 <= depth <= 6
    requires UnitStart(a, depth) <= Seconds(b) < UnitEnd(a, depth)
    ensures SameUnit(a, b, depth)
  {
    hide DayNumber;
    hide UnitEnd;
    hide DaysInMonth;
    UnitsNest(a, 3, depth);
    DaysApart(a, b);
    UnitEndIs(a, depth);
    TruncatedIsReal(a, depth);
    SameDay(Truncated(a, depth), b);
  }

  lemma SameDay(a: Civil, b: Civil)
    requires Real(a) && Real(b) && a.year == b.year && a.month == b.month && a.day == b.day
    ensures DayNumber(a) == DayNumber(b)
  {
  }

  lemma OnlyUnitHolds(a: Civil, b: Civil, depth: nat)
    requires Real(a) && Real(b) && 1 <= depth <= 6
    requires UnitStart(a, depth) <= Seconds(b) < UnitEnd(a, depth)
    ensures SameUnit(a, b, depth)
  {
    if depth <= 2 {
      OnlyMonthsHold(a, b, depth);
    } else {
      OnlyTimesHold(a, b, depth);
    }
  }

  /** Two times share a calendar unit exactly when one lies in the span of the other's. */
  lemma SpanIsUnit(a: Civil, b: Civil, depth: nat)
    requires Real(a) && Real(b) && 1 <= depth <= 6
    ensures SameUnit(a, b, depth) == (UnitStart(a, depth) <= Seconds(b) < UnitEnd(a, depth))
  {
    hide Seconds;
    hide EndAfter;
    UnitHolds(b, depth);
    if UnitStart(a, depth) <= Seconds(b) < UnitEnd(a, depth) {
      OnlyUnitHolds(a, b, depth);
    }
  }

  const LAST := Civil(9999, 12, 31, 23, 59, 59)

  lemma LastSecond(c: Civil)
    requires Real(c)
    ensures Real(LAST) && Seconds(LAST) == END_OF_TIME - 1 && Seconds(c) < END_OF_TIME
  {
    MonthDayClosed(9999, 12);
    MonthDayClosed(10000, 1);
    InYear(c);
    MonthsIncrease(MonthIndex(c.year + 1, 1), MonthIndex(10000, 1));
    hide MonthDay;
  }

  /** The units that end past the last representable time are those holding its last second. */
  lemma EndsPastTime(c: Civil, depth: nat)
    requires Real(c) && 1 <= depth <= 6
    ensures UnitEnd(c, depth) >= END_OF_TIME <==> SameUnit(c, LAST, depth)
  {
    hide Seconds;
    hide UnitEnd;
    LastSecond(c);
    UnitHolds(c, depth);
    SpanIsUnit(c, LAST, depth);
  }

  // ---------------------------------------------------------------- export periods

  const MICROS := 1_000_000

  /** The moment of a civil time, `micros` into its second. */
  function MomentOf(c: Civil, micros: nat): Moment
    requires Real(c)
  {
    MICROS * Seconds(c) + micros
  }

  /** How many calendar fields name an export period. */
  function FieldsOf(period: Calendar.Period): nat {
    match period
    case Hour => 4
    case Day => 3
    case Month => 2
    case All => 0
  }

  lemma MultipleOfHours(hours: nat)
    ensures hours * TICKS_PER_HOUR / TICKS_PER_HOUR * TICKS_PER_HOUR == hours * TICKS_PER_HOUR
  {
  }

  lemma MultipleOfDays(days: nat)
    ensures days * TICKS_PER_DAY / TICKS_PER_DAY == days
  {
  }

  /** A civil time with its finer fields at their start begins an export period. */
  lemma TruncatedIsAligned(period: Calendar.Period, c: Civil)
    requires Real(c) && period != Calendar.Period.All
    ensures var start := Truncated(c, FieldsOf(period));
            && Real(start) && Aligned(period, MomentOf(start, 0))
            && NextPeriod(period, MomentOf(start, 0)) == MICROS * UnitEnd(c, FieldsOf(period))
  {
    var depth := FieldsOf(period);
    TruncatedIsReal(c, depth);
    UnitEndIs(c, depth);
    var start := Truncated(c, depth);
    var days := DayNumber(start);
    hide UnitEnd;
    match period {
      case Hour =>
        assert MomentOf(start, 0) == (24 * days + start.hour) * TICKS_PER_HOUR;
        MultipleOfHours(24 * days + start.hour);
      case Day =>
        assert MomentOf(start, 0) == days * TICKS_PER_DAY;
        MultipleOfDays(days);
      case Month =>
        assert MomentOf(start, 0) == days * TICKS_PER_DAY;
        MultipleOfDays(days);
        MonthMoment(MonthIndex(c.year, c.month));
    }
  }

  /** The period of a moment is the calendar hour, day or month that holds it: it starts where the
      finer fields start and ends where the next unit does. */
  lemma PeriodIsCivil(period: Calendar.Period, c: Civil, micros: nat)
    requires Real(c) && micros < MICROS && period != Calendar.Period.All
    ensures var depth := FieldsOf(period);
            && Real(Truncated(c, depth))
            && PeriodStart(period, MomentOf(c, micros)) == MomentOf(Truncated(c, depth), 0)
            && Aligned(period, MomentOf(Truncated(c, depth), 0))
            && NextPeriod(period, MomentOf(Truncated(c, depth), 0)) == MICROS * UnitEnd(c, depth)
  {
    var depth := FieldsOf(period);
    TruncatedIsAligned(period, c);
    UnitHolds(c, depth);
    PeriodIsUnique(period, MomentOf(Truncated(c, depth), 0), MomentOf(c, micros));
  }
}
